/** The few NSX entities the HA watch works on. */
module Nsx {

  /** A logical router as listed by the manager. */
  datatype Router = Router(id: string, displayName: string, routerType: string, edgeClusterId: string)

  /** One entry of the persisted watchlist. */
  datatype Observed = Observed(id: string, name: string, pinned: bool)
}
