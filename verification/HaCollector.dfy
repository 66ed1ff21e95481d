/** One HA cycle over all edge clusters: `Cycle` specifies it, class HACollector performs it. */
module HaCollector {
  import opened Basics
  import opened Nsx
  import opened Consensus
  import opened Watchlist
  import opened FetchPhase
  import opened Goroutines
  import Failover

  /** The persisted record of one edge cluster, and of a site (edge cluster id -> record). */
  datatype Cluster = Cluster(t0Name: string, watch: Watch)
  type Inventory = map<string, Cluster>

  /** What the outside world decides in one cycle: the router listing (None: the call failed),
      whether the process was restarted just before, whether the inventory file can be read and
      written, the status replies, and the random draws. */
  datatype Input = Input(
    routers: Option<seq<Router>>,
    restarted: bool,
    loadOk: bool,
    saveOk: bool,
    replies: Replies,
    draws: map<string, seq<nat>>)

  /** The inventory file (no file is the empty inventory) and the in-memory baselines. */
  datatype SiteState = SiteState(disk: Inventory, prevActive: map<string, Actives>)

  datatype Summary = Summary(node: string, count: int, observed: int)

  // ---- Grouping the listing ------------------------------------------------------

  /** Edge cluster -> display name of its first TIER0. */
  function T0Names(routers: seq<Router>): map<string, string> {
    if routers == [] then map[]
    else
      var last := routers[|routers| - 1];
      var names := T0Names(routers[..|routers| - 1]);
      if last.edgeClusterId != "" && last.routerType == "TIER0" && last.edgeClusterId !in names
      then names[last.edgeClusterId := last.displayName] else names
  }

  /** The TIER1 routers of an edge cluster, in listing order. */
  function T1sOf(routers: seq<Router>, cluster: string): seq<Router> {
    if routers == [] then []
    else
      var last := routers[|routers| - 1];
      T1sOf(routers[..|routers| - 1], cluster) +
      if last.edgeClusterId == cluster && cluster != "" && last.routerType == "TIER1" then [last] else []
  }

  // ---- Specification of a cycle -----------------------------------------------------

  /** The cycle gets past its two early exits. */
  predicate Effective(i: Input) {
    i.routers.Some? && T0Names(i.routers.value) != map[]
  }

  function Loaded(disk: Inventory, i: Input): Inventory {
    if i.loadOk then disk else map[]
  }

  function DrawsFor(i: Input, c: string): seq<nat> {
    if c in i.draws then i.draws[c] else []
  }

  function WatchOf(inv: Inventory, c: string): Watch {
    if c in inv then inv[c].watch else Watch([], map[])
  }

  /** The inventory polled in this cycle: exactly the listed edge clusters, refreshed. */
  function Polled(cfg: Config, disk: Inventory, i: Input): Inventory
    requires Effective(i)
  {
    var names := T0Names(i.routers.value);
    map c | c in names ::
      Cluster(names[c], Refresh(cfg, WatchOf(Loaded(disk, i), c), T1sOf(i.routers.value, c), DrawsFor(i, c)))
  }

  function TasksOf(inv: Inventory): set<Task> {
    set c, id | c in inv && id in Ids(inv[c].watch.observed) :: Task(c, id)
  }

  /** The answers for one cluster. */
  function Seen(w: Watch, c: string, r: Replies): Actives {
    map id | id in Ids(w.observed) && Task(c, id) in r :: ActiveOf(r[Task(c, id)])
  }

  function Missed(w: Watch, c: string, r: Replies): set<string> {
    set id | id in Ids(w.observed) && Task(c, id) !in r
  }

  function MissedIn(missed: map<string, set<string>>, c: string): set<string> {
    if c in missed then missed[c] else {}
  }

  function PrevOf(prevActive: map<string, Actives>, c: string): Actives {
    if c in prevActive then prevActive[c] else map[]
  }

  /** The answers of every polled cluster. */
  function SeenAll(inv: Inventory, r: Replies): map<string, Actives> {
    map c | c in inv :: Seen(inv[c].watch, c, r)
  }

  function MissedAll(inv: Inventory, r: Replies): map<string, set<string>> {
    map c | c in inv :: Missed(inv[c].watch, c, r)
  }

  function BumpCluster(k: Cluster, missed: set<string>): Cluster {
    k.(watch := k.watch.(miss := Bump(k.watch.miss, missed)))
  }

  /** Miss counters bumped for the clusters in `cs`. */
  function Bumped(inv: Inventory, missed: map<string, set<string>>, cs: set<string>): Inventory {
    map c | c in inv :: if c in cs && c in missed then BumpCluster(inv[c], missed[c]) else inv[c]
  }

  predicate HasAnswer(seen: map<string, Actives>, c: string) {
    c in seen && seen[c] != map[]
  }

  /** Baselines rolled forward for the clusters in `cs`; a cluster without any answer keeps what
      it had, and so does a cluster that is no longer polled. */
  function Rolled(prev: map<string, Actives>, seen: map<string, Actives>, cs: set<string>): map<string, Actives> {
    map c | c in prev.Keys + cs && (c in prev || HasAnswer(seen, c)) ::
      if c in cs && HasAnswer(seen, c) then Failover.NextBaseline(PrevOf(prev, c), seen[c]) else prev[c]
  }

  function Cycle(cfg: Config, st: SiteState, i: Input): SiteState {
    if !Effective(i) then st
    else
      var inv := Polled(cfg, st.disk, i);
      SiteState(if i.saveOk then Bumped(inv, MissedAll(inv, i.replies), inv.Keys) else st.disk,
                Rolled(st.prevActive, SeenAll(inv, i.replies), inv.Keys))
  }

  /** The events of a cycle: at most one per polled cluster, as the majority rule says. */
  ghost predicate EventsOk(prev: map<string, Actives>, inv: Inventory, seen: map<string, Actives>, cs: set<string>,
                           events: map<string, Failover.Event>) {
    && events.Keys <= cs
    && forall c | c in cs && c in inv && c in seen ::
         Failover.EventOk(PrevOf(prev, c), seen[c], inv[c].watch.observed,
                          if c in events then Some(events[c]) else None)
  }

  ghost predicate SummaryOk(seen: Actives, s: Summary) {
    && s.observed == |seen|
    && exists counts :: IsTally(seen, counts) && IsMode(counts, s.node, s.count)
  }

  /** What a summary says: how many T1s answered, which node most of them are ACTIVE on, and how many. */
  lemma SummaryMeans(seen: Actives, s: Summary)
    requires SummaryOk(seen, s)
    ensures s.observed == |seen|
    ensures if forall t | t in seen :: seen[t] == "" then s.node == "" && s.count == 0
            else s.node != "" && s.count == |Votes(seen, s.node)|
    ensures forall n | n != "" && n != s.node ::
              |Votes(seen, n)| <= s.count && (|Votes(seen, n)| == s.count > 0 ==> Less(s.node, n))
  {
    var counts :| IsTally(seen, counts) && IsMode(counts, s.node, s.count);
    ConsensusWithinObserved(seen, counts, s.node, s.count);
    forall n, t | t in Votes(seen, n) ensures |Votes(seen, n)| > 0 { VotesCount(seen, n, t); }
    if t :| t in seen && seen[t] != "" {
      assert t in Votes(seen, seen[t]);
      assert seen[t] in counts;
    } else {
      forall n | n != "" ensures Votes(seen, n) == {} {}
      assert counts == map[];
    }
    forall n | n != "" && n != s.node
      ensures |Votes(seen, n)| <= s.count && (|Votes(seen, n)| == s.count > 0 ==> Less(s.node, n))
    {
      if n !in counts { assert Votes(seen, n) == {}; }
    }
  }

  lemma VotesCount(seen: Actives, n: string, t: string)
    requires t in Votes(seen, n)
    ensures |Votes(seen, n)| > 0
  {
    SubsetCardinality({t}, Votes(seen, n));
  }

  /** All that a cycle emits. */
  ghost predicate CycleEmits(cfg: Config, st: SiteState, i: Input, events: map<string, Failover.Event>) {
    if !Effective(i) then events == map[]
    else
      var inv := Polled(cfg, st.disk, i);
      EventsOk(st.prevActive, inv, SeenAll(inv, i.replies), inv.Keys, events)
  }

  /** One consensus summary for each cluster that answered. */
  ghost predicate SummariesOk(seen: map<string, Actives>, cs: set<string>, summaries: map<string, Summary>) {
    && (forall c | c in cs :: c in summaries <==> HasAnswer(seen, c))
    && (forall c | c in summaries :: c in cs && c in seen && SummaryOk(seen[c], summaries[c]))
  }

  /** Phase 4 has dealt with exactly the clusters in `cs`. */
  ghost predicate Diffed(prev0: map<string, Actives>, inv: Inventory, seen: map<string, Actives>,
                         missed: map<string, set<string>>, cs: set<string>,
                         prev: map<string, Actives>, events: map<string, Failover.Event>,
                         summaries: map<string, Summary>, bumped: Inventory) {
    && prev == Rolled(prev0, seen, cs)
    && bumped == Bumped(inv, missed, cs)
    && EventsOk(prev0, inv, seen, cs, events)
    && SummariesOk(seen, cs, summaries)
  }

  // ---- What a cycle works on ----------------------------------------------------------

  lemma {:induction false} NamedIffTier0(routers: seq<Router>, c: string)
    ensures c in T0Names(routers) <==>
            exists r :: r in routers && r.routerType == "TIER0" && r.edgeClusterId == c && c != ""
  {
    if routers != [] {
      var n := |routers| - 1;
      NamedIffTier0(routers[..n], c);
      assert routers == routers[..n] + [routers[n]];
    }
  }

  /** A cycle does something exactly when the listing arrived and has a TIER0 on an edge cluster. */
  lemma EffectiveIff(i: Input)
    ensures Effective(i) <==>
            i.routers.Some? && exists r :: r in i.routers.value && r.routerType == "TIER0" && r.edgeClusterId != ""
  {
    if i.routers.Some? {
      var routers := i.routers.value;
      forall c ensures c in T0Names(routers) <==>
                       exists r :: r in routers && r.routerType == "TIER0" && r.edgeClusterId == c && c != ""
      {
        NamedIffTier0(routers, c);
      }
      if r :| r in routers && r.routerType == "TIER0" && r.edgeClusterId != "" {
        assert r.edgeClusterId in T0Names(routers);
      }
      if T0Names(routers) != map[] {
        var c :| c in T0Names(routers);
      }
    }
  }

  /** The T1s of a cluster are its TIER1 routers, each as often and in the order listed. */
  lemma {:induction false} T1sAreFiltered(a: seq<Router>, b: seq<Router>, r: Router, c: string)
    ensures T1sOf([], c) == []
    ensures T1sOf([r], c) == if r.routerType == "TIER1" && r.edgeClusterId == c && c != "" then [r] else []
    ensures T1sOf(a + b, c) == T1sOf(a, c) + T1sOf(b, c)
  {
    assert [r][..0] == [];
    if b == [] {
      assert a + b == a;
    } else {
      var n := |b| - 1;
      T1sAreFiltered(a, b[..n], r, c);
      assert (a + b)[..|a| + n] == a + b[..n];
    }
  }

  /** Which record a cycle refreshes and with what: the stored one of the cluster, or an empty one
      when there is none or the file cannot be read. */
  lemma PolledFrom(cfg: Config, disk: Inventory, i: Input, c: string)
    requires Effective(i)
    ensures c in Polled(cfg, disk, i) <==> c in T0Names(i.routers.value)
    ensures c in Polled(cfg, disk, i) ==>
              var t1s, draws := T1sOf(i.routers.value, c), if c in i.draws then i.draws[c] else [];
              && Polled(cfg, disk, i)[c].t0Name == T0Names(i.routers.value)[c]
              && Polled(cfg, disk, i)[c].watch ==
                 if i.loadOk && c in disk then Refresh(cfg, disk[c].watch, t1s, draws)
                 else Refresh(cfg, Watch([], map[]), t1s, draws)
  {
  }

  /** What a cycle leaves alone: everything when it stops early, the file when the save fails. */
  lemma CycleLeavesAlone(cfg: Config, st: SiteState, i: Input)
    ensures !Effective(i) ==> Cycle(cfg, st, i) == st
    ensures !i.saveOk ==> Cycle(cfg, st, i).disk == st.disk
  {
  }

  // ---- The fetch phase delivers what the specification reads --------------------------

  /** Any finished run of the concurrent fetch phase leaves, for every cluster, the answers and
      misses that the sequential cycle below works with. */
  lemma FetchDelivers(run: seq<FetchPhase.State>, inv: Inventory, r: Replies, c: string)
    requires IsRun(run, TasksOf(inv), r) && At(Last(run).phase, Returned) == TasksOf(inv)
    requires c in inv
    ensures PrevOf(Last(run).active, c) == Seen(inv[c].watch, c, r)
    ensures MissedIn(Last(run).missed, c) == Missed(inv[c].watch, c, r)
  {
    FinalMaps(run, TasksOf(inv), r);
    MapsDeliver(Last(run).active, Last(run).missed, inv, r, c);
  }

  lemma MapsDeliver(active: map<string, Actives>, missed: map<string, set<string>>, inv: Inventory, r: Replies,
                    c: string)
    requires HoldsAnswers(active, TasksOf(inv), r) && HoldsFailures(missed, TasksOf(inv), r) && c in inv
    ensures PrevOf(active, c) == Seen(inv[c].watch, c, r)
    ensures MissedIn(missed, c) == Missed(inv[c].watch, c, r)
  {
    var w := inv[c].watch;
    forall id ensures Task(c, id) in TasksOf(inv) <==> id in Ids(w.observed) {}
    forall id ensures id in PrevOf(active, c) <==> id in Seen(w, c, r) {
      assert InActive(active, Task(c, id)) <==> id in PrevOf(active, c);
    }
    forall id | id in PrevOf(active, c) ensures PrevOf(active, c)[id] == Seen(w, c, r)[id] {
      assert InActive(active, Task(c, id));
    }
    forall id ensures id in MissedIn(missed, c) <==> id in Missed(w, c, r) {
      assert InMissed(missed, Task(c, id)) <==> id in MissedIn(missed, c);
    }
  }

  // ---- The listed clusters ------------------------------------------------------------------

  /** The name kept for an edge cluster is that of the first TIER0 listed on it. */
  lemma {:induction false} FirstTier0Names(routers: seq<Router>, c: string, name: string)
    ensures c in T0Names(routers) && T0Names(routers)[c] == name <==>
            exists k :: FirstTier0At(routers, c, k) && routers[k].displayName == name
  {
    if routers != [] {
      var n := |routers| - 1;
      FirstTier0Names(routers[..n], c, name);
      if c in T0Names(routers[..n]) {
        FirstTier0Names(routers[..n], c, T0Names(routers[..n])[c]);
        var k :| FirstTier0At(routers[..n], c, k);
        assert FirstTier0At(routers, c, k);
      } else {
        forall k | 0 <= k < n ensures !IsTier0On(routers[k], c) {
          NoTier0Before(routers[..n], c, k);
        }
        assert FirstTier0At(routers, c, n) <==> IsTier0On(routers[n], c);
      }
      forall k | FirstTier0At(routers, c, k) && k < n ensures FirstTier0At(routers[..n], c, k) {}
    }
  }

  predicate IsTier0On(r: Router, c: string) {
    r.routerType == "TIER0" && r.edgeClusterId == c && c != ""
  }

  ghost predicate FirstTier0At(routers: seq<Router>, c: string, k: int) {
    0 <= k < |routers| && IsTier0On(routers[k], c) && forall j | 0 <= j < k :: !IsTier0On(routers[j], c)
  }

  lemma {:induction false} NoTier0Before(routers: seq<Router>, c: string, k: nat)
    requires k < |routers| && c !in T0Names(routers)
    ensures !IsTier0On(routers[k], c)
  {
    var n := |routers| - 1;
    if k < n { NoTier0Before(routers[..n], c, k); }
  }

  datatype T0Cluster = T0Cluster(site: string, clusterId: string, displayName: string)

  ghost predicate ListsClusters(routers: seq<Router>, site: string, out: seq<T0Cluster>) {
    && (forall k | 0 <= k < |out| :: out[k].site == site && out[k].clusterId in T0Names(routers)
                                     && out[k].displayName == T0Names(routers)[out[k].clusterId])
    && (forall c | c in T0Names(routers) :: T0Cluster(site, c, T0Names(routers)[c]) in out)
    && (forall j, k | 0 <= j < k < |out| :: out[j].clusterId != out[k].clusterId)
  }

  /** --print-clusters: one entry per edge cluster with a TIER0, sorted by name. */
  method ListT0Clusters(routers: seq<Router>, site: string) returns (out: seq<T0Cluster>)
    ensures ListsClusters(routers, site, out)
    ensures SortedBy(out, (k: T0Cluster) => k.displayName)
  {
    var found: seq<T0Cluster> := [];
    var seen: set<string> := {};
    var i := 0;
    while i < |routers|
      invariant 0 <= i <= |routers|
      invariant seen == T0Names(routers[..i]).Keys
      invariant ListsClusters(routers[..i], site, found)
    {
      var r := routers[i];
      assert routers[..i + 1][..i] == routers[..i];
      if r.routerType == "TIER0" && r.edgeClusterId != "" && r.edgeClusterId !in seen {
        seen := seen + {r.edgeClusterId};
        found := found + [T0Cluster(site, r.edgeClusterId, r.displayName)];
      }
      i := i + 1;
    }
    assert routers[..i] == routers;
    SortSorts(found, (k: T0Cluster) => k.displayName);
    out := Sort(found, (k: T0Cluster) => k.displayName);
    SameElementsStillList(routers, site, found, out);
  }

  lemma SameElementsStillList(routers: seq<Router>, site: string, a: seq<T0Cluster>, b: seq<T0Cluster>)
    requires ListsClusters(routers, site, a) && multiset(a) == multiset(b)
    ensures ListsClusters(routers, site, b)
  {
    forall x ensures x in a <==> x in b {
      assert x in a <==> x in multiset(a);
      assert x in b <==> x in multiset(b);
    }
    forall k | 0 <= k < |b| ensures b[k].site == site && b[k].clusterId in T0Names(routers)
                                    && b[k].displayName == T0Names(routers)[b[k].clusterId] {
      assert b[k] in a;
    }
    forall j, k | 0 <= j < k < |b| ensures b[j].clusterId != b[k].clusterId {
      if b[j].clusterId == b[k].clusterId {
        assert b[j] == b[k];
        assert b == b[..k] + [b[k]] + b[k + 1..];
        assert b[..k][j] == b[j];
        assert multiset(b)[b[k]] >= 2;
        TwiceMeansTwoPlaces(a, b[k]);
      }
    }
  }

  lemma {:induction false} TwiceMeansTwoPlaces(a: seq<T0Cluster>, x: T0Cluster)
    requires multiset(a)[x] >= 2
    ensures exists j, k :: 0 <= j < k < |a| && a[j] == x && a[k] == x
  {
    var n := |a| - 1;
    assert a == a[..n] + [a[n]];
    if a[n] == x {
      assert x in multiset(a[..n]);
      var j :| 0 <= j < n && a[j] == x;
    } else {
      TwiceMeansTwoPlaces(a[..n], x);
    }
  }

  // ---- The collector --------------------------------------------------------------------

  function ListOf(t1ByCluster: map<string, seq<Router>>, c: string): seq<Router> {
    if c in t1ByCluster then t1ByCluster[c] else []
  }

  /** `t1ByCluster` lists the TIER1 routers of every edge cluster. */
  ghost predicate GroupsT1s(t1ByCluster: map<string, seq<Router>>, routers: seq<Router>) {
    forall c :: ListOf(t1ByCluster, c) == T1sOf(routers, c)
  }

  lemma GroupsOneMore(t1ByCluster: map<string, seq<Router>>, routers: seq<Router>, r: Router)
    requires GroupsT1s(t1ByCluster, routers)
    ensures GroupsT1s(if r.edgeClusterId != "" && r.routerType == "TIER1"
                      then t1ByCluster[r.edgeClusterId := ListOf(t1ByCluster, r.edgeClusterId) + [r]] else t1ByCluster,
                      routers + [r])
  {
    assert (routers + [r])[..|routers|] == routers;
    var more := if r.edgeClusterId != "" && r.routerType == "TIER1"
                then t1ByCluster[r.edgeClusterId := ListOf(t1ByCluster, r.edgeClusterId) + [r]] else t1ByCluster;
    forall c ensures ListOf(more, c) == T1sOf(routers + [r], c) {
      assert ListOf(t1ByCluster, c) == T1sOf(routers, c);
      assert T1sOf(routers, c) + [] == T1sOf(routers, c);
    }
  }

  method GroupRouters(routers: seq<Router>)
    returns (t0Names: map<string, string>, t1ByCluster: map<string, seq<Router>>)
    ensures t0Names == T0Names(routers)
    ensures GroupsT1s(t1ByCluster, routers)
  {
    t0Names, t1ByCluster := map[], map[];
    var i := 0;
    while i < |routers|
      invariant 0 <= i <= |routers|
      invariant t0Names == T0Names(routers[..i])
      invariant GroupsT1s(t1ByCluster, routers[..i])
    {
      var r := routers[i];
      assert routers[..i + 1] == routers[..i] + [r];
      assert routers[..i + 1][..i] == routers[..i];
      GroupsOneMore(t1ByCluster, routers[..i], r);
      if r.edgeClusterId != "" {
        if r.routerType == "TIER0" {
          if r.edgeClusterId !in t0Names {
            t0Names := t0Names[r.edgeClusterId := r.displayName];
          }
        } else if r.routerType == "TIER1" {
          t1ByCluster := t1ByCluster[r.edgeClusterId := ListOf(t1ByCluster, r.edgeClusterId) + [r]];
        }
      }
      i := i + 1;
    }
    assert routers[..i] == routers;
  }

  /** One of the interleavings of the fetch phase: the requests one after the other. */
  method FetchAll(inv: Inventory, r: Replies) returns (active: map<string, Actives>, missed: map<string, set<string>>)
    ensures HoldsAnswers(active, TasksOf(inv), r) && HoldsFailures(missed, TasksOf(inv), r)
  {
    active, missed := map[], map[];
    var todo := TasksOf(inv);
    ghost var done: set<Task> := {};
    while todo != {}
      invariant todo <= TasksOf(inv)
      invariant HoldsAnswers(active, done, r) && HoldsFailures(missed, done, r)
      invariant done + todo == TasksOf(inv)
    {
      var t :| t in todo;
      AnswerIsHeld(active, done, t, r);
      FailureIsHeld(missed, done, t, r);
      if t in r {
        var node := ActiveNode(r[t]);
        active := AddActive(active, t, node);
      } else {
        missed := AddMissed(missed, t);
      }
      todo, done := todo - {t}, done + {t};
    }
    assert done == TasksOf(inv);
  }

  method Summarise(seen: Actives) returns (s: Summary)
    ensures SummaryOk(seen, s)
  {
    var counts := CountNodes(seen);
    var node, count := MostFrequent(counts);
    s := Summary(node, count, |seen|);
  }

  /** Load a cluster's record into a fresh object, refresh it there, and read it back. */
  method RefreshOne(cfg: Config, w: Watch, t1s: seq<Router>, draws: seq<nat>) returns (w': Watch)
    ensures w' == Refresh(cfg, w, t1s, draws)
  {
    var ci := new ClusterInventory(w);
    var _ := ci.RefreshWatchlist(cfg, t1s, draws);
    w' := ci.Value();
  }

  method BumpOne(w: Watch, missed: set<string>) returns (w': Watch)
    ensures w' == w.(miss := Bump(w.miss, missed))
  {
    var ci := new ClusterInventory(w);
    ci.BumpMissCounts(missed);
    w' := ci.Value();
  }

  /** Refresh the record of every listed cluster, creating it when missing. */
  method RefreshClusters(cfg: Config, loaded: Inventory, i: Input, t0Names: map<string, string>,
                         t1ByCluster: map<string, seq<Router>>)
    returns (inv: Inventory)
    requires i.routers.Some?
    requires GroupsT1s(t1ByCluster, i.routers.value)
    ensures inv.Keys == loaded.Keys + t0Names.Keys
    ensures forall c | c in t0Names ::
              inv[c] == Cluster(t0Names[c], Refresh(cfg, WatchOf(loaded, c), T1sOf(i.routers.value, c), DrawsFor(i, c)))
  {
    inv := loaded;
    var todo := t0Names.Keys;
    while todo != {}
      invariant todo <= t0Names.Keys
      invariant inv.Keys == loaded.Keys + (t0Names.Keys - todo)
      invariant forall c | c in todo && c in loaded :: inv[c] == loaded[c]
      invariant forall c | c in t0Names && c !in todo ::
                  inv[c] == Cluster(t0Names[c],
                                    Refresh(cfg, WatchOf(loaded, c), T1sOf(i.routers.value, c), DrawsFor(i, c)))
    {
      var c :| c in todo;
      assert WatchOf(inv, c) == WatchOf(loaded, c);
      var w := RefreshOne(cfg, WatchOf(inv, c), ListOf(t1ByCluster, c), DrawsFor(i, c));
      inv := inv[c := Cluster(t0Names[c], w)];
      todo := todo - {c};
    }
  }

  /** Forget clusters that no longer have a TIER0. */
  method DropGone(inv: Inventory, t0Names: map<string, string>) returns (kept: Inventory)
    ensures kept == map c | c in inv && c in t0Names :: inv[c]
  {
    kept := inv;
    var todo := inv.Keys;
    while todo != {}
      invariant todo <= inv.Keys
      invariant kept == map c | c in inv && (c in t0Names || c in todo) :: inv[c]
    {
      var c :| c in todo;
      if c !in t0Names {
        kept := kept - {c};
      }
      todo := todo - {c};
    }
  }

  method PollInventory(cfg: Config, disk: Inventory, i: Input, t0Names: map<string, string>,
                       t1ByCluster: map<string, seq<Router>>)
    returns (inv: Inventory)
    requires Effective(i) && t0Names == T0Names(i.routers.value)
    requires GroupsT1s(t1ByCluster, i.routers.value)
    ensures inv == Polled(cfg, disk, i)
  {
    inv := RefreshClusters(cfg, Loaded(disk, i), i, t0Names, t1ByCluster);
    inv := DropGone(inv, t0Names);
  }

  lemma RolledOneMore(prev: map<string, Actives>, seen: map<string, Actives>, cs: set<string>, c: string)
    requires c !in cs
    ensures Rolled(prev, seen, cs + {c}) ==
            if HasAnswer(seen, c) then Rolled(prev, seen, cs)[c := Failover.NextBaseline(PrevOf(prev, c), seen[c])]
            else Rolled(prev, seen, cs)
    ensures PrevOf(Rolled(prev, seen, cs), c) == PrevOf(prev, c)
  {
  }

  lemma BumpedOneMore(inv: Inventory, missed: map<string, set<string>>, cs: set<string>, c: string)
    requires c in inv && c in missed && c !in cs
    ensures Bumped(inv, missed, cs + {c}) == Bumped(inv, missed, cs)[c := BumpCluster(inv[c], missed[c])]
    ensures Bumped(inv, missed, cs)[c] == inv[c]
  {
  }

  lemma EventsOneMore(prev: map<string, Actives>, inv: Inventory, seen: map<string, Actives>, cs: set<string>,
                      events: map<string, Failover.Event>, c: string, event: Option<Failover.Event>)
    requires EventsOk(prev, inv, seen, cs, events) && c in inv && c in seen && c !in cs
    requires Failover.EventOk(PrevOf(prev, c), seen[c], inv[c].watch.observed, event)
    ensures EventsOk(prev, inv, seen, cs + {c}, if event.Some? then events[c := event.value] else events)
  {
    var more := if event.Some? then events[c := event.value] else events;
    forall d | d in cs + {c} && d in inv && d in seen
      ensures Failover.EventOk(PrevOf(prev, d), seen[d], inv[d].watch.observed,
                               if d in more then Some(more[d]) else None)
    {
      if d == c {
        assert event == if c in more then Some(more[c]) else None;
      }
    }
  }

  lemma SummariesOneMore(seen: map<string, Actives>, cs: set<string>, summaries: map<string, Summary>, c: string,
                         s: Option<Summary>)
    requires SummariesOk(seen, cs, summaries) && c in seen && c !in cs
    requires s.Some? <==> HasAnswer(seen, c)
    requires s.Some? ==> SummaryOk(seen[c], s.value)
    ensures SummariesOk(seen, cs + {c}, if s.Some? then summaries[c := s.value] else summaries)
  {
  }

  /** Phases 1 and 2; None at the early exits. */
  method Poll(cfg: Config, disk: Inventory, i: Input) returns (inv: Option<Inventory>)
    ensures inv == if Effective(i) then Some(Polled(cfg, disk, i)) else None
  {
    inv := None;
    if i.routers.None? {
      return;
    }
    var t0Names, t1ByCluster := GroupRouters(i.routers.value);
    if t0Names == map[] {
      return;
    }
    var polled := PollInventory(cfg, disk, i, t0Names, t1ByCluster);
    inv := Some(polled);
  }

  class HACollector {
    const cfg: Config
    /** The inventory file. */
    var disk: Inventory
    /** Lost on restart. */
    var prevActive: map<string, Actives>

    constructor (cfg: Config, disk: Inventory)
      ensures this.cfg == cfg && Value() == SiteState(disk, map[])
    {
      this.cfg := cfg;
      this.disk := disk;
      this.prevActive := map[];
    }

    function Value(): SiteState
      reads this
    {
      SiteState(disk, prevActive)
    }

    method CollectHA(i: Input) returns (events: map<string, Failover.Event>, summaries: map<string, Summary>)
      modifies this
      ensures Value() == Cycle(cfg, old(Value()), i)
      ensures CycleEmits(cfg, old(Value()), i, events)
      ensures !Effective(i) ==> events == map[] && summaries == map[]
      ensures Effective(i) ==>
                var inv := Polled(cfg, old(disk), i);
                && EventsOk(old(prevActive), inv, SeenAll(inv, i.replies), inv.Keys, events)
                && SummariesOk(SeenAll(inv, i.replies), inv.Keys, summaries)
    {
      events, summaries := map[], map[];
      var polled := Poll(cfg, disk, i);
      if polled.Some? {
        events, summaries := Process(polled.value, i.replies, i.saveOk);
      }
    }

    /** Phases 3 to 5 on the refreshed inventory. */
    method Process(inv: Inventory, r: Replies, saveOk: bool)
      returns (events: map<string, Failover.Event>, summaries: map<string, Summary>)
      modifies this
      ensures prevActive == Rolled(old(prevActive), SeenAll(inv, r), inv.Keys)
      ensures disk == if saveOk then Bumped(inv, MissedAll(inv, r), inv.Keys) else old(disk)
      ensures EventsOk(old(prevActive), inv, SeenAll(inv, r), inv.Keys, events)
      ensures SummariesOk(SeenAll(inv, r), inv.Keys, summaries)
    {
      var active, missed := FetchAll(inv, r);
      forall c | c in inv
        ensures PrevOf(active, c) == SeenAll(inv, r)[c] && MissedIn(missed, c) == MissedAll(inv, r)[c]
      {
        MapsDeliver(active, missed, inv, r, c);
      }
      var bumped: Inventory;
      events, summaries, bumped := DiffClusters(inv, active, missed, SeenAll(inv, r), MissedAll(inv, r));
      if saveOk {
        disk := bumped;
      }
    }

    /** The body of the phase 4 loop: one more cluster, counters included. */
    method DiffNext(c: string, inv: Inventory, active: map<string, Actives>, missed: map<string, set<string>>,
                    events0: map<string, Failover.Event>, summaries0: map<string, Summary>, bumped0: Inventory,
                    ghost prev0: map<string, Actives>, ghost seenAll: map<string, Actives>,
                    ghost missedAll: map<string, set<string>>, ghost done: set<string>)
      returns (events: map<string, Failover.Event>, summaries: map<string, Summary>, bumped: Inventory)
      requires c in inv && c in seenAll && c in missedAll && c !in done
      requires PrevOf(active, c) == seenAll[c] && MissedIn(missed, c) == missedAll[c]
      requires Diffed(prev0, inv, seenAll, missedAll, done, prevActive, events0, summaries0, bumped0)
      modifies this`prevActive
      ensures Diffed(prev0, inv, seenAll, missedAll, done + {c}, prevActive, events, summaries, bumped)
    {
      events, summaries := events0, summaries0;
      RolledOneMore(prev0, seenAll, done, c);
      BumpedOneMore(inv, missedAll, done, c);
      var event, summary := DiffOne(c, PrevOf(active, c), inv[c].watch.observed);
      EventsOneMore(prev0, inv, seenAll, done, events, c, event);
      SummariesOneMore(seenAll, done, summaries, c, summary);
      if summary.Some? {
        summaries := summaries[c := summary.value];
      }
      if event.Some? {
        events := events[c := event.value];
      }
      var w := BumpOne(bumped0[c].watch, MissedIn(missed, c));
      bumped := bumped0[c := bumped0[c].(watch := w)];
    }

    /** Phase 4, cluster by cluster in map order. */
    method DiffClusters(inv: Inventory, active: map<string, Actives>, missed: map<string, set<string>>,
                        ghost seenAll: map<string, Actives>, ghost missedAll: map<string, set<string>>)
      returns (events: map<string, Failover.Event>, summaries: map<string, Summary>, bumped: Inventory)
      requires seenAll.Keys == missedAll.Keys == inv.Keys
      requires forall c | c in inv :: PrevOf(active, c) == seenAll[c] && MissedIn(missed, c) == missedAll[c]
      modifies this`prevActive
      ensures prevActive == Rolled(old(prevActive), seenAll, inv.Keys)
      ensures bumped == Bumped(inv, missedAll, inv.Keys)
      ensures EventsOk(old(prevActive), inv, seenAll, inv.Keys, events)
      ensures SummariesOk(seenAll, inv.Keys, summaries)
    {
      events, summaries, bumped := map[], map[], inv;
      var todo := inv.Keys;
      ghost var done: set<string> := {};
      while todo != {}
        invariant todo + done == inv.Keys && todo !! done
        invariant Diffed(old(prevActive), inv, seenAll, missedAll, done, prevActive, events, summaries, bumped)
      {
        var c :| c in todo;
        events, summaries, bumped := DiffNext(c, inv, active, missed, events, summaries, bumped,
                                              old(prevActive), seenAll, missedAll, done);
        todo := todo - {c};
        done := done + {c};
      }
      assert done == inv.Keys;
    }

    /** One cluster: nothing at all if no T1 answered. */
    method DiffOne(c: string, seen: Actives, observed: seq<Observed>)
      returns (event: Option<Failover.Event>, summary: Option<Summary>)
      modifies this`prevActive
      ensures prevActive == if seen == map[] then old(prevActive)
                            else old(prevActive)[c := Failover.NextBaseline(PrevOf(old(prevActive), c), seen)]
      ensures Failover.EventOk(PrevOf(old(prevActive), c), seen, observed, event)
      ensures summary.Some? <==> seen != map[]
      ensures summary.Some? ==> SummaryOk(seen, summary.value)
    {
      event, summary := None, None;
      if seen != map[] {
        var s := Summarise(seen);
        summary := Some(s);
        var newPrev: Actives;
        event, newPrev := Failover.DiffCluster(PrevOf(prevActive, c), seen, observed);
        prevActive := prevActive[c := newPrev];
      }
    }
  }
}
