/** Lifecycle of Tier-1 gateways: the in-place diff of a persisted snapshot against the live
    inventory, and what whole runs of it guarantee. */
module T1Detector {
  import opened Basics

  /** A T1 as seen in one cycle, with its parent T0 or VRF and its edge cluster. */
  datatype LiveT1 = LiveT1(
    id: string, name: string,
    parentT0Id: string, parentT0Name: string, parentKind: string,
    edgeClusterId: string, edgeClusterName: string)

  /** A snapshot entry: the stored view and the second it was first seen. */
  datatype T1Info = T1Info(view: LiveT1, firstSeen: int)

  type Known = map<string, T1Info>
  type Live = map<string, LiveT1>

  datatype Kind = Created | Deleted

  datatype Event = Event(kind: Kind, t1: LiveT1, occurredAt: int, countAfter: int, limit: int, total: int)

  /** Per-parent counts and limits, by parent display name. */
  datatype Aggregates = Aggregates(
    vrfCounts: map<string, int>, t0Counts: map<string, int>, total: int,
    vrfLimit: string -> int, t0Limit: string -> int)
  {
    function CountFor(kind: string, name: string): int {
      var counts := if kind == "vrf" then vrfCounts else t0Counts;
      if name in counts then counts[name] else 0
    }

    function LimitFor(kind: string, name: string): int {
      if kind == "vrf" then vrfLimit(name) else t0Limit(name)
    }
  }

  /** A configured positive override, else the default: an override that is not positive counts as
      none, so with a positive default every limit is positive. */
  function LimitResolver(default_: int, overrides: map<string, int>): (limit: string -> int)
    ensures forall name | name in overrides && overrides[name] > 0 :: limit(name) == overrides[name]
    ensures forall name | name in overrides ==> overrides[name] <= 0 :: limit(name) == default_
    ensures default_ > 0 ==> forall name :: limit(name) > 0
  {
    (name: string) => if name in overrides && overrides[name] > 0 then overrides[name] else default_
  }

  const NANOS: int := 1_000_000_000

  /** Unix seconds of a time in nanoseconds. */
  function Unix(now: int): int { now / NANOS }

  // ---- Specification of one diff -------------------------------------------------

  /** Index by id; the last of several entries wins. */
  function ById(live: seq<LiveT1>): Live {
    if live == [] then map[]
    else var last := live[|live| - 1]; ById(live[..|live| - 1])[last.id := last]
  }

  /** The four fields the refresh compares: the parent's id and kind are not among them. */
  predicate SameVisible(a: LiveT1, b: LiveT1) {
    && a.edgeClusterId == b.edgeClusterId && a.edgeClusterName == b.edgeClusterName
    && a.parentT0Name == b.parentT0Name && a.name == b.name
  }

  function RefreshInfo(info: T1Info, live: LiveT1): T1Info {
    if SameVisible(info.view, live) then info else info.(view := live.(id := info.view.id))
  }

  function KnownAfter(known: Known, live: Live, now: int): Known {
    map id | id in live :: if id in known then RefreshInfo(known[id], live[id]) else T1Info(live[id], Unix(now))
  }

  function EventFor(kind: Kind, t: LiveT1, agg: Aggregates, now: int): Event {
    Event(kind, t, now,
          agg.CountFor(t.parentKind, t.parentT0Name), agg.LimitFor(t.parentKind, t.parentT0Name), agg.total)
  }

  function CreatedEvents(keys: seq<string>, live: Live, agg: Aggregates, now: int): seq<Event>
    requires forall k | k in keys :: k in live
  {
    seq(|keys|, i requires 0 <= i < |keys| => EventFor(Created, live[keys[i]], agg, now))
  }

  function DeletedEvents(keys: seq<string>, known: Known, agg: Aggregates, now: int): seq<Event>
    requires forall k | k in keys :: k in known
  {
    seq(|keys|, i requires 0 <= i < |keys| => EventFor(Deleted, known[keys[i]].view, agg, now))
  }

  /** `s` lists every element of `keys` once, in some order. */
  ghost predicate Enumerates(s: seq<string>, keys: set<string>) {
    Distinct(s) && forall x :: x in s <==> x in keys
  }

  /** One event per appearance, then one per disappearance, each group in map order; none at all
      on the baseline run. */
  ghost predicate EventsOk(known: Known, live: Live, baselined: bool, agg: Aggregates, now: int, events: seq<Event>) {
    if !baselined then events == []
    else exists created, deleted ::
      && Enumerates(created, live.Keys - known.Keys)
      && Enumerates(deleted, known.Keys - live.Keys)
      && events == CreatedEvents(created, live, agg, now) + DeletedEvents(deleted, known, agg, now)
  }

  /** The snapshot once the first loop has been through the live T1s in `seen`. */
  function Grown(known: Known, live: Live, seen: set<string>, now: int): Known
    requires seen <= live.Keys
  {
    map id | id in known.Keys + seen :: if id in known then known[id] else T1Info(live[id], Unix(now))
  }

  lemma GrownOneMore(known: Known, live: Live, seen: set<string>, id: string, now: int)
    requires seen <= live.Keys && id in live && id !in seen
    ensures Grown(known, live, seen + {id}, now) ==
            if id in known then Grown(known, live, seen, now)
            else Grown(known, live, seen, now)[id := T1Info(live[id], Unix(now))]
    ensures id in Grown(known, live, seen, now) <==> id in known
  {
  }

  // ---- The diff, in place -----------------------------------------------------------

  class Snapshot {
    var known: Known
    var updated: int

    constructor (known: Known)
      ensures this.known == known
    {
      this.known := known;
      this.updated := 0;
    }

    method AddCreated(live: Live, baselined: bool, agg: Aggregates, now: int)
      returns (events: seq<Event>, ghost created: seq<string>)
      modifies this`known
      ensures known == map id | id in old(known).Keys + live.Keys ::
                if id in old(known) then old(known)[id] else T1Info(live[id], Unix(now))
      ensures Enumerates(created, live.Keys - old(known).Keys)
      ensures events == if baselined then CreatedEvents(created, live, agg, now) else []
    {
      events, created := [], [];
      var todo := live.Keys;
      while todo != {}
        invariant todo <= live.Keys
        invariant known == Grown(old(known), live, live.Keys - todo, now)
        invariant Enumerates(created, live.Keys - todo - old(known).Keys)
        invariant forall k | k in created :: k in live
        invariant events == if baselined then CreatedEvents(created, live, agg, now) else []
      {
        var id :| id in todo;
        GrownOneMore(old(known), live, live.Keys - todo, id, now);
        assert live.Keys - (todo - {id}) == live.Keys - todo + {id};
        var t := live[id];
        if id !in known {
          known := known[id := T1Info(t, Unix(now))];
          assert id !in created;
          created := created + [id];
          if baselined {
            events := events + [EventFor(Created, t, agg, now)];
          }
        }
        todo := todo - {id};
      }
    }

    method RemoveDeleted(live: Live, baselined: bool, agg: Aggregates, now: int)
      returns (events: seq<Event>, ghost deleted: seq<string>)
      modifies this`known
      ensures known == map id | id in old(known) && id in live :: old(known)[id]
      ensures Enumerates(deleted, old(known).Keys - live.Keys)
      ensures events == if baselined then DeletedEvents(deleted, old(known), agg, now) else []
    {
      events, deleted := [], [];
      var todo := known.Keys;
      while todo != {}
        invariant todo <= old(known).Keys
        invariant known == map id | id in old(known) && (id in live || id in todo) :: old(known)[id]
        invariant Enumerates(deleted, old(known).Keys - todo - live.Keys)
        invariant forall k | k in deleted :: k in old(known)
        invariant events == if baselined then DeletedEvents(deleted, old(known), agg, now) else []
      {
        var id :| id in todo;
        if id !in live {
          var info := known[id];
          known := known - {id};
          assert id !in deleted;
          deleted := deleted + [id];
          if baselined {
            events := events + [EventFor(Deleted, info.view, agg, now)];
          }
        }
        todo := todo - {id};
      }
    }

    method RefreshKnown(live: Live)
      modifies this`known
      ensures known == map id | id in old(known) ::
                if id in live then RefreshInfo(old(known)[id], live[id]) else old(known)[id]
    {
      var todo := known.Keys;
      while todo != {}
        invariant todo <= old(known).Keys
        invariant known == map id | id in old(known) ::
                    if id in live && id !in todo then RefreshInfo(old(known)[id], live[id]) else old(known)[id]
      {
        var id :| id in todo;
        var info := known[id];
        if id in live && !SameVisible(info.view, live[id]) {
          known := known[id := info.(view := live[id].(id := info.view.id))];
        }
        todo := todo - {id};
      }
    }
  }

  method Detect(snapshot: Snapshot, live: seq<LiveT1>, baselined: bool, agg: Aggregates, now: int)
    returns (events: seq<Event>)
    modifies snapshot
    ensures snapshot.known == KnownAfter(old(snapshot.known), ById(live), now)
    ensures EventsOk(old(snapshot.known), ById(live), baselined, agg, now, events)
    ensures snapshot.updated == now
  {
    ghost var known := snapshot.known;
    var liveById := Index(live);
    var evs1, created := snapshot.AddCreated(liveById, baselined, agg, now);
    ghost var grown := snapshot.known;
    var evs2, deleted := snapshot.RemoveDeleted(liveById, baselined, agg, now);
    ghost var trimmed := snapshot.known;
    snapshot.RefreshKnown(liveById);
    LoopsCompose(known, trimmed, snapshot.known, liveById, now);
    SameDeletions(known, grown, liveById, deleted, agg, now);
    snapshot.updated := now;
    events := evs1 + evs2;
  }

  method Index(live: seq<LiveT1>) returns (liveById: Live)
    ensures liveById == ById(live)
  {
    liveById := map[];
    var i := 0;
    while i < |live|
      invariant 0 <= i <= |live|
      invariant liveById == ById(live[..i])
    {
      assert live[..i + 1][..i] == live[..i];
      liveById := liveById[live[i].id := live[i]];
      i := i + 1;
    }
    assert live[..i] == live;
  }

  lemma LoopsCompose(known: Known, trimmed: Known, final: Known, live: Live, now: int)
    requires trimmed.Keys == live.Keys
    requires forall id | id in live :: trimmed[id] == if id in known then known[id] else T1Info(live[id], Unix(now))
    requires final.Keys == live.Keys && forall id | id in live :: final[id] == RefreshInfo(trimmed[id], live[id])
    ensures final == KnownAfter(known, live, now)
  {
  }

  /** The additions of the first loop do not show in the second. */
  lemma SameDeletions(known: Known, grown: Known, live: Live, deleted: seq<string>, agg: Aggregates, now: int)
    requires Enumerates(deleted, grown.Keys - live.Keys)
    requires known.Keys <= grown.Keys <= known.Keys + live.Keys
    requires forall id | id in known :: grown[id] == known[id]
    ensures Enumerates(deleted, known.Keys - live.Keys)
    ensures DeletedEvents(deleted, grown, agg, now) == DeletedEvents(deleted, known, agg, now)
  {
    assert grown.Keys - live.Keys == known.Keys - live.Keys;
    assert forall k | k in deleted :: k in known && grown[k] == known[k];
    assert forall i | 0 <= i < |deleted| :: deleted[i] in deleted;
  }

  /** The index keys every T1 by its own id and holds exactly the listed ids. */
  lemma {:induction false} ByIdKeys(live: seq<LiveT1>)
    ensures forall id | id in ById(live) :: ById(live)[id].id == id && ById(live)[id] in live
    ensures forall t | t in live :: t.id in ById(live)
  {
    if live != [] {
      var n := |live| - 1;
      ByIdKeys(live[..n]);
      assert live == live[..n] + [live[n]];
    }
  }

  /** What the refresh misses, exactly: the stored view is the live one unless the T1 was known, its
      edge cluster, parent name and own name agree, and the parent's id or kind moved. */
  lemma StaleIff(known: Known, live: Live, now: int, id: string)
    requires id in live && live[id].id == id && (id in known ==> known[id].view.id == id)
    ensures KnownAfter(known, live, now)[id].view != live[id] <==>
            && id in known
            && known[id].view.edgeClusterId == live[id].edgeClusterId
            && known[id].view.edgeClusterName == live[id].edgeClusterName
            && known[id].view.parentT0Name == live[id].parentT0Name && known[id].view.name == live[id].name
            && (known[id].view.parentT0Id != live[id].parentT0Id || known[id].view.parentKind != live[id].parentKind)
  {
  }

  /** What every event says: which T1, and the aggregates under the parent it names; a deletion
      carries the stored view. */
  lemma EventsReport(known: Known, live: Live, agg: Aggregates, now: int, events: seq<Event>, e: Event)
    requires EventsOk(known, live, true, agg, now, events) && e in events
    ensures e.kind == Created ==> exists id :: id in live && id !in known && e.t1 == live[id]
    ensures e.kind == Deleted ==> exists id :: id in known && id !in live && e.t1 == known[id].view
    ensures e.occurredAt == now && e.total == agg.total
    ensures var name := e.t1.parentT0Name;
            var counts := if e.t1.parentKind == "vrf" then agg.vrfCounts else agg.t0Counts;
            && e.countAfter == (if name in counts then counts[name] else 0)
            && e.limit == if e.t1.parentKind == "vrf" then agg.vrfLimit(name) else agg.t0Limit(name)
  {
    var created, deleted :|
      && Enumerates(created, live.Keys - known.Keys)
      && Enumerates(deleted, known.Keys - live.Keys)
      && events == CreatedEvents(created, live, agg, now) + DeletedEvents(deleted, known, agg, now);
    var i :| 0 <= i < |events| && events[i] == e;
    if i < |created| {
      assert created[i] in created;
      assert e == EventFor(Created, live[created[i]], agg, now);
    } else {
      assert deleted[i - |created|] in deleted;
      assert e == EventFor(Deleted, known[deleted[i - |created|]].view, agg, now);
    }
  }

  /** And every creation comes before every deletion. */
  lemma CreationsFirst(known: Known, live: Live, agg: Aggregates, now: int, events: seq<Event>, i: nat, j: nat)
    requires EventsOk(known, live, true, agg, now, events) && i < j < |events|
    ensures events[i].kind == Deleted ==> events[j].kind == Deleted
  {
    var created, deleted :|
      && Enumerates(created, live.Keys - known.Keys)
      && Enumerates(deleted, known.Keys - live.Keys)
      && events == CreatedEvents(created, live, agg, now) + DeletedEvents(deleted, known, agg, now);
    if j < |created| {
      assert created[i] in created;
      assert events[i] == EventFor(Created, live[created[i]], agg, now);
    } else {
      assert deleted[j - |created|] in deleted;
      assert events[j] == EventFor(Deleted, known[deleted[j - |created|]].view, agg, now);
    }
  }

  ghost predicate LastEntryAt(live: seq<LiveT1>, id: string, k: int) {
    0 <= k < |live| && live[k].id == id && forall j | k < j < |live| :: live[j].id != id
  }

  /** Of several entries of one id the last one counts. */
  lemma {:induction false} ByIdIsLast(live: seq<LiveT1>, id: string, t: LiveT1)
    ensures id in ById(live) && ById(live)[id] == t <==> exists k :: LastEntryAt(live, id, k) && live[k] == t
  {
    if live != [] {
      var n := |live| - 1;
      var front := live[..n];
      ByIdIsLast(front, id, t);
      if live[n].id == id {
        assert LastEntryAt(live, id, n);
      } else {
        forall k ensures LastEntryAt(live, id, k) <==> LastEntryAt(front, id, k) {
          if LastEntryAt(front, id, k) {
            forall j | k < j < |live| ensures live[j].id != id { assert j < n ==> front[j] == live[j]; }
          }
        }
      }
    }
  }
}
