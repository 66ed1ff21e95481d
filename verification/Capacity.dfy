/** The aggregation loops of the capacity cycle: T1s per parent T0 or VRF, segments and gateway
    policies per parent, and the composite group keys. */
module Capacity {
  import opened Basics
  import opened T1Detector

  /** What a Tier-0 path resolves to. */
  datatype T0Meta = T0Meta(id: string, name: string, isVrf: bool)

  datatype PolicyT1 = PolicyT1(id: string, uniqueId: string, displayName: string, path: string, tier0Path: string)

  datatype EdgeCluster = EdgeCluster(id: string, name: string)

  // ---- Paths ------------------------------------------------------------------------

  /** The part after the last '/'. */
  function LastSegment(p: string): string {
    if p == "" || p[|p| - 1] == '/' then "" else LastSegment(p[..|p| - 1]) + [p[|p| - 1]]
  }

  method LastPathSegment(p: string) returns (s: string)
    ensures s == LastSegment(p)
  {
    var i := |p| - 1;
    assert p[..i + 1] == p && p[i + 1..] == "";
    while i >= 0
      invariant -1 <= i < |p|
      invariant LastSegment(p) == LastSegment(p[..i + 1]) + p[i + 1..]
    {
      if p[i] == '/' {
        return p[i + 1..];
      }
      assert p[..i + 1][..i] == p[..i];
      assert [p[i]] + p[i + 1..] == p[i..];
      i := i - 1;
    }
    return p;
  }

  /** It is the longest slash-free suffix. */
  lemma {:induction false} LastSegmentIs(p: string) returns (dir: string)
    ensures p == dir + LastSegment(p) && '/' !in LastSegment(p)
    ensures dir == "" || dir[|dir| - 1] == '/'
  {
    if p == "" || p[|p| - 1] == '/' {
      dir := p;
    } else {
      dir := LastSegmentIs(p[..|p| - 1]);
    }
  }

  predicate Contains(s: string, part: string) {
    |part| <= |s| && (s[..|part|] == part || (s != "" && Contains(s[1..], part)))
  }

  /** `part` occurs somewhere in `s`. */
  lemma {:induction false} ContainsIff(s: string, part: string)
    ensures Contains(s, part) <==> exists i :: OccursAt(s, part, i)
  {
    StartsIff(s, part);
    if s != "" {
      ContainsIff(s[1..], part);
      forall i | i > 0 ensures OccursAt(s, part, i) <==> OccursAt(s[1..], part, i - 1) { OccursLater(s, part, i); }
      forall i | OccursAt(s[1..], part, i) ensures OccursAt(s, part, i + 1) { OccursLater(s, part, i + 1); }
    }
  }

  lemma StartsIff(s: string, part: string)
    ensures OccursAt(s, part, 0) <==> |part| <= |s| && s[..|part|] == part
  {
    if |part| <= |s| { assert s[0..0 + |part|] == s[..|part|]; }
  }

  lemma OccursLater(s: string, part: string, i: int)
    requires s != "" && i > 0
    ensures OccursAt(s, part, i) <==> OccursAt(s[1..], part, i - 1)
  {
    if i + |part| <= |s| { assert s[i..i + |part|] == s[1..][i - 1..i - 1 + |part|]; }
  }

  ghost predicate OccursAt(s: string, part: string, i: int) {
    0 <= i && i + |part| <= |s| && s[i..i + |part|] == part
  }

  // ---- T1s per parent -------------------------------------------------------------------

  function ParentOf(t: PolicyT1, t0ByPath: map<string, T0Meta>): T0Meta {
    if t.tier0Path in t0ByPath then t0ByPath[t.tier0Path] else T0Meta("", LastSegment(t.tier0Path), false)
  }

  function EdgeOf(t: PolicyT1, edges: map<string, EdgeCluster>): EdgeCluster {
    if t.uniqueId in edges then edges[t.uniqueId] else EdgeCluster("", "")
  }

  function LiveOf(t: PolicyT1, t0ByPath: map<string, T0Meta>, edges: map<string, EdgeCluster>): LiveT1 {
    var parent := ParentOf(t, t0ByPath);
    var ec := EdgeOf(t, edges);
    LiveT1(t.uniqueId, t.displayName, parent.id, parent.name, if parent.isVrf then "vrf" else "t0", ec.id, ec.name)
  }

  function LiveAll(t1s: seq<PolicyT1>, t0ByPath: map<string, T0Meta>, edges: map<string, EdgeCluster>): seq<LiveT1> {
    seq(|t1s|, i requires 0 <= i < |t1s| => LiveOf(t1s[i], t0ByPath, edges))
  }

  /** How many of the live T1s have this parent kind and name. */
  function CountOf(live: seq<LiveT1>, kind: string, name: string): nat {
    if live == [] then 0
    else
      var t := live[|live| - 1];
      CountOf(live[..|live| - 1], kind, name) + if t.parentKind == kind && t.parentT0Name == name then 1 else 0
  }

  function CountKind(live: seq<LiveT1>, kind: string): nat {
    if live == [] then 0
    else CountKind(live[..|live| - 1], kind) + if live[|live| - 1].parentKind == kind then 1 else 0
  }

  /** `counts` holds the per-name counts of one kind, no zero entries, and adds up to all T1s of
      that kind. */
  ghost predicate CountsKind(live: seq<LiveT1>, kind: string, counts: map<string, int>) {
    && (forall n :: n in counts <==> CountOf(live, kind, n) > 0)
    && (forall n | n in counts :: counts[n] == CountOf(live, kind, n))
    && Sum(counts, counts.Keys) == CountKind(live, kind)
  }

  ghost predicate KindsAre(live: seq<LiveT1>) {
    forall t | t in live :: t.parentKind == "vrf" || t.parentKind == "t0"
  }

  function Plus(m: map<string, int>, key: string, v: int): map<string, int> {
    m[key := (if key in m then m[key] else 0) + v]
  }

  lemma BumpCounts(live: seq<LiveT1>, t: LiveT1, kind: string, counts: map<string, int>)
    requires CountsKind(live, kind, counts)
    ensures CountsKind(live + [t], kind, if t.parentKind == kind then Plus(counts, t.parentT0Name, 1) else counts)
  {
    assert (live + [t])[..|live|] == live;
    if t.parentKind == kind { SumAdds(counts, t.parentT0Name, 1); }
  }

  /** The running totals of the T1 loop for the T1s in `live`. */
  ghost predicate Aggregated(live: seq<LiveT1>, vrfCount: map<string, int>, t0Count: map<string, int>,
                             total: int, onVrf: int, onT0: int) {
    && KindsAre(live)
    && CountsKind(live, "vrf", vrfCount) && CountsKind(live, "t0", t0Count)
    && onVrf == CountKind(live, "vrf") && onT0 == CountKind(live, "t0")
    && total == onVrf + onT0 == |live|
  }

  /** The counts per name that one kind has gathered after the T1s in `live`. */
  function Tally(live: seq<LiveT1>, kind: string): map<string, int> {
    if live == [] then map[]
    else
      var t := live[|live| - 1];
      var counts := Tally(live[..|live| - 1], kind);
      if t.parentKind == kind then Plus(counts, t.parentT0Name, 1) else counts
  }

  lemma TallyOneMore(live: seq<LiveT1>, t: LiveT1, kind: string)
    ensures Tally(live + [t], kind) ==
            if t.parentKind == kind then Plus(Tally(live, kind), t.parentT0Name, 1) else Tally(live, kind)
    ensures CountKind(live + [t], kind) == CountKind(live, kind) + if t.parentKind == kind then 1 else 0
  {
    assert (live + [t])[..|live|] == live;
  }

  lemma {:induction false} TallyCounts(live: seq<LiveT1>, kind: string)
    ensures CountsKind(live, kind, Tally(live, kind))
  {
    if live != [] {
      var n := |live| - 1;
      TallyCounts(live[..n], kind);
      BumpCounts(live[..n], live[n], kind, Tally(live[..n], kind));
      assert live[..n] + [live[n]] == live;
    }
  }

  lemma {:induction false} KindsAddUp(live: seq<LiveT1>)
    requires KindsAre(live)
    ensures CountKind(live, "vrf") + CountKind(live, "t0") == |live|
  {
    if live != [] { KindsAddUp(live[..|live| - 1]); }
  }

  lemma TalliesAggregate(live: seq<LiveT1>)
    requires KindsAre(live)
    ensures Aggregated(live, Tally(live, "vrf"), Tally(live, "t0"),
                       |live|, CountKind(live, "vrf"), CountKind(live, "t0"))
  {
    TallyCounts(live, "vrf");
    TallyCounts(live, "t0");
    KindsAddUp(live);
  }

  /** The counters after one more T1. */
  method Account(t: LiveT1, isVrf: bool, vrfCount0: map<string, int>, t0Count0: map<string, int>,
                 total0: int, onVrf0: int, onT00: int, ghost live: seq<LiveT1>)
    returns (vrfCount: map<string, int>, t0Count: map<string, int>, total: int, onVrf: int, onT0: int)
    requires vrfCount0 == Tally(live, "vrf") && t0Count0 == Tally(live, "t0")
    requires total0 == |live| && onVrf0 == CountKind(live, "vrf") && onT00 == CountKind(live, "t0")
    requires t.parentKind == if isVrf then "vrf" else "t0"
    ensures vrfCount == Tally(live + [t], "vrf") && t0Count == Tally(live + [t], "t0")
    ensures total == |live + [t]| && onVrf == CountKind(live + [t], "vrf") && onT0 == CountKind(live + [t], "t0")
  {
    TallyOneMore(live, t, "vrf");
    TallyOneMore(live, t, "t0");
    vrfCount, t0Count, total, onVrf, onT0 := vrfCount0, t0Count0, total0 + 1, onVrf0, onT00;
    if isVrf {
      onVrf := onVrf + 1;
      vrfCount := Plus(vrfCount, t.parentT0Name, 1);
    } else {
      onT0 := onT0 + 1;
      t0Count := Plus(t0Count, t.parentT0Name, 1);
    }
  }

  lemma AllAre(t1s: seq<PolicyT1>, t0ByPath: map<string, T0Meta>, edges: map<string, EdgeCluster>)
    ensures |LiveAll(t1s, t0ByPath, edges)| == |t1s| && KindsAre(LiveAll(t1s, t0ByPath, edges))
  {
  }

  lemma LiveAllStep(t1s: seq<PolicyT1>, t0ByPath: map<string, T0Meta>, edges: map<string, EdgeCluster>, i: nat)
    requires i < |t1s|
    ensures LiveAll(t1s, t0ByPath, edges)[..i + 1] ==
            LiveAll(t1s, t0ByPath, edges)[..i] + [LiveOf(t1s[i], t0ByPath, edges)]
  {
  }

  /** What the live view of a T1 is made of: its own names, the T0 or VRF its path leads to (or only the
      last segment of a path that leads nowhere), and its edge cluster. */
  lemma LiveViewOf(t1s: seq<PolicyT1>, t0ByPath: map<string, T0Meta>, edges: map<string, EdgeCluster>, i: nat)
    requires i < |t1s|
    ensures |LiveAll(t1s, t0ByPath, edges)| == |t1s|
    ensures var t, v := t1s[i], LiveAll(t1s, t0ByPath, edges)[i];
            && v.id == t.uniqueId && v.name == t.displayName
            && (v.parentKind == "vrf" <==> t.tier0Path in t0ByPath && t0ByPath[t.tier0Path].isVrf)
            && (v.parentKind == "vrf" || v.parentKind == "t0")
            && (t.tier0Path in t0ByPath ==>
                  v.parentT0Id == t0ByPath[t.tier0Path].id && v.parentT0Name == t0ByPath[t.tier0Path].name)
            && (t.tier0Path !in t0ByPath ==> v.parentT0Id == "" && v.parentT0Name == LastSegment(t.tier0Path))
            && (if t.uniqueId in edges
                then v.edgeClusterId == edges[t.uniqueId].id && v.edgeClusterName == edges[t.uniqueId].name
                else v.edgeClusterId == "" && v.edgeClusterName == "")
  {
  }

  /** The T1s (by position) whose path leads to a VRF, and the others. */
  ghost function OnVrf(t1s: seq<PolicyT1>, t0ByPath: map<string, T0Meta>): set<int> {
    set i | 0 <= i < |t1s| && t1s[i].tier0Path in t0ByPath && t0ByPath[t1s[i].tier0Path].isVrf
  }

  ghost function OnT0(t1s: seq<PolicyT1>, t0ByPath: map<string, T0Meta>): set<int> {
    set i | 0 <= i < |t1s| && !(t1s[i].tier0Path in t0ByPath && t0ByPath[t1s[i].tier0Path].isVrf)
  }

  /** The T1s under a parent of this name. */
  ghost function Under(t1s: seq<PolicyT1>, t0ByPath: map<string, T0Meta>, name: string): set<int> {
    set i | 0 <= i < |t1s| &&
            var path := t1s[i].tier0Path;
            name == if path in t0ByPath then t0ByPath[path].name else LastSegment(path)
  }

  function IsKind(kind: string): LiveT1 -> bool {
    (t: LiveT1) => t.parentKind == kind
  }

  function IsUnder(kind: string, name: string): LiveT1 -> bool {
    (t: LiveT1) => t.parentKind == kind && t.parentT0Name == name
  }

  lemma {:induction false} CountKindIsOfKind(live: seq<LiveT1>, kind: string)
    ensures CountKind(live, kind) == |Positions(live, IsKind(kind))|
  {
    if live != [] {
      CountKindIsOfKind(live[..|live| - 1], kind);
      PositionsGrow(live, IsKind(kind));
    }
  }

  lemma {:induction false} CountOfIsOfParent(live: seq<LiveT1>, kind: string, name: string)
    ensures CountOf(live, kind, name) == |Positions(live, IsUnder(kind, name))|
  {
    if live != [] {
      CountOfIsOfParent(live[..|live| - 1], kind, name);
      PositionsGrow(live, IsUnder(kind, name));
    }
  }

  lemma PositionsAre(t1s: seq<PolicyT1>, t0ByPath: map<string, T0Meta>, edges: map<string, EdgeCluster>, name: string)
    ensures var live := LiveAll(t1s, t0ByPath, edges);
            && Positions(live, IsKind("vrf")) == OnVrf(t1s, t0ByPath)
            && Positions(live, IsKind("t0")) == OnT0(t1s, t0ByPath)
            && Positions(live, IsUnder("vrf", name)) == OnVrf(t1s, t0ByPath) * Under(t1s, t0ByPath, name)
            && Positions(live, IsUnder("t0", name)) == OnT0(t1s, t0ByPath) * Under(t1s, t0ByPath, name)
  {
    forall i: nat | i < |t1s|
      ensures var v := LiveAll(t1s, t0ByPath, edges)[i];
              && (v.parentKind == "vrf" <==> i in OnVrf(t1s, t0ByPath))
              && (v.parentKind == "t0" <==> i in OnT0(t1s, t0ByPath))
              && (v.parentT0Name == name <==> i in Under(t1s, t0ByPath, name))
    {
      LiveViewOf(t1s, t0ByPath, edges, i);
    }
    AllAre(t1s, t0ByPath, edges);
  }

  /** `counts` gives, per parent name, how many of the T1s in `here` are under it. */
  ghost predicate CountsPerName(t1s: seq<PolicyT1>, t0ByPath: map<string, T0Meta>, here: set<int>,
                                counts: map<string, int>) {
    && (forall n :: n in counts <==> here * Under(t1s, t0ByPath, n) != {})
    && (forall n | n in counts :: counts[n] == |here * Under(t1s, t0ByPath, n)|)
  }

  lemma KindCountsPerName(live: seq<LiveT1>, kind: string, counts: map<string, int>, t1s: seq<PolicyT1>,
                          t0ByPath: map<string, T0Meta>, here: set<int>)
    requires CountsKind(live, kind, counts)
    requires forall n :: Positions(live, IsUnder(kind, n)) == here * Under(t1s, t0ByPath, n)
    ensures CountsPerName(t1s, t0ByPath, here, counts)
  {
    forall n ensures CountOf(live, kind, n) == |here * Under(t1s, t0ByPath, n)| {
      CountOfIsOfParent(live, kind, n);
    }
  }

  /** In terms of the T1 list itself: how many lead to a VRF, how many do not, and how many of each to a
      parent of a given name. */
  lemma AggregatesCountT1s(t1s: seq<PolicyT1>, t0ByPath: map<string, T0Meta>, edges: map<string, EdgeCluster>,
                           vrfCount: map<string, int>, t0Count: map<string, int>, total: int, onVrf: int, onT0: int)
    requires Aggregated(LiveAll(t1s, t0ByPath, edges), vrfCount, t0Count, total, onVrf, onT0)
    ensures total == |t1s| && onVrf == |OnVrf(t1s, t0ByPath)| && onT0 == |OnT0(t1s, t0ByPath)|
    ensures CountsPerName(t1s, t0ByPath, OnVrf(t1s, t0ByPath), vrfCount)
    ensures CountsPerName(t1s, t0ByPath, OnT0(t1s, t0ByPath), t0Count)
  {
    var live := LiveAll(t1s, t0ByPath, edges);
    AllAre(t1s, t0ByPath, edges);
    CountKindIsOfKind(live, "vrf");
    CountKindIsOfKind(live, "t0");
    PositionsAre(t1s, t0ByPath, edges, "");
    forall n
      ensures Positions(live, IsUnder("vrf", n)) == OnVrf(t1s, t0ByPath) * Under(t1s, t0ByPath, n)
      ensures Positions(live, IsUnder("t0", n)) == OnT0(t1s, t0ByPath) * Under(t1s, t0ByPath, n)
    {
      PositionsAre(t1s, t0ByPath, edges, n);
    }
    KindCountsPerName(live, "vrf", vrfCount, t1s, t0ByPath, OnVrf(t1s, t0ByPath));
    KindCountsPerName(live, "t0", t0Count, t1s, t0ByPath, OnT0(t1s, t0ByPath));
  }

  /** The T1 loop: the live view, the counts per VRF and per T0, and the site totals. */
  method AggregateT1s(t1s: seq<PolicyT1>, t0ByPath: map<string, T0Meta>, edges: map<string, EdgeCluster>)
    returns (live: seq<LiveT1>, vrfCount: map<string, int>, t0Count: map<string, int>,
             total: int, onVrf: int, onT0: int)
    ensures live == LiveAll(t1s, t0ByPath, edges)
    ensures Aggregated(live, vrfCount, t0Count, total, onVrf, onT0)
    ensures total == |t1s| && onVrf == |OnVrf(t1s, t0ByPath)| && onT0 == |OnT0(t1s, t0ByPath)|
    ensures CountsPerName(t1s, t0ByPath, OnVrf(t1s, t0ByPath), vrfCount)
    ensures CountsPerName(t1s, t0ByPath, OnT0(t1s, t0ByPath), t0Count)
  {
    live, vrfCount, t0Count := [], map[], map[];
    total, onVrf, onT0 := 0, 0, 0;
    ghost var all := LiveAll(t1s, t0ByPath, edges);
    AllAre(t1s, t0ByPath, edges);
    var i := 0;
    while i < |t1s|
      invariant 0 <= i <= |t1s|
      invariant live == all[..i]
      invariant vrfCount == Tally(live, "vrf") && t0Count == Tally(live, "t0")
      invariant total == |live| && onVrf == CountKind(live, "vrf") && onT0 == CountKind(live, "t0")
    {
      LiveAllStep(t1s, t0ByPath, edges, i);
      var view, isVrf := ViewOf(t1s[i], t0ByPath, edges);
      vrfCount, t0Count, total, onVrf, onT0 := Account(view, isVrf, vrfCount, t0Count, total, onVrf, onT0, live);
      live := live + [view];
      i := i + 1;
    }
    assert all[..i] == all;
    TalliesAggregate(live);
    AggregatesCountT1s(t1s, t0ByPath, edges, vrfCount, t0Count, total, onVrf, onT0);
  }

  /** The live view of one T1, and whether it counts as attached to a VRF. */
  method ViewOf(t: PolicyT1, t0ByPath: map<string, T0Meta>, edges: map<string, EdgeCluster>)
    returns (view: LiveT1, isVrf: bool)
    ensures view == LiveOf(t, t0ByPath, edges)
    ensures view.parentKind == if isVrf then "vrf" else "t0"
  {
    var parent := ResolveParent(t, t0ByPath);
    var ec := EdgeOf(t, edges);
    isVrf := parent.isVrf;
    view := LiveT1(t.uniqueId, t.displayName, parent.id, parent.name, if isVrf then "vrf" else "t0", ec.id, ec.name);
  }

  method ResolveParent(t: PolicyT1, t0ByPath: map<string, T0Meta>) returns (parent: T0Meta)
    ensures parent == ParentOf(t, t0ByPath)
  {
    if t.tier0Path in t0ByPath {
      parent := t0ByPath[t.tier0Path];
    } else {
      var name := LastPathSegment(t.tier0Path);
      parent := T0Meta("", name, false);
    }
  }

  lemma {:induction false} MemberCounts(live: seq<LiveT1>, t: LiveT1)
    requires t in live
    ensures CountOf(live, t.parentKind, t.parentT0Name) >= 1
  {
    var n := |live| - 1;
    if live[n] != t { MemberCounts(live[..n], t); }
  }

  /** The number in every event is the number of live T1s under the parent it names; under the
      parent of a created T1 there is at least that T1 itself. */
  lemma EventCountsAreLiveCounts(known: Known, live: seq<LiveT1>, agg: Aggregates, now: int, events: seq<Event>,
                                 e: Event)
    requires EventsOk(known, ById(live), true, agg, now, events) && e in events
    requires KindsAre(live) && CountsKind(live, "vrf", agg.vrfCounts) && CountsKind(live, "t0", agg.t0Counts)
    ensures e.countAfter == CountOf(live, if e.t1.parentKind == "vrf" then "vrf" else "t0", e.t1.parentT0Name)
    ensures e.kind == Created ==> e.t1 in live && e.countAfter >= 1
  {
    var created, deleted :|
      && Enumerates(created, ById(live).Keys - known.Keys)
      && Enumerates(deleted, known.Keys - ById(live).Keys)
      && events == CreatedEvents(created, ById(live), agg, now) + DeletedEvents(deleted, known, agg, now);
    ByIdKeys(live);
    var i :| 0 <= i < |events| && events[i] == e;
    if i < |created| {
      assert created[i] in created;
      assert e == EventFor(Created, ById(live)[created[i]], agg, now);
      MemberCounts(live, e.t1);
    } else {
      assert deleted[i - |created|] in deleted;
      assert e == EventFor(Deleted, known[deleted[i - |created|]].view, agg, now);
    }
  }

  // ---- Group keys ------------------------------------------------------------------------

  datatype Parent = Parent(kind: string, name: string, id: string)

  /** kind in {"t1", "vrf", "t0", "overlay", "unknown"}. */
  function Classify(p: string, t0ByPath: map<string, T0Meta>, t1s: seq<PolicyT1>): Parent {
    if p == "" then Parent("overlay", "-", "-")
    else if Contains(p, "/tier-1s/") then FindT1(p, t1s)
    else if Contains(p, "/tier-0s/") then
      if p in t0ByPath then Parent(if t0ByPath[p].isVrf then "vrf" else "t0", t0ByPath[p].name, t0ByPath[p].id)
      else Parent("t0", LastSegment(p), LastSegment(p))
    else Parent("unknown", "-", "-")
  }

  function FindT1(p: string, t1s: seq<PolicyT1>): Parent {
    if t1s == [] then Parent("t1", LastSegment(p), LastSegment(p))
    else if t1s[0].path == p then Parent("t1", t1s[0].displayName, t1s[0].uniqueId)
    else FindT1(p, t1s[1..])
  }

  /** A Tier-1 path stands for the first T1 with exactly that path, or for its own last segment
      when none has it. */
  lemma {:induction false} T1PathIsFirstMatch(p: string, t1s: seq<PolicyT1>)
    ensures forall k | 0 <= k < |t1s| && t1s[k].path == p && (forall j | 0 <= j < k :: t1s[j].path != p) ::
              FindT1(p, t1s) == Parent("t1", t1s[k].displayName, t1s[k].uniqueId)
    ensures (forall k | 0 <= k < |t1s| :: t1s[k].path != p) ==>
            FindT1(p, t1s) == Parent("t1", LastSegment(p), LastSegment(p))
  {
    if t1s != [] && t1s[0].path != p {
      T1PathIsFirstMatch(p, t1s[1..]);
      forall k | 0 <= k < |t1s| && t1s[k].path == p && (forall j | 0 <= j < k :: t1s[j].path != p)
        ensures FindT1(p, t1s) == Parent("t1", t1s[k].displayName, t1s[k].uniqueId)
      {
        var rest := t1s[1..];
        assert k > 0 && rest[k - 1] == t1s[k];
        assert forall j | 0 <= j < k - 1 :: rest[j].path != p;
      }
    }
  }

  function Join(g: Parent): string { g.kind + "|" + g.name + "|" + g.id }

  /** Position of the first '|', or the length. */
  function Pipe(s: string): (k: nat)
    ensures k <= |s| && '|' !in s[..k] && (k < |s| ==> s[k] == '|')
  {
    if s == "" || s[0] == '|' then 0
    else
      assert s == [s[0]] + s[1..];
      1 + Pipe(s[1..])
  }

  /** strings.SplitN on "|": at most `n` parts, the last one unsplit. */
  function SplitN(s: string, n: nat): seq<string>
    decreases n
  {
    if n <= 1 || Pipe(s) == |s| then [s]
    else [s[..Pipe(s)]] + SplitN(s[Pipe(s) + 1..], n - 1)
  }

  lemma {:induction false} PipeAfter(a: string, b: string)
    requires '|' !in a
    ensures Pipe(a + "|" + b) == |a|
  {
    var s := a + "|" + b;
    if a != [] {
      assert a == [a[0]] + a[1..];
      assert a[0] in a && s[0] == a[0];
      PipeAfter(a[1..], b);
      assert s[1..] == a[1..] + "|" + b;
    }
  }

  lemma SplitOff(a: string, b: string, n: nat)
    requires '|' !in a && n >= 2
    ensures SplitN(a + "|" + b, n) == [a] + SplitN(b, n - 1)
  {
    PipeAfter(a, b);
    var s := a + "|" + b;
    assert s[..|a|] == a && s[|a| + 1..] == b;
  }

  predicate PlainKind(g: Parent) { '|' !in g.kind }

  /** What each connectivity path means: which kind, exactly, and whose name and id. */
  lemma ClassifyMeans(p: string, t0ByPath: map<string, T0Meta>, t1s: seq<PolicyT1>)
    ensures var g := Classify(p, t0ByPath, t1s);
            && (g.kind == "overlay" <==> p == "")
            && (g.kind == "t1" <==> Contains(p, "/tier-1s/"))
            && (g.kind == "vrf" || g.kind == "t0" <==> !Contains(p, "/tier-1s/") && Contains(p, "/tier-0s/"))
            && (g.kind == "vrf" ==> p in t0ByPath && t0ByPath[p] == T0Meta(g.id, g.name, true))
            && (g.kind == "t0" ==> if p in t0ByPath then t0ByPath[p] == T0Meta(g.id, g.name, false)
                                   else g.name == g.id == LastSegment(p))
            && (g.kind == "t1" ==> (exists t :: t in t1s && t == PolicyT1(t.id, g.id, g.name, p, t.tier0Path))
                                   || ((forall t | t in t1s :: t.path != p) && g.name == g.id == LastSegment(p)))
            && (g.kind == "overlay" || g.kind == "unknown" ==> g.name == g.id == "-")
  {
    EmptyContainsNothing();
    FindT1Means(p, t1s);
  }

  lemma EmptyContainsNothing()
    ensures !Contains("", "/tier-1s/") && !Contains("", "/tier-0s/")
  {
  }

  lemma {:induction false} FindT1Means(p: string, t1s: seq<PolicyT1>)
    ensures var g := FindT1(p, t1s);
            && g.kind == "t1"
            && ((exists t :: t in t1s && t == PolicyT1(t.id, g.id, g.name, p, t.tier0Path))
                || ((forall t | t in t1s :: t.path != p) && g.name == g.id == LastSegment(p)))
  {
    if t1s != [] {
      var rest := t1s[1..];
      FindT1Means(p, rest);
      assert t1s == [t1s[0]] + rest;
      if t1s[0].path != p {
        var g := FindT1(p, t1s);
        if t :| t in rest && t == PolicyT1(t.id, g.id, g.name, p, t.tier0Path) { assert t in t1s; }
      } else {
        assert t1s[0] in t1s;
      }
    }
  }

  lemma ClassifyKinds(p: string, t0ByPath: map<string, T0Meta>, t1s: seq<PolicyT1>)
    ensures Classify(p, t0ByPath, t1s).kind in {"t1", "vrf", "t0", "overlay", "unknown"}
    ensures PlainKind(Classify(p, t0ByPath, t1s))
  {
    FindT1Kind(p, t1s);
  }

  lemma {:induction false} FindT1Kind(p: string, t1s: seq<PolicyT1>)
    ensures FindT1(p, t1s).kind == "t1"
  {
    if t1s != [] { FindT1Kind(p, t1s[1..]); }
  }

  lemma SplitNameFromId(name: string, id: string)
    ensures |SplitN(name + "|" + id, 2)| == 2
    ensures SplitN(name + "|" + id, 2) == [name, id] <==> '|' !in name
  {
    var rest := name + "|" + id;
    var k := Pipe(rest);
    assert rest[|name|] == '|';
    assert rest[..|rest|] == rest && '|' in rest;
    assert SplitN(rest, 2) == [rest[..k], rest[k + 1..]];
    if '|' !in name { SplitOff(name, id, 2); }
  }

  /** A key always splits into three parts, so no group is ever skipped; and splitting gives back
      the parent exactly when its name has no pipe. The id may contain any number of them. */
  lemma SplitUndoesJoinIff(g: Parent)
    requires PlainKind(g)
    ensures |SplitN(Join(g), 3)| == 3
    ensures SplitN(Join(g), 3) == [g.kind, g.name, g.id] <==> '|' !in g.name
  {
    var rest := g.name + "|" + g.id;
    assert Join(g) == g.kind + "|" + rest;
    SplitOff(g.kind, rest, 3);
    SplitNameFromId(g.name, g.id);
    var two := SplitN(rest, 2);
    assert ([g.kind] + two)[1..] == two;
    assert [g.kind, g.name, g.id][1..] == [g.name, g.id];
    if two == [g.name, g.id] { assert [g.kind] + two == [g.kind, g.name, g.id]; }
  }

  /** Exactly which parents can merge into one group: those of one kind of which one name goes on with
      a pipe where the other one ends. */
  lemma ParentsMergeIff(kind1: string, name1: string, kind2: string, name2: string)
    requires '|' !in kind1 && '|' !in kind2
    ensures (exists id1, id2 :: Parent(kind1, name1, id1) != Parent(kind2, name2, id2)
                                && Join(Parent(kind1, name1, id1)) == Join(Parent(kind2, name2, id2)))
            <==> kind1 == kind2 && Nested('|', name1, name2)
  {
    forall id1, id2
      ensures Join(Parent(kind1, name1, id1)) == Join(Parent(kind2, name2, id2)) <==>
              kind1 == kind2 && Glued(name1, '|', id1) == Glued(name2, '|', id2)
    {
      JoinsAgreeIff(Parent(kind1, name1, id1), Parent(kind2, name2, id2));
    }
    GlueCollidesIff('|', name1, name2);
    if kind1 == kind2 && Nested('|', name1, name2) {
      var id1, id2 :| Glued(name1, '|', id1) == Glued(name2, '|', id2) && (name1 != name2 || id1 != id2);
      assert Parent(kind1, name1, id1) != Parent(kind2, name2, id2);
    }
  }

  lemma JoinsAgreeIff(a: Parent, b: Parent)
    requires PlainKind(a) && PlainKind(b)
    ensures Join(a) == Join(b) <==> a.kind == b.kind && Glued(a.name, '|', a.id) == Glued(b.name, '|', b.id)
  {
    JoinIsGlued(a);
    JoinIsGlued(b);
    if Join(a) == Join(b) {
      SharedMeansNested('|', a.kind, Glued(a.name, '|', a.id), b.kind, Glued(b.name, '|', b.id));
      PlainNotNested(a.kind, b.kind);
      PlainNotNested(b.kind, a.kind);
    }
  }

  lemma JoinIsGlued(g: Parent)
    ensures Join(g) == Glued(g.kind, '|', Glued(g.name, '|', g.id))
  {
    assert g.kind + "|" + g.name + "|" + g.id == g.kind + ['|'] + (g.name + ['|'] + g.id);
  }

  lemma PlainNotNested(a: string, b: string)
    ensures a + ['|'] <= b ==> '|' in b
  {
    if a + ['|'] <= b { assert b[|a|] == '|'; }
  }

  /** So pipe-free names keep different parents in different groups. */
  lemma JoinInjective(a: Parent, b: Parent)
    requires PlainKind(a) && PlainKind(b) && '|' !in a.name && '|' !in b.name
    ensures Join(a) == Join(b) <==> a == b
  {
    SplitUndoesJoinIff(a);
    SplitUndoesJoinIff(b);
  }

  // ---- Group totals ------------------------------------------------------------------------

  /** One contribution to a group: a segment, or a gateway policy in one scope with its rules. */
  datatype Item = Item(parent: Parent, rules: int)

  function Members(items: seq<Item>, key: string): nat {
    if items == [] then 0
    else Members(items[..|items| - 1], key) + if Join(items[|items| - 1].parent) == key then 1 else 0
  }

  function Rules(items: seq<Item>, key: string): int {
    if items == [] then 0
    else
      var last := items[|items| - 1];
      Rules(items[..|items| - 1], key) + if Join(last.parent) == key then last.rules else 0
  }

  function AllRules(items: seq<Item>): int {
    if items == [] then 0 else AllRules(items[..|items| - 1]) + items[|items| - 1].rules
  }

  /** `counts` holds the number of items of each key that has any, and loses none. */
  ghost predicate Counted(items: seq<Item>, counts: map<string, int>) {
    && (forall k :: k in counts <==> Members(items, k) > 0)
    && (forall k | k in counts :: counts[k] == Members(items, k))
    && Sum(counts, counts.Keys) == |items|
  }

  /** `counts` and `rules` group the items by key and lose nothing. */
  ghost predicate Groups(items: seq<Item>, counts: map<string, int>, rules: map<string, int>) {
    && Counted(items, counts)
    && counts.Keys == rules.Keys
    && (forall k | k in rules :: rules[k] == Rules(items, k))
    && Sum(rules, rules.Keys) == AllRules(items)
  }

  lemma {:induction false} NoMembersNoRules(items: seq<Item>, key: string)
    requires Members(items, key) == 0
    ensures Rules(items, key) == 0
  {
    if items != [] { NoMembersNoRules(items[..|items| - 1], key); }
  }

  lemma CountedGrows(items: seq<Item>, counts: map<string, int>, it: Item)
    requires Counted(items, counts)
    ensures Counted(items + [it], Plus(counts, Join(it.parent), 1))
  {
    assert (items + [it])[..|items|] == items;
    SumAdds(counts, Join(it.parent), 1);
  }

  lemma GroupsGrow(items: seq<Item>, counts: map<string, int>, rules: map<string, int>, it: Item)
    requires Groups(items, counts, rules)
    ensures Groups(items + [it], Plus(counts, Join(it.parent), 1), Plus(rules, Join(it.parent), it.rules))
  {
    var key := Join(it.parent);
    CountedGrows(items, counts, it);
    assert (items + [it])[..|items|] == items;
    SumAdds(rules, key, it.rules);
    if key !in counts { NoMembersNoRules(items, key); }
  }

  function SegmentItems(paths: seq<string>, t0ByPath: map<string, T0Meta>, t1s: seq<PolicyT1>): seq<Item> {
    seq(|paths|, i requires 0 <= i < |paths| => Item(Classify(paths[i], t0ByPath, t1s), 0))
  }

  lemma OneMoreSegment(paths: seq<string>, i: nat, t0ByPath: map<string, T0Meta>, t1s: seq<PolicyT1>,
                       counts: map<string, int>)
    requires i < |paths| && Counted(SegmentItems(paths[..i], t0ByPath, t1s), counts)
    ensures Counted(SegmentItems(paths[..i + 1], t0ByPath, t1s),
                    Plus(counts, Join(Classify(paths[i], t0ByPath, t1s)), 1))
  {
    var it := Item(Classify(paths[i], t0ByPath, t1s), 0);
    CountedGrows(SegmentItems(paths[..i], t0ByPath, t1s), counts, it);
    assert SegmentItems(paths[..i + 1], t0ByPath, t1s) == SegmentItems(paths[..i], t0ByPath, t1s) + [it];
  }

  /** Segments per parent, keyed by the joined name. */
  method GroupSegments(paths: seq<string>, t0ByPath: map<string, T0Meta>, t1s: seq<PolicyT1>)
    returns (perParent: map<string, int>)
    ensures Counted(SegmentItems(paths, t0ByPath, t1s), perParent)
  {
    perParent := map[];
    var i := 0;
    while i < |paths|
      invariant 0 <= i <= |paths|
      invariant Counted(SegmentItems(paths[..i], t0ByPath, t1s), perParent)
    {
      OneMoreSegment(paths, i, t0ByPath, t1s, perParent);
      perParent := Plus(perParent, Join(Classify(paths[i], t0ByPath, t1s)), 1);
      i := i + 1;
    }
    assert paths[..i] == paths;
  }

  datatype Policy = Policy(ruleCount: int, scopes: seq<string>)

  /** The scopes of one policy that name a gateway. */
  function ScopeItems(rules: int, scopes: seq<string>, t0ByPath: map<string, T0Meta>, t1s: seq<PolicyT1>): seq<Item> {
    if scopes == [] then []
    else
      var parent := Classify(scopes[|scopes| - 1], t0ByPath, t1s);
      ScopeItems(rules, scopes[..|scopes| - 1], t0ByPath, t1s) +
      if parent.kind == "overlay" || parent.kind == "unknown" then [] else [Item(parent, rules)]
  }

  /** All qualifying (policy, scope) pairs, in order. */
  function PolicyItems(policies: seq<Policy>, t0ByPath: map<string, T0Meta>, t1s: seq<PolicyT1>): seq<Item> {
    if policies == [] then []
    else
      var last := policies[|policies| - 1];
      PolicyItems(policies[..|policies| - 1], t0ByPath, t1s) + ScopeItems(last.ruleCount, last.scopes, t0ByPath, t1s)
  }

  /** What one more scope contributes. */
  lemma OneMoreScope(before: seq<Item>, p: Policy, j: nat, t0ByPath: map<string, T0Meta>, t1s: seq<PolicyT1>,
                     count: map<string, int>, rules: map<string, int>)
    requires j < |p.scopes| && Groups(before + ScopeItems(p.ruleCount, p.scopes[..j], t0ByPath, t1s), count, rules)
    ensures var parent := Classify(p.scopes[j], t0ByPath, t1s);
            var all := before + ScopeItems(p.ruleCount, p.scopes[..j + 1], t0ByPath, t1s);
            if parent.kind == "overlay" || parent.kind == "unknown" then Groups(all, count, rules)
            else Groups(all, Plus(count, Join(parent), 1), Plus(rules, Join(parent), p.ruleCount))
  {
    var parent := Classify(p.scopes[j], t0ByPath, t1s);
    var items := ScopeItems(p.ruleCount, p.scopes[..j], t0ByPath, t1s);
    ScopeItemsStep(p.ruleCount, p.scopes, j, t0ByPath, t1s);
    if parent.kind != "overlay" && parent.kind != "unknown" {
      GroupsGrowBehind(before, items, count, rules, Item(parent, p.ruleCount));
    }
  }

  lemma GroupsGrowBehind(before: seq<Item>, items: seq<Item>, count: map<string, int>, rules: map<string, int>,
                         item: Item)
    requires Groups(before + items, count, rules)
    ensures var key := Join(item.parent);
            Groups(before + (items + [item]), Plus(count, key, 1), Plus(rules, key, item.rules))
  {
    GroupsGrow(before + items, count, rules, item);
    assert before + (items + [item]) == before + items + [item];
  }

  lemma ScopeItemsStep(rules: int, scopes: seq<string>, j: nat, t0ByPath: map<string, T0Meta>, t1s: seq<PolicyT1>)
    requires j < |scopes|
    ensures var parent := Classify(scopes[j], t0ByPath, t1s);
            var items := ScopeItems(rules, scopes[..j], t0ByPath, t1s);
            ScopeItems(rules, scopes[..j + 1], t0ByPath, t1s) ==
            if parent.kind == "overlay" || parent.kind == "unknown" then items else items + [Item(parent, rules)]
  {
    assert scopes[..j + 1][..j] == scopes[..j];
  }

  /** The inner loop: the scopes of one policy. */
  method GroupScopes(p: Policy, t0ByPath: map<string, T0Meta>, t1s: seq<PolicyT1>,
                     count0: map<string, int>, rules0: map<string, int>, ghost before: seq<Item>)
    returns (count: map<string, int>, rules: map<string, int>)
    requires Groups(before, count0, rules0)
    ensures Groups(before + ScopeItems(p.ruleCount, p.scopes, t0ByPath, t1s), count, rules)
  {
    count, rules := count0, rules0;
    assert before + [] == before;
    var j := 0;
    while j < |p.scopes|
      invariant 0 <= j <= |p.scopes|
      invariant Groups(before + ScopeItems(p.ruleCount, p.scopes[..j], t0ByPath, t1s), count, rules)
    {
      var parent := Classify(p.scopes[j], t0ByPath, t1s);
      OneMoreScope(before, p, j, t0ByPath, t1s, count, rules);
      if parent.kind != "overlay" && parent.kind != "unknown" {
        var key := Join(parent);
        count, rules := Plus(count, key, 1), Plus(rules, key, p.ruleCount);
      }
      j := j + 1;
    }
    assert p.scopes[..j] == p.scopes;
  }

  /** Gateway policies and their rules per gateway. */
  method GroupPolicies(policies: seq<Policy>, t0ByPath: map<string, T0Meta>, t1s: seq<PolicyT1>)
    returns (count: map<string, int>, rules: map<string, int>)
    ensures Groups(PolicyItems(policies, t0ByPath, t1s), count, rules)
  {
    count, rules := map[], map[];
    var i := 0;
    while i < |policies|
      invariant 0 <= i <= |policies|
      invariant Groups(PolicyItems(policies[..i], t0ByPath, t1s), count, rules)
    {
      assert policies[..i + 1][..i] == policies[..i];
      count, rules := GroupScopes(policies[i], t0ByPath, t1s, count, rules, PolicyItems(policies[..i], t0ByPath, t1s));
      i := i + 1;
    }
    assert policies[..i] == policies;
  }

  /** With pipe-free names a group's count is the number of items of exactly one parent, and the
      key it is emitted under reads back as that parent. */
  lemma GroupIsOneParent(items: seq<Item>, counts: map<string, int>, g: Parent)
    requires Counted(items, counts) && PlainKind(g) && '|' !in g.name
    requires forall it | it in items :: PlainKind(it.parent) && '|' !in it.parent.name
    ensures Join(g) in counts <==> ParentCount(items, g) > 0
    ensures Join(g) in counts ==>
            counts[Join(g)] == ParentCount(items, g) && SplitN(Join(g), 3) == [g.kind, g.name, g.id]
  {
    MembersOfOne(items, g);
    SplitUndoesJoinIff(g);
  }

  /** And so are its rules. */
  lemma GroupRulesAreOneParents(items: seq<Item>, counts: map<string, int>, rules: map<string, int>, g: Parent)
    requires Groups(items, counts, rules) && PlainKind(g) && '|' !in g.name
    requires forall it | it in items :: PlainKind(it.parent) && '|' !in it.parent.name
    ensures Join(g) in rules <==> ParentCount(items, g) > 0
    ensures Join(g) in rules ==> rules[Join(g)] == ParentRules(items, g)
  {
    MembersOfOne(items, g);
  }

  function ParentCount(items: seq<Item>, g: Parent): nat {
    if items == [] then 0
    else ParentCount(items[..|items| - 1], g) + if items[|items| - 1].parent == g then 1 else 0
  }

  function ParentRules(items: seq<Item>, g: Parent): int {
    if items == [] then 0
    else
      var last := items[|items| - 1];
      ParentRules(items[..|items| - 1], g) + if last.parent == g then last.rules else 0
  }

  lemma {:induction false} MembersOfOne(items: seq<Item>, g: Parent)
    requires PlainKind(g) && '|' !in g.name
    requires forall it | it in items :: PlainKind(it.parent) && '|' !in it.parent.name
    ensures Members(items, Join(g)) == ParentCount(items, g)
    ensures Rules(items, Join(g)) == ParentRules(items, g)
  {
    if items != [] {
      var last := items[|items| - 1];
      assert last in items;
      MembersOfOne(items[..|items| - 1], g);
      JoinInjective(last.parent, g);
    }
  }

  // ---- Emission ---------------------------------------------------------------------------------

  datatype Point = Point(kind: string, name: string, id: string, count: int)

  function TotalOf(points: seq<Point>): int {
    if points == [] then 0 else TotalOf(points[..|points| - 1]) + points[|points| - 1].count
  }

  /** Every key is the join of some parent with a plain kind. */
  ghost predicate JoinedKeys(keys: set<string>) {
    forall k | k in keys :: exists g :: PlainKind(g) && Join(g) == k
  }

  lemma {:induction false} GroupKeysAreJoined(items: seq<Item>, key: string)
    requires Members(items, key) > 0 && forall it | it in items :: PlainKind(it.parent)
    ensures exists g :: PlainKind(g) && Join(g) == key
  {
    var last := items[|items| - 1];
    assert last in items;
    if Join(last.parent) != key { GroupKeysAreJoined(items[..|items| - 1], key); }
  }

  ghost predicate HasGroup(points: seq<Point>, key: string, count: int) {
    var parts := SplitN(key, 3);
    |parts| == 3 && Point(parts[0], parts[1], parts[2], count) in points
  }

  /** All keys but those in `todo` have their point, and the points carry the total. */
  ghost predicate GroupsEmitted(points: seq<Point>, counts: map<string, int>, todo: set<string>) {
    && todo <= counts.Keys
    && |points| == |counts.Keys| - |todo|
    && TotalOf(points) + Sum(counts, todo) == Sum(counts, counts.Keys)
    && forall k | k in counts && k !in todo :: HasGroup(points, k, counts[k])
  }

  lemma GroupsEmittedOneMore(points: seq<Point>, counts: map<string, int>, todo: set<string>, key: string, p: Point)
    requires GroupsEmitted(points, counts, todo) && key in todo
    requires HasGroup([p], key, counts[key]) && p.count == counts[key]
    ensures GroupsEmitted(points + [p], counts, todo - {key})
  {
    SumSplits(counts, todo, key);
    assert (points + [p])[..|points|] == points;
    forall k | k in counts && k !in todo - {key} ensures HasGroup(points + [p], k, counts[k]) {}
  }

  lemma JoinedKeySplits(key: string)
    requires exists g :: PlainKind(g) && Join(g) == key
    ensures |SplitN(key, 3)| == 3
  {
    var g :| PlainKind(g) && Join(g) == key;
    SplitUndoesJoinIff(g);
  }

  /** The emission loop: one point per key, labelled with the parts of the key. The guard that
      skips keys without three parts never fires, so the points carry the whole total. */
  method EmitGroups(counts: map<string, int>) returns (points: seq<Point>)
    requires JoinedKeys(counts.Keys)
    ensures |points| == |counts| && TotalOf(points) == Sum(counts, counts.Keys)
    ensures forall k | k in counts :: HasGroup(points, k, counts[k])
  {
    points := [];
    var todo := counts.Keys;
    while todo != {}
      invariant GroupsEmitted(points, counts, todo)
    {
      var key :| key in todo;
      var parts := SplitN(key, 3);
      JoinedKeySplits(key);
      if |parts| == 3 {
        var p := Point(parts[0], parts[1], parts[2], counts[key]);
        GroupsEmittedOneMore(points, counts, todo, key, p);
        points := points + [p];
      }
      todo := todo - {key};
    }
  }

  /** Segments per parent, end to end: one point per parent key, with the number of segments of
      that key, and the counts add up to the number of segments. */
  method SegmentPoints(paths: seq<string>, t0ByPath: map<string, T0Meta>, t1s: seq<PolicyT1>)
    returns (points: seq<Point>)
    ensures TotalOf(points) == |paths|
    ensures var items := SegmentItems(paths, t0ByPath, t1s);
            forall k | Members(items, k) > 0 :: HasGroup(points, k, Members(items, k))
  {
    var perParent := GroupSegments(paths, t0ByPath, t1s);
    SegmentKeysAreJoined(paths, t0ByPath, t1s, perParent);
    points := EmitGroups(perParent);
  }

  lemma SegmentKeysAreJoined(paths: seq<string>, t0ByPath: map<string, T0Meta>, t1s: seq<PolicyT1>,
                             counts: map<string, int>)
    requires Counted(SegmentItems(paths, t0ByPath, t1s), counts)
    ensures JoinedKeys(counts.Keys)
  {
    var items := SegmentItems(paths, t0ByPath, t1s);
    forall it | it in items ensures PlainKind(it.parent) {
      var i :| 0 <= i < |items| && items[i] == it;
      ClassifyKinds(paths[i], t0ByPath, t1s);
    }
    CountedKeysAreJoined(items, counts);
  }

  lemma CountedKeysAreJoined(items: seq<Item>, counts: map<string, int>)
    requires Counted(items, counts) && forall it | it in items :: PlainKind(it.parent)
    ensures JoinedKeys(counts.Keys)
  {
    forall k | k in counts ensures exists g :: PlainKind(g) && Join(g) == k {
      GroupKeysAreJoined(items, k);
    }
  }

  datatype GatewayPoint = GatewayPoint(kind: string, name: string, id: string, rules: int, policies: int)

  function PolicyTotal(points: seq<GatewayPoint>): int {
    if points == [] then 0 else PolicyTotal(points[..|points| - 1]) + points[|points| - 1].policies
  }

  function RuleTotal(points: seq<GatewayPoint>): int {
    if points == [] then 0 else RuleTotal(points[..|points| - 1]) + points[|points| - 1].rules
  }

  lemma TotalsOneMore(points: seq<GatewayPoint>, p: GatewayPoint)
    ensures PolicyTotal(points + [p]) == PolicyTotal(points) + p.policies
    ensures RuleTotal(points + [p]) == RuleTotal(points) + p.rules
  {
    assert (points + [p])[..|points|] == points;
  }

  /** The point of one key is there, labelled with the parts of the key. */
  ghost predicate HasPoint(points: seq<GatewayPoint>, key: string, policies: int, rules: int) {
    var parts := SplitN(key, 3);
    |parts| == 3 && GatewayPoint(parts[0], parts[1], parts[2], rules, policies) in points
  }

  /** All keys but those in `todo` have their point, and the points carry their totals. */
  ghost predicate Emitted(points: seq<GatewayPoint>, counts: map<string, int>, rules: map<string, int>,
                          todo: set<string>) {
    && todo <= counts.Keys == rules.Keys
    && |points| == |counts.Keys| - |todo|
    && PolicyTotal(points) + Sum(counts, todo) == Sum(counts, counts.Keys)
    && RuleTotal(points) + Sum(rules, todo) == Sum(rules, rules.Keys)
    && forall k | k in counts && k !in todo :: HasPoint(points, k, counts[k], rules[k])
  }

  lemma EmittedOneMore(points: seq<GatewayPoint>, counts: map<string, int>, rules: map<string, int>, todo: set<string>,
                       key: string, p: GatewayPoint)
    requires Emitted(points, counts, rules, todo) && key in todo
    requires HasPoint([p], key, counts[key], rules[key]) && p.policies == counts[key] && p.rules == rules[key]
    ensures Emitted(points + [p], counts, rules, todo - {key})
  {
    SumSplits(counts, todo, key);
    SumSplits(rules, todo, key);
    TotalsOneMore(points, p);
    forall k | k in counts && k !in todo - {key} ensures HasPoint(points + [p], k, counts[k], rules[k]) {}
  }

  /** The emission loop of the gateway policies. */
  method EmitGateways(counts: map<string, int>, rules: map<string, int>) returns (points: seq<GatewayPoint>)
    requires counts.Keys == rules.Keys && JoinedKeys(counts.Keys)
    ensures |points| == |counts|
    ensures PolicyTotal(points) == Sum(counts, counts.Keys) && RuleTotal(points) == Sum(rules, rules.Keys)
    ensures forall k | k in counts :: HasPoint(points, k, counts[k], rules[k])
  {
    points := [];
    var todo := counts.Keys;
    while todo != {}
      invariant Emitted(points, counts, rules, todo)
    {
      var key :| key in todo;
      var parts := SplitN(key, 3);
      JoinedKeySplits(key);
      if |parts| == 3 {
        var p := GatewayPoint(parts[0], parts[1], parts[2], rules[key], counts[key]);
        EmittedOneMore(points, counts, rules, todo, key, p);
        points := points + [p];
      }
      todo := todo - {key};
    }
  }

  /** Gateway policies, end to end: one point per gateway key with its policies and rules, and no
      policy or rule of a qualifying (policy, scope) pair is lost on the way. */
  method PolicyPoints(policies: seq<Policy>, t0ByPath: map<string, T0Meta>, t1s: seq<PolicyT1>)
    returns (points: seq<GatewayPoint>)
    ensures var items := PolicyItems(policies, t0ByPath, t1s);
            && PolicyTotal(points) == |items| == PairTotal(policies)
            && RuleTotal(points) == AllRules(items) == WeightedTotal(policies)
            && forall k | Members(items, k) > 0 :: HasPoint(points, k, Members(items, k), Rules(items, k))
  {
    var counts, rules := GroupPolicies(policies, t0ByPath, t1s);
    PolicyKinds(policies, t0ByPath, t1s);
    CountedKeysAreJoined(PolicyItems(policies, t0ByPath, t1s), counts);
    points := EmitGateways(counts, rules);
    PoliciesCounted(policies, t0ByPath, t1s);
  }

  lemma {:induction false} PolicyKinds(policies: seq<Policy>, t0ByPath: map<string, T0Meta>, t1s: seq<PolicyT1>)
    ensures forall it | it in PolicyItems(policies, t0ByPath, t1s) :: PlainKind(it.parent)
  {
    if policies != [] {
      var last := policies[|policies| - 1];
      PolicyKinds(policies[..|policies| - 1], t0ByPath, t1s);
      ScopeKinds(last.ruleCount, last.scopes, t0ByPath, t1s);
    }
  }

  lemma {:induction false} ScopeKinds(rules: int, scopes: seq<string>, t0ByPath: map<string, T0Meta>,
                                      t1s: seq<PolicyT1>)
    ensures forall it | it in ScopeItems(rules, scopes, t0ByPath, t1s) :: PlainKind(it.parent)
  {
    if scopes != [] {
      ScopeKinds(rules, scopes[..|scopes| - 1], t0ByPath, t1s);
      ClassifyKinds(scopes[|scopes| - 1], t0ByPath, t1s);
    }
  }

  // ---- What is counted, in terms of the paths ------------------------------------------------

  /** The paths that stand for the parent with this key. */
  function StandsFor(t0ByPath: map<string, T0Meta>, t1s: seq<PolicyT1>, key: string): string -> bool {
    (p: string) => Join(Classify(p, t0ByPath, t1s)) == key
  }

  lemma ItemTotalsOneMore(items: seq<Item>, it: Item, key: string)
    ensures AllRules(items + [it]) == AllRules(items) + it.rules
    ensures Members(items + [it], key) == Members(items, key) + if Join(it.parent) == key then 1 else 0
    ensures Rules(items + [it], key) == Rules(items, key) + if Join(it.parent) == key then it.rules else 0
  {
    assert (items + [it])[..|items|] == items;
  }

  lemma SegmentItemsLast(paths: seq<string>, t0ByPath: map<string, T0Meta>, t1s: seq<PolicyT1>)
    requires paths != []
    ensures var n := |paths| - 1;
            SegmentItems(paths, t0ByPath, t1s) ==
            SegmentItems(paths[..n], t0ByPath, t1s) + [Item(Classify(paths[n], t0ByPath, t1s), 0)]
  {
  }

  /** Each segment is counted once, under the parent its path stands for. */
  lemma {:induction false} SegmentsCounted(paths: seq<string>, t0ByPath: map<string, T0Meta>, t1s: seq<PolicyT1>,
                                           key: string)
    ensures Members(SegmentItems(paths, t0ByPath, t1s), key) == |Positions(paths, StandsFor(t0ByPath, t1s, key))|
  {
    if paths != [] {
      var n := |paths| - 1;
      SegmentsCounted(paths[..n], t0ByPath, t1s, key);
      PositionsGrow(paths, StandsFor(t0ByPath, t1s, key));
      SegmentItemsLast(paths, t0ByPath, t1s);
      ItemTotalsOneMore(SegmentItems(paths[..n], t0ByPath, t1s), Item(Classify(paths[n], t0ByPath, t1s), 0), key);
    }
  }

  /** A scope that names a gateway. */
  predicate NamesGateway(scope: string) {
    Contains(scope, "/tier-1s/") || Contains(scope, "/tier-0s/")
  }

  function NamesOne(): string -> bool {
    (scope: string) => NamesGateway(scope)
  }

  /** The scopes that name the gateway with this key. */
  function Names(t0ByPath: map<string, T0Meta>, t1s: seq<PolicyT1>, key: string): string -> bool {
    (scope: string) => NamesGateway(scope) && Join(Classify(scope, t0ByPath, t1s)) == key
  }

  lemma ScopeCountsIff(scope: string, t0ByPath: map<string, T0Meta>, t1s: seq<PolicyT1>)
    ensures var kind := Classify(scope, t0ByPath, t1s).kind;
            kind == "overlay" || kind == "unknown" <==> !NamesGateway(scope)
  {
    ClassifyMeans(scope, t0ByPath, t1s);
    ClassifyKinds(scope, t0ByPath, t1s);
    EmptyContainsNothing();
  }

  lemma OneMoreTime(k: int, rules: int)
    ensures (k + 1) * rules == k * rules + rules
  {
  }

  /** One policy counts once, with all its rules, for each of its scopes that names a gateway. */
  lemma {:induction false} ScopesCounted(rules: int, scopes: seq<string>, t0ByPath: map<string, T0Meta>,
                                         t1s: seq<PolicyT1>)
    ensures var items := ScopeItems(rules, scopes, t0ByPath, t1s);
            |items| == |Positions(scopes, NamesOne())| && AllRules(items) == |Positions(scopes, NamesOne())| * rules
  {
    if scopes != [] {
      var n := |scopes| - 1;
      ScopesCounted(rules, scopes[..n], t0ByPath, t1s);
      PositionsGrow(scopes, NamesOne());
      ScopeItemsLast(rules, scopes, t0ByPath, t1s);
      OneMoreTime(|Positions(scopes[..n], NamesOne())|, rules);
      var last := Item(Classify(scopes[n], t0ByPath, t1s), rules);
      ItemTotalsOneMore(ScopeItems(rules, scopes[..n], t0ByPath, t1s), last, "");
    }
  }

  /** And under the gateway that each of them stands for. */
  lemma {:induction false} ScopesCountedPerGateway(rules: int, scopes: seq<string>, t0ByPath: map<string, T0Meta>,
                                                   t1s: seq<PolicyT1>, key: string)
    ensures var items := ScopeItems(rules, scopes, t0ByPath, t1s);
            var k := |Positions(scopes, Names(t0ByPath, t1s, key))|;
            Members(items, key) == k && Rules(items, key) == k * rules
  {
    if scopes != [] {
      var n := |scopes| - 1;
      ScopesCountedPerGateway(rules, scopes[..n], t0ByPath, t1s, key);
      PositionsGrow(scopes, Names(t0ByPath, t1s, key));
      ScopeItemsLast(rules, scopes, t0ByPath, t1s);
      OneMoreTime(|Positions(scopes[..n], Names(t0ByPath, t1s, key))|, rules);
      var last := Item(Classify(scopes[n], t0ByPath, t1s), rules);
      ItemTotalsOneMore(ScopeItems(rules, scopes[..n], t0ByPath, t1s), last, key);
    }
  }

  lemma ScopeItemsLast(rules: int, scopes: seq<string>, t0ByPath: map<string, T0Meta>, t1s: seq<PolicyT1>)
    requires scopes != []
    ensures var n := |scopes| - 1;
            var items := ScopeItems(rules, scopes[..n], t0ByPath, t1s);
            ScopeItems(rules, scopes, t0ByPath, t1s) ==
            if NamesGateway(scopes[n]) then items + [Item(Classify(scopes[n], t0ByPath, t1s), rules)] else items
  {
    var n := |scopes| - 1;
    ScopeCountsIff(scopes[n], t0ByPath, t1s);
    ScopeItemsStep(rules, scopes, n, t0ByPath, t1s);
    assert scopes[..n + 1] == scopes;
  }

  /** What all policies add up to. */
  ghost function PairTotal(policies: seq<Policy>): int {
    if policies == [] then 0
    else PairTotal(policies[..|policies| - 1]) + |Positions(policies[|policies| - 1].scopes, NamesOne())|
  }

  ghost function WeightedTotal(policies: seq<Policy>): int {
    if policies == [] then 0
    else
      var last := policies[|policies| - 1];
      WeightedTotal(policies[..|policies| - 1]) + |Positions(last.scopes, NamesOne())| * last.ruleCount
  }

  lemma {:induction false} PoliciesCounted(policies: seq<Policy>, t0ByPath: map<string, T0Meta>, t1s: seq<PolicyT1>)
    ensures |PolicyItems(policies, t0ByPath, t1s)| == PairTotal(policies)
    ensures AllRules(PolicyItems(policies, t0ByPath, t1s)) == WeightedTotal(policies)
  {
    if policies != [] {
      var n := |policies| - 1;
      PoliciesCounted(policies[..n], t0ByPath, t1s);
      ScopesCounted(policies[n].ruleCount, policies[n].scopes, t0ByPath, t1s);
      AllRulesConcat(PolicyItems(policies[..n], t0ByPath, t1s),
                     ScopeItems(policies[n].ruleCount, policies[n].scopes, t0ByPath, t1s));
    }
  }

  lemma {:induction false} AllRulesConcat(a: seq<Item>, b: seq<Item>)
    ensures AllRules(a + b) == AllRules(a) + AllRules(b)
  {
    if b == [] {
      assert a + b == a;
    } else {
      var n := |b| - 1;
      AllRulesConcat(a, b[..n]);
      assert (a + b)[..|a| + n] == a + b[..n];
    }
  }

  /** The point of a parent whose name has no pipe carries the parent's own kind, name and id. */
  lemma PointNamesParent(points: seq<Point>, g: Parent, count: int)
    requires HasGroup(points, Join(g), count) && PlainKind(g) && '|' !in g.name
    ensures exists p :: p in points && p.kind == g.kind && p.name == g.name && p.id == g.id && p.count == count
  {
    SplitUndoesJoinIff(g);
  }

  lemma GatewayPointNamesParent(points: seq<GatewayPoint>, g: Parent, policies: int, rules: int)
    requires HasPoint(points, Join(g), policies, rules) && PlainKind(g) && '|' !in g.name
    ensures exists p :: p in points && p.kind == g.kind && p.name == g.name && p.id == g.id
                        && p.policies == policies && p.rules == rules
  {
    SplitUndoesJoinIff(g);
  }
}
