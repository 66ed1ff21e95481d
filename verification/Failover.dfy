/** Change detection of one cluster in one HA cycle: diff the ACTIVE nodes just seen against the
    in-memory baseline, roll the baseline forward, and apply the majority rule. */
module Failover {
  import opened Basics
  import opened Nsx
  import opened Consensus

  datatype Event = Event(from: string, to: string, names: seq<string>, changed: nat, observed: nat)

  /** The baseline node of `t`; "" when there is none (Go's zero value). */
  function Baseline(prev: Actives, t: string): string {
    if t in prev then prev[t] else ""
  }

  /** T1s with a baseline that are now ACTIVE on a different node. */
  function Changed(prev: Actives, seen: Actives): set<string> {
    set t | t in seen && Baseline(prev, t) != "" && seen[t] != "" && seen[t] != Baseline(prev, t)
  }

  /** The baseline for the next cycle: only T1s seen now, a gap ("") keeping the old value. */
  function NextBaseline(prev: Actives, seen: Actives): Actives {
    map t | t in seen && (seen[t] != "" || t in prev) :: if seen[t] != "" then seen[t] else prev[t]
  }

  function Threshold(observed: nat): nat {
    if observed < 3 then 1 else (observed + 1) / 2
  }

  /** Display name of the first watchlist entry with this id, or the id itself. */
  function NameOf(observed: seq<Observed>, id: string): string {
    if observed == [] then id
    else if observed[0].id == id then observed[0].name
    else NameOf(observed[1..], id)
  }

  function NamesOf(observed: seq<Observed>, ids: seq<string>): seq<string> {
    seq(|ids|, i requires 0 <= i < |ids| => NameOf(observed, ids[i]))
  }

  /** `e` reports exactly the changed T1s: each once, by name, sorted, with both totals, and a
      (from, to) pair taken from one of them. Go's map order decides which one. */
  ghost predicate Describes(prev: Actives, seen: Actives, observed: seq<Observed>, e: Event) {
    && e.changed == |Changed(prev, seen)|
    && e.observed == |seen|
    && SortedBy(e.names, (n: string) => n)
    && (exists order :: Distinct(order) && Elements(order) == Changed(prev, seen)
                        && multiset(e.names) == multiset(NamesOf(observed, order)))
    && (exists t :: t in Changed(prev, seen) && e.from == prev[t] && e.to == seen[t])
  }

  /** At least half of the seen T1s changed. */
  ghost predicate MajorityChanged(prev: Actives, seen: Actives) {
    seen != map[] && 2 * |Changed(prev, seen)| >= |seen|
  }

  ghost predicate EventOk(prev: Actives, seen: Actives, observed: seq<Observed>, event: Option<Event>) {
    && (event.Some? <==> MajorityChanged(prev, seen))
    && (event.Some? ==> Describes(prev, seen, observed, event.value))
  }

  /** The special case for fewer than three T1s never alters the threshold: it is always
      the ceiling of half the T1s seen. */
  lemma ThresholdIsCeilingOfHalf(observed: nat, changed: nat)
    requires observed > 0
    ensures changed >= Threshold(observed) <==> 2 * changed >= observed
    ensures Threshold(observed) == (observed + 1) / 2
  {
    if observed >= 3 { assert 2 * ((observed + 1) / 2) >= observed; }
  }

  /** That is: the name of the first entry with the id, or the id itself when there is none. */
  lemma {:induction false} NameIsThatOfFirst(observed: seq<Observed>, id: string)
    ensures (forall o | o in observed :: o.id != id) ==> NameOf(observed, id) == id
    ensures forall k | 0 <= k < |observed| && observed[k].id == id && (forall j | 0 <= j < k :: observed[j].id != id) ::
              NameOf(observed, id) == observed[k].name
  {
    if observed != [] && observed[0].id != id {
      var rest := observed[1..];
      NameIsThatOfFirst(rest, id);
      forall k | 0 <= k < |observed| && observed[k].id == id && (forall j | 0 <= j < k :: observed[j].id != id)
        ensures NameOf(observed, id) == observed[k].name
      {
        assert rest[k - 1] == observed[k];
        assert forall j | 0 <= j < k - 1 :: rest[j] == observed[j + 1];
      }
    }
  }

  method FindName(observed: seq<Observed>, id: string) returns (name: string)
    ensures name == NameOf(observed, id)
  {
    name := id;
    var i := 0;
    while i < |observed|
      invariant 0 <= i <= |observed|
      invariant name == id
      invariant NameOf(observed, id) == NameOf(observed[i..], id)
    {
      if observed[i].id == id {
        name := observed[i].name;
        return;
      }
      i := i + 1;
    }
  }

  /** The first loop: walk the seen T1s in map order and note the changed ones. */
  method CollectChanged(prev: Actives, seen: Actives, observed: seq<Observed>)
    returns (changed: seq<string>, from: string, to: string, ghost order: seq<string>)
    ensures Distinct(order) && Elements(order) == Changed(prev, seen)
    ensures changed == NamesOf(observed, order)
    ensures Changed(prev, seen) != {} ==> exists t :: t in Changed(prev, seen) && from == prev[t] && to == seen[t]
  {
    changed, from, to, order := [], "", "", [];
    var todo := seen.Keys;
    while todo != {}
      invariant todo <= seen.Keys
      invariant Distinct(order)
      invariant forall t :: t in order <==> t in Changed(prev, seen) && t !in todo
      invariant changed == NamesOf(observed, order)
      invariant order != [] ==> exists t :: t in Changed(prev, seen) && from == prev[t] && to == seen[t]
    {
      var t :| t in todo;
      var currTN := seen[t];
      var oldTN := if t in prev then prev[t] else "";
      if oldTN != "" && oldTN != currTN && currTN != "" {
        var name := FindName(observed, t);
        changed := changed + [name];
        order := order + [t];
        from, to := oldTN, currTN;
      }
      todo := todo - {t};
    }
  }

  /** The second loop: the baseline for the next cycle. */
  method RollBaseline(prev: Actives, seen: Actives) returns (newPrev: Actives)
    ensures newPrev == NextBaseline(prev, seen)
  {
    newPrev := map[];
    var todo := seen.Keys;
    while todo != {}
      invariant todo <= seen.Keys
      invariant newPrev == map t | t in NextBaseline(prev, seen) && t !in todo :: NextBaseline(prev, seen)[t]
    {
      var t :| t in todo;
      if seen[t] == "" {
        if t in prev { newPrev := newPrev[t := prev[t]]; }
      } else {
        newPrev := newPrev[t := seen[t]];
      }
      todo := todo - {t};
    }
  }

  method DiffCluster(prev: Actives, seen: Actives, observed: seq<Observed>)
    returns (event: Option<Event>, newPrev: Actives)
    ensures newPrev == NextBaseline(prev, seen)
    ensures EventOk(prev, seen, observed, event)
  {
    var changed, fromActive, toActive, order := CollectChanged(prev, seen, observed);
    newPrev := RollBaseline(prev, seen);
    DistinctCardinality(order);
    var n := |seen|;
    var threshold := (n + 1) / 2;
    if n < 3 { threshold := 1; }
    event := None;
    if n > 0 { ThresholdIsCeilingOfHalf(n, |changed|); }
    if |changed| >= threshold && n > 0 {
      SortSorts(changed, (x: string) => x);
      var names := Sort(changed, (x: string) => x);
      event := Some(Event(fromActive, toActive, names, |changed|, n));
    }
  }

  // ---- What an event means ------------------------------------------------

  /** The nodes of an event are real and different. */
  lemma EventNodes(prev: Actives, seen: Actives, observed: seq<Observed>, e: Event)
    requires Describes(prev, seen, observed, e)
    ensures e.from != "" && e.to != "" && e.from != e.to
    ensures 0 < e.changed <= e.observed && |e.names| == e.changed
    ensures e.observed == |seen| && e.changed == |Changed(prev, seen)|
    ensures forall i, j | 0 <= i < j < |e.names| :: !Less(e.names[j], e.names[i])
    ensures forall n :: n in e.names <==> exists t :: t in Changed(prev, seen) && NameOf(observed, t) == n
  {
    var t :| t in Changed(prev, seen) && e.from == prev[t] && e.to == seen[t];
    var order :| Distinct(order) && Elements(order) == Changed(prev, seen)
                 && multiset(e.names) == multiset(NamesOf(observed, order));
    DistinctCardinality(order);
    assert |multiset(e.names)| == |multiset(NamesOf(observed, order))|;
    assert |e.names| == |order|;
    SubsetCardinality(Changed(prev, seen), seen.Keys);
    if Changed(prev, seen) == {} { assert false; }
    NamesAreOfChanged(observed, order, e.names);
    assert forall t :: t in order <==> t in Changed(prev, seen);
  }

  lemma NamesAreOfChanged(observed: seq<Observed>, order: seq<string>, names: seq<string>)
    requires multiset(names) == multiset(NamesOf(observed, order))
    ensures forall n :: n in names <==> exists t :: t in order && NameOf(observed, t) == n
  {
    var plain := NamesOf(observed, order);
    forall n ensures n in names <==> n in plain {
      assert n in names <==> n in multiset(names);
      assert n in plain <==> n in multiset(plain);
    }
    forall t | t in order ensures NameOf(observed, t) in plain {
      var i :| 0 <= i < |order| && order[i] == t;
      assert plain[i] == NameOf(observed, t);
    }
    forall n | n in plain ensures exists t :: t in order && NameOf(observed, t) == n {
      var i :| 0 <= i < |plain| && plain[i] == n;
      assert order[i] in order && NameOf(observed, order[i]) == n;
    }
  }

  /** A whole-cluster move is never missed: if every seen T1 had baseline `a` and the new
      consensus is another node held by at least half of them, an event fires and it
      names `a` as the node that lost them. */
  lemma ConsensusMoveFires(prev: Actives, seen: Actives, observed: seq<Observed>, event: Option<Event>,
                           counts: map<string, int>, a: string, b: string, cnt: int)
    requires EventOk(prev, seen, observed, event)
    requires seen != map[] && a != "" && forall t | t in seen :: t in prev && prev[t] == a
    requires IsTally(seen, counts) && IsMode(counts, b, cnt)
    requires b != a && 2 * cnt >= |seen|
    ensures event.Some? && event.value.from == a && event.value.changed >= cnt
  {
    ConsensusWithinObserved(seen, counts, b, cnt);
    assert b != "" by { if t :| t in seen { SubsetCardinality({t}, seen.Keys); } }
    assert Votes(seen, b) <= Changed(prev, seen);
    SubsetCardinality(Votes(seen, b), Changed(prev, seen));
  }

  /** The exact converse over a common baseline: an event fires if and only if at least half
      of the seen T1s report an ACTIVE node other than `a`. */
  lemma CommonBaselineFiresIff(prev: Actives, seen: Actives, observed: seq<Observed>, event: Option<Event>, a: string)
    requires EventOk(prev, seen, observed, event)
    requires seen != map[] && a != "" && forall t | t in seen :: t in prev && prev[t] == a
    ensures event.Some? <==> 2 * (|Voters(seen)| - |Votes(seen, a)|) >= |seen|
  {
    assert Votes(seen, a) <= Voters(seen);
    assert Changed(prev, seen) == Voters(seen) - Votes(seen, a);
  }

  lemma {:induction false} Enumerate(s: set<string>) returns (order: seq<string>)
    ensures Distinct(order) && Elements(order) == s
  {
    order := [];
    if s != {} {
      var x :| x in s;
      var rest := Enumerate(s - {x});
      order := rest + [x];
      assert Elements(order) == Elements(rest) + {x};
    }
  }

  /** Which changed T1 lends its nodes to the event is left to the map order: any of them can. */
  lemma AnyChangedMayNameTheEvent(prev: Actives, seen: Actives, observed: seq<Observed>, t: string) returns (e: Event)
    requires MajorityChanged(prev, seen) && t in Changed(prev, seen)
    ensures EventOk(prev, seen, observed, Some(e)) && e.from == prev[t] && e.to == seen[t]
  {
    var order := Enumerate(Changed(prev, seen));
    SortSorts(NamesOf(observed, order), (x: string) => x);
    e := Event(prev[t], seen[t], Sort(NamesOf(observed, order), (x: string) => x), |Changed(prev, seen)|, |seen|);
  }

  /** The target, exactly: every event this cycle can emit names `b`, say the consensus node, if and
      only if all changed T1s moved to `b`. */
  lemma TargetAlwaysIff(prev: Actives, seen: Actives, observed: seq<Observed>, b: string)
    requires MajorityChanged(prev, seen)
    ensures (forall e :: EventOk(prev, seen, observed, Some(e)) ==> e.to == b) <==>
            (forall t | t in Changed(prev, seen) :: seen[t] == b)
  {
    forall t | t in Changed(prev, seen) && seen[t] != b
      ensures exists e :: EventOk(prev, seen, observed, Some(e)) && e.to != b
    {
      var e := AnyChangedMayNameTheEvent(prev, seen, observed, t);
    }
  }

  /** Over a common baseline `a`: if and only if every ACTIVE node reported is `a` or `b`. */
  lemma CommonBaselineTargetIff(prev: Actives, seen: Actives, observed: seq<Observed>, a: string, b: string)
    requires MajorityChanged(prev, seen)
    requires a != "" && b != "" && a != b && forall t | t in seen :: t in prev && prev[t] == a
    ensures (forall e :: EventOk(prev, seen, observed, Some(e)) ==> e.to == b) <==>
            |Voters(seen)| == |Votes(seen, a)| + |Votes(seen, b)|
  {
    TargetAlwaysIff(prev, seen, observed, b);
    var ab := Votes(seen, a) + Votes(seen, b);
    assert Votes(seen, a) !! Votes(seen, b);
    assert ab <= Voters(seen);
    SubsetCardinality(ab, Voters(seen));
    assert Changed(prev, seen) == Voters(seen) - Votes(seen, a);
    assert |Voters(seen)| == |ab| <==> Voters(seen) == ab;
    if forall t | t in Changed(prev, seen) :: seen[t] == b {
      assert Changed(prev, seen) <= Votes(seen, b);
      assert Voters(seen) == ab;
    }
  }

  /** So the target of an event need not be the new consensus node: two of three T1s move to
      B, one to C, and an event from A to C is a possible outcome. */
  lemma TargetMayMissConsensus() returns (prev: Actives, seen: Actives, counts: map<string, int>, e: Event)
    ensures EventOk(prev, seen, [], Some(e))
    ensures IsTally(seen, counts) && IsMode(counts, "B", 2)
    ensures e.from == "A" && e.to == "C"
  {
    prev := map["1" := "A", "2" := "A", "3" := "A"];
    seen := map["1" := "B", "2" := "B", "3" := "C"];
    counts := map["B" := 2, "C" := 1];
    AllThreeMoved(prev, seen);
    e := AnyChangedMayNameTheEvent(prev, seen, [], "3");
    TwoToOne(seen, counts);
  }

  lemma AllThreeMoved(prev: Actives, seen: Actives)
    requires prev == map["1" := "A", "2" := "A", "3" := "A"] && seen == map["1" := "B", "2" := "B", "3" := "C"]
    ensures MajorityChanged(prev, seen) && "3" in Changed(prev, seen)
  {
    assert Changed(prev, seen) == {"1", "2", "3"};
    assert seen.Keys == {"1", "2", "3"};
  }

  lemma TwoToOne(seen: Actives, counts: map<string, int>)
    requires seen == map["1" := "B", "2" := "B", "3" := "C"] && counts == map["B" := 2, "C" := 1]
    ensures IsTally(seen, counts) && IsMode(counts, "B", 2)
  {
    assert Votes(seen, "B") == {"1", "2"};
    assert Votes(seen, "C") == {"3"};
    forall n | n != "B" && n != "C" ensures n == "" || Votes(seen, n) == {} {}
    assert counts["B"] > 0 && Less("B", "C");
  }

  /** No baseline, no event: the first cycle after a start only baselines. */
  lemma FirstCycleSilent(seen: Actives, observed: seq<Observed>, event: Option<Event>)
    requires EventOk(map[], seen, observed, event)
    ensures event.None?
  {
    assert Changed(map[], seen) == {};
    if seen != map[] { var t :| t in seen; SubsetCardinality({t}, seen.Keys); }
  }

  /** T1s without history never count, so a cycle in which every baselined T1 keeps its node
      (or shows none) emits nothing. */
  lemma StableNodesSilent(prev: Actives, seen: Actives, observed: seq<Observed>, event: Option<Event>)
    requires EventOk(prev, seen, observed, event)
    requires forall t | t in seen && t in prev && prev[t] != "" :: seen[t] in {"", prev[t]}
    ensures event.None?
  {
    assert Changed(prev, seen) == {};
    if seen != map[] { var t :| t in seen; SubsetCardinality({t}, seen.Keys); }
  }

  /** Seeing the same thing again emits nothing and leaves the baseline where it is. */
  lemma RepeatIsSilent(prev: Actives, seen: Actives, observed: seq<Observed>, event: Option<Event>)
    requires EventOk(NextBaseline(prev, seen), seen, observed, event)
    ensures event.None?
    ensures NextBaseline(NextBaseline(prev, seen), seen) == NextBaseline(prev, seen)
  {
    StableNodesSilent(NextBaseline(prev, seen), seen, observed, event);
  }

  // ---- The baseline as a function of the observation history ----------------

  /** The baseline after the (non-empty) observations `h` of a cluster, oldest first. */
  function Replay(h: seq<Actives>): Actives {
    if h == [] then map[] else NextBaseline(Replay(h[..|h| - 1]), h[|h| - 1])
  }

  /** Observation `j` is the last one showing `t` ACTIVE anywhere, it showed `n`, and `t` was
      present in every observation since. */
  ghost predicate LastActiveAt(h: seq<Actives>, t: string, n: string, j: int) {
    && 0 <= j < |h|
    && n != "" && t in h[j] && h[j][t] == n
    && forall k | j < k < |h| :: t in h[k] && h[k][t] == ""
  }

  /** The baseline map refines the history: it holds `n` for `t` exactly when `n` is the last
      ACTIVE node of `t` within the longest run of latest observations that all contain `t`. */
  lemma {:induction false} BaselineIsHistory(h: seq<Actives>, t: string, n: string)
    ensures t in Replay(h) && Replay(h)[t] == n <==> exists j :: LastActiveAt(h, t, n, j)
  {
    if h != [] {
      var m := |h| - 1;
      var g := h[..m];
      BaselineIsHistory(g, t, n);
      LastActiveGrows(g, h[m], t, n);
      assert g + [h[m]] == h;
    }
  }

  lemma LastActiveGrows(g: seq<Actives>, seen: Actives, t: string, n: string)
    ensures (exists j :: LastActiveAt(g + [seen], t, n, j)) <==>
            t in seen && if seen[t] != "" then seen[t] == n else exists j :: LastActiveAt(g, t, n, j)
  {
    var h, m := g + [seen], |g|;
    if j :| LastActiveAt(h, t, n, j) {
      assert h[m] == seen;
      if j < m {
        assert forall k | j < k < m :: g[k] == h[k];
        assert LastActiveAt(g, t, n, j);
      }
    }
    if t in seen && seen[t] == n != "" { assert LastActiveAt(h, t, n, m); }
    if j :| t in seen && seen[t] == "" && LastActiveAt(g, t, n, j) { assert LastActiveAt(h, t, n, j); }
  }

  lemma {:induction false} BaselineNonEmpty(h: seq<Actives>)
    ensures forall t | t in Replay(h) :: Replay(h)[t] != ""
  {
    if h != [] { BaselineNonEmpty(h[..|h| - 1]); }
  }

  /** A T1 counts as changed exactly when it now shows a node other than its last ACTIVE one in
      that history: "no ACTIVE" gaps do not hide a move, a missed fetch re-baselines. */
  lemma ChangedIffHistoryDiffers(h: seq<Actives>, seen: Actives, t: string)
    requires t in seen
    ensures t in Changed(Replay(h), seen) <==>
            exists n, j :: LastActiveAt(h, t, n, j) && seen[t] != "" && seen[t] != n
  {
    BaselineNonEmpty(h);
    if t in Replay(h) {
      BaselineIsHistory(h, t, Replay(h)[t]);
    }
    if n, j :| LastActiveAt(h, t, n, j) && seen[t] != "" && seen[t] != n {
      BaselineIsHistory(h, t, n);
    }
  }

  // ---- The documented rule ------------------------------------------------------------

  /** What the documentation asks for: at least half of all `n` observed T1s changed, whether or not
      their status requests succeeded. */
  ghost predicate DocumentedMajority(prev: Actives, seen: Actives, n: nat) {
    2 * |Changed(prev, seen)| >= n
  }

  lemma {:induction false} SubsetOfSize(s: set<string>, k: nat) returns (part: set<string>)
    requires k <= |s|
    ensures part <= s && |part| == k
    decreases s
  {
    part := s;
    if k < |s| {
      var x :| x in s;
      part := SubsetOfSize(s - {x}, k);
    }
  }

  /** Any set of T1s with an ACTIVE node can be the changed ones. */
  lemma BaselineFor(seen: Actives, part: set<string>) returns (prev: Actives)
    requires part <= Voters(seen)
    ensures Changed(prev, seen) == part
  {
    prev := map t | t in part :: seen[t] + "'";
  }

  /** A failed status request lowers the bar: among `n` observed T1s the code and the documented rule
      agree for every baseline if and only if no number of changes lies between half of the T1s that
      answered and half of those observed. */
  lemma DocumentedRuleHoldsIff(seen: Actives, n: nat)
    requires |seen| <= n && n > 0
    ensures (forall prev :: MajorityChanged(prev, seen) <==> DocumentedMajority(prev, seen, n)) <==>
            seen == map[] || |Voters(seen)| < (|seen| + 1) / 2 || 2 * ((|seen| + 1) / 2) >= n
  {
    var k := (|seen| + 1) / 2;
    if seen != map[] && k <= |Voters(seen)| && 2 * k < n {
      var part := SubsetOfSize(Voters(seen), k);
      var prev := BaselineFor(seen, part);
      assert MajorityChanged(prev, seen) && !DocumentedMajority(prev, seen, n);
    } else {
      forall prev ensures MajorityChanged(prev, seen) <==> DocumentedMajority(prev, seen, n) {
        SubsetCardinality(Changed(prev, seen), Voters(seen));
        SubsetCardinality(Voters(seen), seen.Keys);
      }
    }
  }

  /** For instance, when all requests but one fail, that one T1 decides alone. */
  lemma OneAnswerDecides(t: string, old_: string, node: string, observed: seq<Observed>) returns (e: Event)
    requires old_ != "" && node != "" && node != old_
    ensures EventOk(map[t := old_], map[t := node], observed, Some(e)) && e.changed == e.observed == 1
  {
    assert Changed(map[t := old_], map[t := node]) == {t};
    e := AnyChangedMayNameTheEvent(map[t := old_], map[t := node], observed, t);
  }
}
