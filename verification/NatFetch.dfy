/** The per-T1 NAT fetch: requests launched one by one with a pause between them, run in parallel
    up to a configured width, and answers appended to one shared list. */
module NatFetch {
  import opened Basics
  import opened Capacity
  import opened Goroutines

  /** The configured width, or four when it is not positive. */
  function Width(parallel: int): nat {
    if parallel <= 0 then 4 else parallel
  }

  /** Rule count per position in the T1 list; no entry means the request fails. */
  type Counts = map<nat, int>

  datatype NatResult = NatResult(id: string, name: string, tier0Path: string, count: int)

  function ResultAt(t1s: seq<PolicyT1>, r: Counts, i: nat): NatResult
    requires i < |t1s| && i in r
  {
    NatResult(t1s[i].id, t1s[i].displayName, t1s[i].tier0Path, r[i])
  }

  /** The configuration and inputs of one call. */
  datatype Call = Call(t1s: seq<PolicyT1>, paced: bool, width: nat, counts: Counts)

  /** `phase` has an entry per launched goroutine; `order` lists the positions whose result has
      been appended, in that order; `out` is the shared list itself. */
  datatype State = State(
    phase: map<nat, Phase>, launched: nat, cancelled: bool, slots: nat,
    order: seq<nat>, out: seq<NatResult>)

  const INIT: State := State(map[], 0, false, 0, [], [])

  datatype Label = Launch | Cancel | Acquire(i: nat) | Answer(i: nat) | Record(i: nat) | Release(i: nat)

  /** Cancellation is noticed only in a pause, so never before the first launch. */
  ghost predicate Step(c: Call, s: State, l: Label, s': State) {
    match l
    case Launch =>
      && !s.cancelled && s.launched < |c.t1s|
      && s' == s.(phase := s.phase[s.launched := Waiting], launched := s.launched + 1)
    case Cancel =>
      !s.cancelled && c.paced && 0 < s.launched < |c.t1s| && s' == s.(cancelled := true)
    case Acquire(i) =>
      && i in At(s.phase, Waiting) && s.slots < c.width
      && s' == s.(phase := s.phase[i := Requesting], slots := s.slots + 1)
    case Answer(i) =>
      i in At(s.phase, Requesting) && s' == s.(phase := s.phase[i := Answered])
    case Record(i) =>
      && i in At(s.phase, Answered) && i < |c.t1s|
      && s' == if i in c.counts
               then s.(phase := s.phase[i := Recorded], order := s.order + [i],
                       out := s.out + [ResultAt(c.t1s, c.counts, i)])
               else s.(phase := s.phase[i := Recorded])
    case Release(i) =>
      && i in At(s.phase, Recorded) && s.slots > 0
      && s' == s.(phase := s.phase[i := Returned], slots := s.slots - 1)
  }

  ghost predicate Next(c: Call, s: State, s': State) {
    exists l :: Step(c, s, l, s')
  }

  ghost predicate IsRun(c: Call, run: seq<State>) {
    var n := |run| - 1;
    run != [] &&
    if n == 0 then run[0] == INIT
    else IsRun(c, run[..n]) && Next(c, run[n - 1], run[n])
  }

  /** The launching loop is over and every goroutine it launched has returned. */
  ghost predicate Finished(c: Call, s: State) {
    && (s.cancelled || s.launched == |c.t1s|)
    && forall i | i in s.phase :: s.phase[i] == Returned
  }

  // ---- The invariant ------------------------------------------------------------------

  ghost predicate LaunchOk(c: Call, s: State) {
    && s.launched <= |c.t1s|
    && (forall i: nat :: i in s.phase <==> i < s.launched)
    && (s.cancelled ==> c.paced && 0 < s.launched < |c.t1s|)
  }

  ghost predicate SlotsOk(c: Call, s: State) {
    s.slots == |Holding(s.phase)| <= c.width
  }

  /** `order` lists exactly the recorded goroutines whose request succeeded, each once. */
  ghost predicate OrderOk(c: Call, s: State) {
    && Distinct(s.order)
    && forall i: nat :: i in s.order <==> i in Done(s.phase) && i in c.counts
  }

  /** `out` holds the results of the positions in `order`, in that order. */
  ghost predicate Lists(t1s: seq<PolicyT1>, r: Counts, order: seq<nat>, out: seq<NatResult>) {
    && |out| == |order|
    && forall k | 0 <= k < |order| ::
         order[k] < |t1s| && order[k] in r && out[k] == ResultAt(t1s, r, order[k])
  }

  ghost predicate Inv(c: Call, s: State) {
    LaunchOk(c, s) && SlotsOk(c, s) && OrderOk(c, s) && Lists(c.t1s, c.counts, s.order, s.out)
  }

  lemma StepKeepsSlots(c: Call, s: State, l: Label, s': State)
    requires LaunchOk(c, s) && SlotsOk(c, s) && Step(c, s, l, s')
    ensures SlotsOk(c, s')
  {
    match l
    case Launch => HoldingAfter(s.phase, s.launched, Waiting);
    case Cancel =>
    case Acquire(i) => HoldingAfter(s.phase, i, Requesting);
    case Answer(i) => HoldingAfter(s.phase, i, Answered);
    case Record(i) => HoldingAfter(s.phase, i, Recorded);
    case Release(i) => HoldingAfter(s.phase, i, Returned);
  }

  lemma StepKeepsOrder(c: Call, s: State, l: Label, s': State)
    requires LaunchOk(c, s) && OrderOk(c, s) && Step(c, s, l, s')
    ensures OrderOk(c, s')
  {
    match l
    case Record(i) =>
      assert i !in Done(s.phase) && i !in s.order;
      forall j: nat ensures j in Done(s'.phase) <==> j in Done(s.phase) || j == i {}
    case _ =>
      forall j: nat ensures j in Done(s'.phase) <==> j in Done(s.phase) {}
  }

  lemma StepKeepsInv(c: Call, s: State, l: Label, s': State)
    requires Inv(c, s) && Step(c, s, l, s')
    ensures Inv(c, s')
  {
    StepKeepsSlots(c, s, l, s');
    StepKeepsOrder(c, s, l, s');
  }

  lemma {:induction false} RunKeepsInv(c: Call, run: seq<State>)
    requires IsRun(c, run)
    ensures Inv(c, Last(run))
  {
    var n := |run| - 1;
    if n == 0 {
      assert Holding(INIT.phase) == {};
    } else {
      RunKeepsInv(c, run[..n]);
      var l :| Step(c, run[n - 1], l, run[n]);
      StepKeepsInv(c, run[n - 1], l, run[n]);
    }
  }

  // ---- Results -----------------------------------------------------------------------

  /** In every state of every interleaving at most `width` NAT requests are in flight. */
  lemma InFlightWithinWidth(c: Call, run: seq<State>)
    requires IsRun(c, run)
    ensures |At(Last(run).phase, Requesting)| <= c.width
  {
    RunKeepsInv(c, run);
    SubsetCardinality(At(Last(run).phase, Requesting), Holding(Last(run).phase));
  }

  /** The multiset of results of the successful requests among the first `n` T1s. */
  function Expected(t1s: seq<PolicyT1>, r: Counts, n: nat): multiset<NatResult>
    requires n <= |t1s|
  {
    if n == 0 then multiset{}
    else if n - 1 in r then Expected(t1s, r, n - 1) + multiset{ResultAt(t1s, r, n - 1)}
    else Expected(t1s, r, n - 1)
  }

  ghost predicate Covers(order: seq<nat>, r: Counts, n: nat) {
    Distinct(order) && forall i: nat :: i in order <==> i < n && i in r
  }

  /** In whatever order the answers were appended, they are together the expected ones. */
  lemma {:induction false} OrderDoesNotMatter(t1s: seq<PolicyT1>, r: Counts, n: nat, order: seq<nat>,
                                              out: seq<NatResult>)
    requires n <= |t1s| && Covers(order, r, n) && Lists(t1s, r, order, out)
    ensures multiset(out) == Expected(t1s, r, n)
    decreases n
  {
    if n == 0 {
      NothingListed(order, r);
    } else if n - 1 in r {
      var rest, others := OneFewer(t1s, r, n, order, out);
      OrderDoesNotMatter(t1s, r, n - 1, rest, others);
    } else {
      OrderDoesNotMatter(t1s, r, n - 1, order, out);
    }
  }

  lemma NothingListed(order: seq<nat>, r: Counts)
    requires Covers(order, r, 0)
    ensures order == []
  {
    assert Elements(order) == {};
    DistinctCardinality(order);
  }

  lemma OneFewer(t1s: seq<PolicyT1>, r: Counts, n: nat, order: seq<nat>, out: seq<NatResult>)
    returns (rest: seq<nat>, others: seq<NatResult>)
    requires 0 < n <= |t1s| && n - 1 in r && Covers(order, r, n) && Lists(t1s, r, order, out)
    ensures Covers(rest, r, n - 1) && Lists(t1s, r, rest, others)
    ensures multiset(out) == multiset(others) + multiset{ResultAt(t1s, r, n - 1)}
  {
    var k :| 0 <= k < |order| && order[k] == n - 1;
    rest, others := order[..k] + order[k + 1..], out[..k] + out[k + 1..];
    Without(order, r, n, k);
    ListsWithout(t1s, r, order, out, k);
  }

  lemma ListsWithout(t1s: seq<PolicyT1>, r: Counts, order: seq<nat>, out: seq<NatResult>, k: nat)
    requires Lists(t1s, r, order, out) && k < |order|
    ensures Lists(t1s, r, order[..k] + order[k + 1..], out[..k] + out[k + 1..])
    ensures order[k] < |t1s| && order[k] in r
    ensures multiset(out) == multiset(out[..k] + out[k + 1..]) + multiset{ResultAt(t1s, r, order[k])}
  {
    assert out == out[..k] + [out[k]] + out[k + 1..];
  }

  lemma Without(order: seq<nat>, r: Counts, n: nat, k: nat)
    requires n > 0 && Covers(order, r, n) && k < |order| && order[k] == n - 1
    ensures Covers(order[..k] + order[k + 1..], r, n - 1)
  {
    var rest := order[..k] + order[k + 1..];
    forall i: nat ensures i in rest <==> i < n - 1 && i in r {
      if i in order && i != n - 1 {
        var j :| 0 <= j < |order| && order[j] == i;
        assert rest[if j < k then j else j - 1] == i;
      }
      if i in rest {
        var j :| 0 <= j < |rest| && rest[j] == i;
        assert order[if j < k then j else j + 1] == i;
      }
    }
  }

  /** When the call returns, the list holds one result per launched T1 whose request succeeded and
      no other, in some order; all T1s were launched unless a pause was cancelled, and then at
      least the first one was. */
  lemma FinalResults(c: Call, run: seq<State>)
    requires IsRun(c, run) && Finished(c, Last(run))
    ensures var s := Last(run);
            && s.launched <= |c.t1s|
            && multiset(s.out) == Expected(c.t1s, c.counts, s.launched)
            && (if s.cancelled then c.paced && 0 < s.launched < |c.t1s| else s.launched == |c.t1s|)
  {
    RunKeepsInv(c, run);
    var s := Last(run);
    OrderDoesNotMatter(c.t1s, c.counts, s.launched, s.order, s.out);
  }

  /** Each result is that of a launched T1: its policy id, name and path, and its rule count; there
      are as many as launched T1s whose request succeeded, and each of those has one. */
  lemma ResultsAreOfT1s(c: Call, run: seq<State>, i: nat)
    requires IsRun(c, run) && Finished(c, Last(run))
    ensures var s := Last(run);
            && s.launched <= |c.t1s| && |s.out| == |set j: nat | j < s.launched && j in c.counts|
            && (i < |s.out| ==> exists j: nat :: j < s.launched <= |c.t1s| && j in c.counts
                                  && s.out[i].id == c.t1s[j].id && s.out[i].name == c.t1s[j].displayName
                                  && s.out[i].tier0Path == c.t1s[j].tier0Path && s.out[i].count == c.counts[j])
            && (i < s.launched && i in c.counts ==>
                  NatResult(c.t1s[i].id, c.t1s[i].displayName, c.t1s[i].tier0Path, c.counts[i]) in s.out)
  {
    RunKeepsInv(c, run);
    var s := Last(run);
    DistinctCardinality(s.order);
    assert Elements(s.order) == set j: nat | j < s.launched && j in c.counts;
    if i < |s.out| { assert s.order[i] in s.order; }
    if i < s.launched && i in c.counts {
      assert i in s.order;
      var k :| 0 <= k < |s.order| && s.order[k] == i;
      assert s.out[k] in s.out;
    }
  }

  /** The width is the configured one, or four: a waiting goroutine can go ahead exactly while fewer
      than that hold a slot. */
  lemma CanAcquireIff(c: Call, run: seq<State>, parallel: int, i: nat)
    requires IsRun(c, run) && c.width == Width(parallel)
    ensures (exists s' :: Step(c, Last(run), Acquire(i), s')) <==>
            i in At(Last(run).phase, Waiting) && |Holding(Last(run).phase)| < if parallel <= 0 then 4 else parallel
  {
    RunKeepsInv(c, run);
    var s := Last(run);
    if i in At(s.phase, Waiting) && |Holding(s.phase)| < c.width {
      assert Step(c, s, Acquire(i), s.(phase := s.phase[i := Requesting], slots := s.slots + 1));
    }
  }

  /** Two uncancelled calls with the same answers return the same results up to their order. */
  lemma SameResultsUpToOrder(c: Call, run1: seq<State>, run2: seq<State>)
    requires IsRun(c, run1) && Finished(c, Last(run1)) && !Last(run1).cancelled
    requires IsRun(c, run2) && Finished(c, Last(run2)) && !Last(run2).cancelled
    ensures multiset(Last(run1).out) == multiset(Last(run2).out)
  {
    FinalResults(c, run1);
    FinalResults(c, run2);
  }

  /** With at least one slot the call never gets stuck: until it is finished, some step is
      possible, in a cancelled call too. The default width makes every configuration such. */
  lemma NeverStuck(c: Call, run: seq<State>, parallel: int) returns (l: Label, s': State)
    requires IsRun(c, run) && !Finished(c, Last(run)) && c.width == Width(parallel)
    ensures Step(c, Last(run), l, s')
  {
    RunKeepsInv(c, run);
    var s := Last(run);
    if !s.cancelled && s.launched < |c.t1s| {
      l, s' := Launch, s.(phase := s.phase[s.launched := Waiting], launched := s.launched + 1);
    } else {
      var i :| i in s.phase && s.phase[i] != Returned;
      l, s' := Mover(c, s, i);
    }
  }

  lemma Mover(c: Call, s: State, i: nat) returns (l: Label, s': State)
    requires Inv(c, s) && c.width > 0 && i in s.phase && s.phase[i] != Returned
    ensures Step(c, s, l, s')
  {
    if i in Holding(s.phase) {
      l, s' := HolderMoves(c, s, i);
    } else if s.slots < c.width {
      l, s' := Acquire(i), s.(phase := s.phase[i := Requesting], slots := s.slots + 1);
    } else {
      var j :| j in Holding(s.phase);
      l, s' := HolderMoves(c, s, j);
    }
  }

  lemma HolderMoves(c: Call, s: State, i: nat) returns (l: Label, s': State)
    requires LaunchOk(c, s) && SlotsOk(c, s) && i in Holding(s.phase)
    ensures Step(c, s, l, s')
  {
    if s.phase[i] == Requesting {
      l, s' := Answer(i), s.(phase := s.phase[i := Answered]);
    } else if s.phase[i] == Recorded {
      l, s' := Release(i), s.(phase := s.phase[i := Returned], slots := s.slots - 1);
    } else if i in c.counts {
      l, s' := Record(i), s.(phase := s.phase[i := Recorded], order := s.order + [i],
                             out := s.out + [ResultAt(c.t1s, c.counts, i)]);
    } else {
      l, s' := Record(i), s.(phase := s.phase[i := Recorded]);
    }
  }

  // ---- Every call returns ----------------------------------------------------------------

  lemma StepSpends(c: Call, s: State, l: Label, s': State)
    requires LaunchOk(c, s) && Step(c, s, l, s')
    ensures Budget(s') - Work(s'.phase) == Budget(s) - Work(s.phase) + 1
  {
    match l
    case Launch => LaunchAddsWork(s.phase, s.launched);
    case Cancel =>
    case Acquire(i) => StepSpendsWork(s.phase, i, Requesting);
    case Answer(i) => StepSpendsWork(s.phase, i, Answered);
    case Record(i) => StepSpendsWork(s.phase, i, Recorded);
    case Release(i) => StepSpendsWork(s.phase, i, Returned);
  }

  /** Steps for what has been launched: the launch and four more each, and the cancellation. */
  function Budget(s: State): nat {
    5 * s.launched + if s.cancelled then 1 else 0
  }

  lemma {:induction false} StepsAndWork(c: Call, run: seq<State>)
    requires IsRun(c, run)
    ensures |run| - 1 + Work(Last(run).phase) == Budget(Last(run))
  {
    var n := |run| - 1;
    if n > 0 {
      StepsAndWork(c, run[..n]);
      RunKeepsInv(c, run[..n]);
      var l :| Step(c, run[n - 1], l, run[n]);
      StepSpends(c, run[n - 1], l, run[n]);
    }
  }

  /** No run is longer than five steps per T1, and a call that is not cancelled returns after
      exactly that many; with NeverStuck, every call returns. */
  lemma RunLength(c: Call, run: seq<State>)
    requires IsRun(c, run)
    ensures |run| - 1 <= 5 * |c.t1s|
    ensures Finished(c, Last(run)) <==>
            && (Last(run).cancelled || Last(run).launched == |c.t1s|)
            && |run| - 1 == 5 * Last(run).launched + if Last(run).cancelled then 1 else 0
    ensures !Last(run).cancelled ==> (Finished(c, Last(run)) <==> |run| - 1 == 5 * |c.t1s|)
  {
    RunKeepsInv(c, run);
    StepsAndWork(c, run);
    NoWorkIffReturned(Last(run).phase);
  }
}
