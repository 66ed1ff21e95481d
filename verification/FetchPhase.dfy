/** The bounded-parallel status fetch of an HA cycle, as a state machine over the atomic steps of
    its goroutines: one per observed T1, a channel of four slots as the semaphore, and the two
    result maps, each written inside its own critical section. */
module FetchPhase {
  import opened Basics
  import opened Consensus
  import opened Goroutines

  const SLOTS: nat := 4

  datatype Task = Task(cluster: string, id: string)

  /** One row of a status reply: a transport node, and whether it reports ACTIVE. */
  datatype NodeStatus = NodeStatus(node: string, isActive: bool)

  /** The node a reply shows ACTIVE: that of the last such row, "" when there is none. */
  function ActiveOf(rows: seq<NodeStatus>): string {
    if rows == [] then ""
    else if rows[|rows| - 1].isActive then rows[|rows| - 1].node
    else ActiveOf(rows[..|rows| - 1])
  }

  method ActiveNode(rows: seq<NodeStatus>) returns (node: string)
    ensures node == ActiveOf(rows)
    ensures (node == "" && forall i | 0 <= i < |rows| :: !rows[i].isActive)
         || (exists k :: LastActiveRow(rows, k) && rows[k].node == node)
  {
    node := "";
    for i := 0 to |rows|
      invariant node == ActiveOf(rows[..i])
    {
      assert rows[..i + 1][..i] == rows[..i];
      if rows[i].isActive {
        node := rows[i].node;
      }
    }
    assert rows[..|rows|] == rows;
    ActiveOfIsLast(rows);
  }

  ghost predicate LastActiveRow(rows: seq<NodeStatus>, k: int) {
    0 <= k < |rows| && rows[k].isActive && forall i | k < i < |rows| :: !rows[i].isActive
  }

  lemma {:induction false} ActiveOfIsLast(rows: seq<NodeStatus>)
    ensures (ActiveOf(rows) == "" && forall i | 0 <= i < |rows| :: !rows[i].isActive)
         || (exists k :: LastActiveRow(rows, k) && rows[k].node == ActiveOf(rows))
  {
    if rows != [] {
      var n := |rows| - 1;
      if rows[n].isActive {
        assert LastActiveRow(rows, n);
      } else {
        ActiveOfIsLast(rows[..n]);
        if k :| LastActiveRow(rows[..n], k) && rows[k].node == ActiveOf(rows[..n]) {
          forall i | k < i < |rows| ensures !rows[i].isActive { assert i < n ==> rows[..n][i] == rows[i]; }
          assert LastActiveRow(rows, k);
        }
      }
    }
  }

  /** What the manager answers: the rows of each reply; no entry means the request fails. */
  type Replies = map<Task, seq<NodeStatus>>

  datatype State = State(
    phase: map<Task, Phase>,
    slots: nat,
    missed: map<string, set<string>>,
    active: map<string, Actives>)

  function Init(tasks: set<Task>): State {
    State(map t | t in tasks :: Waiting, 0, map[], map[])
  }

  ghost predicate Acquire(s: State, t: Task, s': State) {
    && t in At(s.phase, Waiting) && s.slots < SLOTS
    && s' == s.(phase := s.phase[t := Requesting], slots := s.slots + 1)
  }

  ghost predicate Answer(s: State, t: Task, s': State) {
    t in At(s.phase, Requesting) && s' == s.(phase := s.phase[t := Answered])
  }

  ghost predicate Record(s: State, t: Task, r: Replies, s': State) {
    && t in At(s.phase, Answered)
    && s' == if t in r
             then s.(phase := s.phase[t := Recorded], active := AddActive(s.active, t, ActiveOf(r[t])))
             else s.(phase := s.phase[t := Recorded], missed := AddMissed(s.missed, t))
  }

  ghost predicate Release(s: State, t: Task, s': State) {
    && t in At(s.phase, Recorded) && s.slots > 0
    && s' == s.(phase := s.phase[t := Returned], slots := s.slots - 1)
  }

  ghost predicate Step(s: State, t: Task, r: Replies, s': State) {
    Acquire(s, t, s') || Answer(s, t, s') || Record(s, t, r, s') || Release(s, t, s')
  }

  /** Insert into the inner map of the task's cluster, creating it when missing. */
  function AddActive(active: map<string, Actives>, t: Task, node: string): map<string, Actives> {
    active[t.cluster := (if t.cluster in active then active[t.cluster] else map[])[t.id := node]]
  }

  function AddMissed(missed: map<string, set<string>>, t: Task): map<string, set<string>> {
    missed[t.cluster := (if t.cluster in missed then missed[t.cluster] else {}) + {t.id}]
  }

  ghost predicate Next(s: State, r: Replies, s': State) {
    exists t :: Step(s, t, r, s')
  }

  /** An interleaving: any goroutine may take the next step. */
  ghost predicate IsRun(run: seq<State>, tasks: set<Task>, r: Replies) {
    var n := |run| - 1;
    run != [] &&
    if n == 0 then run[0] == Init(tasks)
    else IsRun(run[..n], tasks, r) && Next(run[n - 1], r, run[n])
  }

  // ---- What the maps should hold ----------------------------------------------

  ghost predicate InActive(active: map<string, Actives>, t: Task) {
    t.cluster in active && t.id in active[t.cluster]
  }

  ghost predicate InMissed(missed: map<string, set<string>>, t: Task) {
    t.cluster in missed && t.id in missed[t.cluster]
  }

  /** Exactly the answered tasks of `done`, each with its reply, and no empty inner map. */
  ghost predicate HoldsAnswers(active: map<string, Actives>, done: set<Task>, r: Replies) {
    && (forall t :: InActive(active, t) <==> t in done && t in r)
    && (forall t | InActive(active, t) :: active[t.cluster][t.id] == ActiveOf(r[t]))
    && (forall c | c in active :: active[c] != map[])
  }

  /** Exactly the failed tasks of `done`, and no empty inner set. */
  ghost predicate HoldsFailures(missed: map<string, set<string>>, done: set<Task>, r: Replies) {
    && (forall t :: InMissed(missed, t) <==> t in done && t !in r)
    && (forall c | c in missed :: missed[c] != {})
  }

  ghost predicate Inv(s: State, tasks: set<Task>, r: Replies) {
    && s.phase.Keys == tasks
    && s.slots == |Holding(s.phase)| <= SLOTS
    && HoldsAnswers(s.active, Done(s.phase), r)
    && HoldsFailures(s.missed, Done(s.phase), r)
  }

  // ---- Every step keeps the invariant ------------------------------------------

  lemma AnswerIsHeld(active: map<string, Actives>, done: set<Task>, t: Task, r: Replies)
    requires HoldsAnswers(active, done, r)
    ensures HoldsAnswers(if t in r then AddActive(active, t, ActiveOf(r[t])) else active, done + {t}, r)
  {
    if t in r {
      var active' := AddActive(active, t, ActiveOf(r[t]));
      forall u ensures InActive(active', u) <==> InActive(active, u) || u == t {
        assert u == t <==> u.cluster == t.cluster && u.id == t.id;
      }
    }
  }

  lemma FailureIsHeld(missed: map<string, set<string>>, done: set<Task>, t: Task, r: Replies)
    requires HoldsFailures(missed, done, r)
    ensures HoldsFailures(if t in r then missed else AddMissed(missed, t), done + {t}, r)
  {
    if t !in r {
      var missed' := AddMissed(missed, t);
      forall u ensures InMissed(missed', u) <==> InMissed(missed, u) || u == t {
        assert u == t <==> u.cluster == t.cluster && u.id == t.id;
      }
    }
  }

  lemma AcquireKeepsInv(s: State, t: Task, r: Replies, s': State, tasks: set<Task>)
    requires Inv(s, tasks, r) && Acquire(s, t, s')
    ensures Inv(s', tasks, r)
  {
    assert Holding(s'.phase) == Holding(s.phase) + {t} && t !in Holding(s.phase);
    assert Done(s'.phase) == Done(s.phase);
  }

  lemma AnswerKeepsInv(s: State, t: Task, r: Replies, s': State, tasks: set<Task>)
    requires Inv(s, tasks, r) && Answer(s, t, s')
    ensures Inv(s', tasks, r)
  {
    assert Holding(s'.phase) == Holding(s.phase);
    assert Done(s'.phase) == Done(s.phase);
  }

  lemma RecordKeepsInv(s: State, t: Task, r: Replies, s': State, tasks: set<Task>)
    requires Inv(s, tasks, r) && Record(s, t, r, s')
    ensures Inv(s', tasks, r)
  {
    assert Holding(s'.phase) == Holding(s.phase);
    AnswerIsHeld(s.active, Done(s.phase), t, r);
    FailureIsHeld(s.missed, Done(s.phase), t, r);
  }

  lemma ReleaseKeepsInv(s: State, t: Task, r: Replies, s': State, tasks: set<Task>)
    requires Inv(s, tasks, r) && Release(s, t, s')
    ensures Inv(s', tasks, r)
  {
    assert Holding(s'.phase) == Holding(s.phase) - {t} && t in Holding(s.phase);
    assert Done(s'.phase) == Done(s.phase);
  }

  lemma StepKeepsInv(s: State, t: Task, r: Replies, s': State, tasks: set<Task>)
    requires Inv(s, tasks, r) && Step(s, t, r, s')
    ensures Inv(s', tasks, r)
  {
    if Acquire(s, t, s') { AcquireKeepsInv(s, t, r, s', tasks); }
    else if Answer(s, t, s') { AnswerKeepsInv(s, t, r, s', tasks); }
    else if Record(s, t, r, s') { RecordKeepsInv(s, t, r, s', tasks); }
    else { ReleaseKeepsInv(s, t, r, s', tasks); }
  }

  lemma {:induction false} RunKeepsInv(run: seq<State>, tasks: set<Task>, r: Replies)
    requires IsRun(run, tasks, r)
    ensures Inv(Last(run), tasks, r)
  {
    var n := |run| - 1;
    if n == 0 {
      assert Holding(Init(tasks).phase) == {} && Done(Init(tasks).phase) == {};
    } else {
      RunKeepsInv(run[..n], tasks, r);
      var t :| Step(run[n - 1], t, r, run[n]);
      StepKeepsInv(run[n - 1], t, r, run[n], tasks);
    }
  }

  // ---- The results ----------------------------------------------------------------

  /** Under every interleaving at most four requests are in flight at any time. */
  lemma {:induction false} AtMostFourInFlight(run: seq<State>, tasks: set<Task>, r: Replies)
    requires IsRun(run, tasks, r)
    ensures forall i | 0 <= i < |run| :: |At(run[i].phase, Requesting)| <= 4
  {
    var n := |run| - 1;
    if n > 0 {
      AtMostFourInFlight(run[..n], tasks, r);
      forall i | 0 <= i < n ensures |At(run[i].phase, Requesting)| <= SLOTS { assert run[..n][i] == run[i]; }
    }
    RunKeepsInv(run, tasks, r);
    InFlightHoldsSlot(run[n]);
  }

  /** And no fewer than four: a waiting goroutine can go ahead exactly while fewer hold a slot. */
  lemma CanAcquireIff(run: seq<State>, tasks: set<Task>, r: Replies, t: Task)
    requires IsRun(run, tasks, r)
    ensures (exists s' :: Acquire(Last(run), t, s')) <==>
            t in At(Last(run).phase, Waiting) && |Holding(Last(run).phase)| < 4
  {
    RunKeepsInv(run, tasks, r);
    var s := Last(run);
    if t in At(s.phase, Waiting) && |Holding(s.phase)| < 4 {
      assert Acquire(s, t, s.(phase := s.phase[t := Requesting], slots := s.slots + 1));
    }
  }

  lemma InFlightHoldsSlot(s: State)
    ensures |At(s.phase, Requesting)| <= |Holding(s.phase)|
  {
    SubsetCardinality(At(s.phase, Requesting), Holding(s.phase));
  }

  /** When every goroutine has returned, each observed T1 of each cluster is in exactly one of
      the two maps: with its reply if it was answered, as missed otherwise. */
  lemma FinalMaps(run: seq<State>, tasks: set<Task>, r: Replies)
    requires IsRun(run, tasks, r)
    requires At(Last(run).phase, Returned) == tasks
    ensures HoldsAnswers(Last(run).active, tasks, r) && HoldsFailures(Last(run).missed, tasks, r)
    ensures forall t | t in tasks :: InActive(Last(run).active, t) != InMissed(Last(run).missed, t)
  {
    RunKeepsInv(run, tasks, r);
    assert forall t | t in At(Last(run).phase, Recorded) :: t in tasks;
    assert Done(Last(run).phase) == tasks;
  }

  /** Those conditions pin the maps down, so the outcome does not depend on the interleaving. */
  lemma OutcomeIndependentOfInterleaving(run1: seq<State>, run2: seq<State>, tasks: set<Task>, r: Replies)
    requires IsRun(run1, tasks, r) && At(Last(run1).phase, Returned) == tasks
    requires IsRun(run2, tasks, r) && At(Last(run2).phase, Returned) == tasks
    ensures Last(run1).active == Last(run2).active
    ensures Last(run1).missed == Last(run2).missed
  {
    FinalMaps(run1, tasks, r);
    FinalMaps(run2, tasks, r);
    SameAnswers(Last(run1).active, Last(run2).active, tasks, r);
    SameFailures(Last(run1).missed, Last(run2).missed, tasks, r);
  }

  lemma SameAnswers(a: map<string, Actives>, b: map<string, Actives>, tasks: set<Task>, r: Replies)
    requires HoldsAnswers(a, tasks, r) && HoldsAnswers(b, tasks, r)
    ensures a == b
  {
    AnswersWithin(a, b, tasks, r);
    AnswersWithin(b, a, tasks, r);
    forall c | c in a ensures a[c] == b[c] {
      forall i ensures (i in a[c] <==> i in b[c]) && (i in a[c] ==> a[c][i] == b[c][i]) {
        assert InActive(a, Task(c, i)) <==> InActive(b, Task(c, i));
      }
    }
  }

  lemma AnswersWithin(a: map<string, Actives>, b: map<string, Actives>, tasks: set<Task>, r: Replies)
    requires HoldsAnswers(a, tasks, r) && HoldsAnswers(b, tasks, r)
    ensures a.Keys <= b.Keys
  {
    forall c | c in a ensures c in b {
      var i :| i in a[c];
      assert InActive(a, Task(c, i));
      assert InActive(b, Task(c, i));
    }
  }

  lemma SameFailures(a: map<string, set<string>>, b: map<string, set<string>>, tasks: set<Task>, r: Replies)
    requires HoldsFailures(a, tasks, r) && HoldsFailures(b, tasks, r)
    ensures a == b
  {
    FailuresWithin(a, b, tasks, r);
    FailuresWithin(b, a, tasks, r);
    forall c | c in a ensures a[c] == b[c] {
      forall i ensures i in a[c] <==> i in b[c] {
        assert InMissed(a, Task(c, i)) <==> InMissed(b, Task(c, i));
      }
    }
  }

  lemma FailuresWithin(a: map<string, set<string>>, b: map<string, set<string>>, tasks: set<Task>, r: Replies)
    requires HoldsFailures(a, tasks, r) && HoldsFailures(b, tasks, r)
    ensures a.Keys <= b.Keys
  {
    forall c | c in a ensures c in b {
      var i :| i in a[c];
      assert InMissed(a, Task(c, i));
      assert InMissed(b, Task(c, i));
    }
  }

  /** The semaphore cannot deadlock: until all have returned, some goroutine can move. */
  lemma SomeoneCanMove(run: seq<State>, tasks: set<Task>, r: Replies)
    requires IsRun(run, tasks, r)
    requires At(Last(run).phase, Returned) != tasks
    ensures exists s' :: Next(Last(run), r, s')
  {
    RunKeepsInv(run, tasks, r);
    var s := Last(run);
    var t :| t in tasks && s.phase[t] != Returned;
    if s.phase[t] == Waiting && s.slots < SLOTS {
      var s' := s.(phase := s.phase[t := Requesting], slots := s.slots + 1);
      assert Step(s, t, r, s');
      assert Next(s, r, s');
    } else {
      assert t in Holding(s.phase) || |Holding(s.phase)| == SLOTS;
      var u :| u in Holding(s.phase);
      HolderCanMove(s, u, tasks, r);
    }
  }

  lemma HolderCanMove(s: State, t: Task, tasks: set<Task>, r: Replies)
    requires Inv(s, tasks, r) && t in Holding(s.phase)
    ensures exists s' :: Next(s, r, s')
  {
    var s' :=
      if s.phase[t] == Requesting then s.(phase := s.phase[t := Answered])
      else if s.phase[t] == Recorded then s.(phase := s.phase[t := Returned], slots := s.slots - 1)
      else if t in r then s.(phase := s.phase[t := Recorded], active := AddActive(s.active, t, ActiveOf(r[t])))
      else s.(phase := s.phase[t := Recorded], missed := AddMissed(s.missed, t));
    assert Step(s, t, r, s');
    assert Next(s, r, s');
  }

  lemma StepSpends(s: State, t: Task, r: Replies, s': State)
    requires Step(s, t, r, s')
    ensures Work(s'.phase) == Work(s.phase) - 1
  {
    StepSpendsWork(s.phase, t, s'.phase[t]);
  }

  /** Hence the wait group is always released, after exactly four steps per observed T1. */
  lemma {:induction false} RunLength(run: seq<State>, tasks: set<Task>, r: Replies)
    requires IsRun(run, tasks, r)
    ensures |run| - 1 + Work(Last(run).phase) == 4 * |tasks|
  {
    var n := |run| - 1;
    if n == 0 {
      assert At(run[0].phase, Waiting) == tasks;
      assert At(run[0].phase, Requesting) == At(run[0].phase, Answered) == At(run[0].phase, Recorded) == {};
    } else {
      RunLength(run[..n], tasks, r);
      var t :| Step(run[n - 1], t, r, run[n]);
      StepSpends(run[n - 1], t, r, run[n]);
    }
  }

  lemma FinishedIffFullLength(run: seq<State>, tasks: set<Task>, r: Replies)
    requires IsRun(run, tasks, r)
    ensures At(Last(run).phase, Returned) == tasks <==> |run| - 1 == 4 * |tasks|
  {
    RunLength(run, tasks, r);
    RunKeepsInv(run, tasks, r);
    var s := Last(run);
    var open := At(s.phase, Waiting) + At(s.phase, Requesting) + At(s.phase, Answered) + At(s.phase, Recorded);
    assert forall t | t in tasks :: t in open <==> t !in At(s.phase, Returned);
    assert Work(s.phase) == 0 <==> open == {};
  }
}
