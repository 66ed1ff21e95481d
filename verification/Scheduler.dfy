/** The collection loop: one goroutine per worker and cycle, joined through a channel with one
    buffer slot per worker, with cancellation possible at any time. */
module Scheduler {
  import opened Basics

  datatype WorkerPhase = Unspawned | Collecting | Sending | Gone

  /** One call of runAll: its goroutines, and its own done channel (messages waiting, received). */
  datatype Round = Round(workers: seq<WorkerPhase>, buffered: nat, received: nat)

  /** The main goroutine: starting workers, collecting done messages, in the timer select, gone. */
  datatype Main = Spawning(next: nat) | Receiving | Waiting | Stopped

  datatype State = State(rounds: seq<Round>, main: Main, cancelled: bool)

  function NewRound(n: nat): Round {
    Round(seq(n, i => Unspawned), 0, 0)
  }

  function Init(n: nat): State {
    State([NewRound(n)], Spawning(0), false)
  }

  datatype Label =
    | Spawn | SpawnedAll | Receive | RoundOver | RoundAbandoned
    | TimerFires | SeesCancel | Cancel
    | CollectReturns(r: nat, w: nat) | Send(r: nat, w: nat)

  function Current(s: State): nat
    requires s.rounds != []
  {
    |s.rounds| - 1
  }

  function SetWorker(s: State, r: nat, w: nat, p: WorkerPhase): State
    requires r < |s.rounds| && w < |s.rounds[r].workers|
  {
    s.(rounds := s.rounds[r := s.rounds[r].(workers := s.rounds[r].workers[w := p])])
  }

  ghost predicate IsAt(s: State, r: nat, w: nat, p: WorkerPhase) {
    r < |s.rounds| && w < |s.rounds[r].workers| && s.rounds[r].workers[w] == p
  }

  /** `n` workers. After cancellation the timer may still win the select. */
  ghost predicate Step(n: nat, s: State, l: Label, s': State) {
    && s.rounds != []
    && var r := Current(s);
       match l
       case Spawn =>
         s.main.Spawning? && IsAt(s, r, s.main.next, Unspawned)
         && s' == SetWorker(s, r, s.main.next, Collecting).(main := Spawning(s.main.next + 1))
       case SpawnedAll =>
         s.main == Spawning(n) && s' == s.(main := Receiving)
       case Receive =>
         s.main == Receiving && s.rounds[r].received < n && s.rounds[r].buffered > 0
         && var q := s.rounds[r];
            s' == s.(rounds := s.rounds[r := q.(buffered := q.buffered - 1, received := q.received + 1)])
       case RoundOver =>
         s.main == Receiving && s.rounds[r].received == n && s' == s.(main := Waiting)
       case RoundAbandoned =>
         s.main == Receiving && s.rounds[r].received < n && s.cancelled && s' == s.(main := Waiting)
       case TimerFires =>
         s.main == Waiting && s' == s.(rounds := s.rounds + [NewRound(n)], main := Spawning(0))
       case SeesCancel =>
         s.main == Waiting && s.cancelled && s' == s.(main := Stopped)
       case Cancel =>
         s' == s.(cancelled := true)
       case CollectReturns(q, w) =>
         IsAt(s, q, w, Collecting) && s' == SetWorker(s, q, w, Sending)
       case Send(q, w) =>
         IsAt(s, q, w, Sending) && s.rounds[q].buffered < n
         && var t := SetWorker(s, q, w, Gone);
            s' == t.(rounds := t.rounds[q := t.rounds[q].(buffered := t.rounds[q].buffered + 1)])
  }

  ghost predicate IsRun(n: nat, run: seq<State>, labels: seq<Label>) {
    var m := |run| - 1;
    && |run| == |labels| + 1
    && if m == 0 then run[0] == Init(n)
       else IsRun(n, run[..m], labels[..m - 1]) && Step(n, run[m - 1], labels[m - 1], run[m])
  }

  function CountGone(ws: seq<WorkerPhase>): nat {
    if ws == [] then 0 else CountGone(ws[..|ws| - 1]) + if ws[|ws| - 1] == Gone then 1 else 0
  }

  lemma {:induction false} CountUpdate(ws: seq<WorkerPhase>, w: nat, p: WorkerPhase)
    requires w < |ws|
    ensures CountGone(ws[w := p]) == CountGone(ws) - (if ws[w] == Gone then 1 else 0) + (if p == Gone then 1 else 0)
  {
    var k := |ws| - 1;
    if w < k {
      CountUpdate(ws[..k], w, p);
      assert ws[w := p][..k] == ws[..k][w := p];
    } else {
      assert ws[w := p][..k] == ws[..k];
    }
  }

  lemma {:induction false} CountBounds(ws: seq<WorkerPhase>)
    ensures CountGone(ws) <= |ws|
    ensures CountGone(ws) == |ws| <==> forall w | 0 <= w < |ws| :: ws[w] == Gone
  {
    if ws != [] { CountBounds(ws[..|ws| - 1]); }
  }

  /** Every message of a round is in the buffer or received: one per worker that has finished. */
  ghost predicate RoundOk(n: nat, r: Round) {
    |r.workers| == n && r.received + r.buffered == CountGone(r.workers) && r.received <= n
  }

  ghost predicate Over(r: Round) {
    forall w | 0 <= w < |r.workers| :: r.workers[w] == Gone
  }

  ghost predicate RoundsOk(n: nat, s: State) {
    s.rounds != [] && forall r | 0 <= r < |s.rounds| :: RoundOk(n, s.rounds[r])
  }

  /** While workers are being started, the rest of the current round is untouched. */
  ghost predicate SpawningOk(n: nat, s: State)
    requires RoundsOk(n, s)
  {
    s.main.Spawning? ==>
      && s.main.next <= n
      && forall w | s.main.next <= w < n :: s.rounds[Current(s)].workers[w] == Unspawned
  }

  /** Until cancellation, all rounds but the one in progress are over. */
  ghost predicate OrderOk(s: State)
    requires s.rounds != []
  {
    !s.cancelled ==>
      && (forall r | 0 <= r < Current(s) :: Over(s.rounds[r]))
      && (s.main == Waiting ==> Over(s.rounds[Current(s)]))
      && s.main != Stopped
  }

  ghost predicate Inv(n: nat, s: State) {
    RoundsOk(n, s) && SpawningOk(n, s) && OrderOk(s)
  }

  lemma {:induction false} FreshRoundOk(n: nat)
    ensures RoundOk(n, NewRound(n))
  {
    NoneGone(NewRound(n).workers);
  }

  lemma {:induction false} NoneGone(ws: seq<WorkerPhase>)
    requires forall w | 0 <= w < |ws| :: ws[w] == Unspawned
    ensures CountGone(ws) == 0
  {
    if ws != [] { NoneGone(ws[..|ws| - 1]); }
  }

  /** A started, unfinished worker of round `q` moves on. */
  lemma WorkerMoveKeepsInv(n: nat, s: State, q: nat, w: nat, p: WorkerPhase, r: Round)
    requires Inv(n, s) && (IsAt(s, q, w, Collecting) || IsAt(s, q, w, Sending))
    requires RoundOk(n, r) && r.workers == s.rounds[q].workers[w := p]
    ensures Inv(n, s.(rounds := s.rounds[q := r]))
  {
    assert !Over(s.rounds[q]);
    if s.main.Spawning? && q == Current(s) {
      assert s.rounds[q].workers[w] != Unspawned;
      assert w < s.main.next;
      assert forall v | s.main.next <= v < n :: r.workers[v] == s.rounds[q].workers[v];
    }
  }

  lemma CollectReturnsKeepsInv(n: nat, s: State, q: nat, w: nat)
    requires Inv(n, s) && IsAt(s, q, w, Collecting)
    ensures Inv(n, SetWorker(s, q, w, Sending))
  {
    CountUpdate(s.rounds[q].workers, w, Sending);
    WorkerMoveKeepsInv(n, s, q, w, Sending, s.rounds[q].(workers := s.rounds[q].workers[w := Sending]));
  }

  lemma SendKeepsInv(n: nat, s: State, q: nat, w: nat, s': State)
    requires Inv(n, s) && Step(n, s, Send(q, w), s')
    ensures Inv(n, s')
  {
    var r := s.rounds[q];
    CountUpdate(r.workers, w, Gone);
    CountBounds(r.workers[w := Gone]);
    var r' := Round(r.workers[w := Gone], r.buffered + 1, r.received);
    WorkerMoveKeepsInv(n, s, q, w, Gone, r');
    assert s' == s.(rounds := s.rounds[q := r']);
  }

  lemma SpawnKeepsInv(n: nat, s: State, s': State)
    requires Inv(n, s) && Step(n, s, Spawn, s')
    ensures Inv(n, s')
  {
    var r := Current(s);
    CountUpdate(s.rounds[r].workers, s.main.next, Collecting);
    assert forall q | 0 <= q < r :: s'.rounds[q] == s.rounds[q];
  }

  lemma StepKeepsInv(n: nat, s: State, l: Label, s': State)
    requires Inv(n, s) && Step(n, s, l, s')
    ensures Inv(n, s')
  {
    match l
    case CollectReturns(q, w) => CollectReturnsKeepsInv(n, s, q, w);
    case Send(q, w) => SendKeepsInv(n, s, q, w, s');
    case Spawn => SpawnKeepsInv(n, s, s');
    case RoundOver =>
      CountBounds(s.rounds[Current(s)].workers);
    case TimerFires =>
      FreshRoundOk(n);
    case _ =>
  }

  lemma {:induction false} RunKeepsInv(n: nat, run: seq<State>, labels: seq<Label>)
    requires IsRun(n, run, labels)
    ensures Inv(n, run[|run| - 1])
  {
    var m := |run| - 1;
    if m == 0 {
      FreshRoundOk(n);
    } else {
      RunKeepsInv(n, run[..m], labels[..m - 1]);
      StepKeepsInv(n, run[m - 1], labels[m - 1], run[m]);
    }
  }

  /** Workers of earlier rounds have all been started; so have those of the current one, up to where
      the main goroutine stands. */
  ghost predicate StartedOk(n: nat, s: State) {
    && RoundsOk(n, s)
    && (forall r, w | 0 <= r < Current(s) && 0 <= w < n :: s.rounds[r].workers[w] != Unspawned)
    && (forall w | 0 <= w < n && (s.main.Spawning? ==> w < s.main.next) ::
          s.rounds[Current(s)].workers[w] != Unspawned)
  }

  lemma WorkerStepKeepsStarted(n: nat, s: State, l: Label, s': State)
    requires Inv(n, s) && StartedOk(n, s) && Step(n, s, l, s') && Inv(n, s') && (l.CollectReturns? || l.Send?)
    ensures StartedOk(n, s')
  {
    assert forall r, w | 0 <= r < |s.rounds| && 0 <= w < n :: s'.rounds[r].workers[w] == Unspawned ==>
                                                             s.rounds[r].workers[w] == Unspawned;
  }

  lemma StepKeepsStarted(n: nat, s: State, l: Label, s': State)
    requires Inv(n, s) && StartedOk(n, s) && Step(n, s, l, s') && Inv(n, s')
    ensures StartedOk(n, s')
  {
    if l.CollectReturns? || l.Send? {
      WorkerStepKeepsStarted(n, s, l, s');
    } else {
      assert l != TimerFires ==> Current(s') == Current(s);
    }
  }

  /** Every round has all `n` workers, and none is left out: once the main goroutine is past the
      starting loop each worker has been started. */
  lemma {:induction false} EveryWorkerStarted(n: nat, run: seq<State>, labels: seq<Label>)
    requires IsRun(n, run, labels)
    ensures StartedOk(n, Last(run))
    ensures var s := Last(run);
            && (forall r | 0 <= r < |s.rounds| :: |s.rounds[r].workers| == n)
            && (!s.main.Spawning? ==>
                  forall r, w | 0 <= r < |s.rounds| && 0 <= w < n :: s.rounds[r].workers[w] != Unspawned)
  {
    var m := |run| - 1;
    RunKeepsInv(n, run, labels);
    if m > 0 {
      EveryWorkerStarted(n, run[..m], labels[..m - 1]);
      RunKeepsInv(n, run[..m], labels[..m - 1]);
      StepKeepsStarted(n, run[m - 1], labels[m - 1], run[m]);
    }
  }

  /** Until cancellation a new cycle starts only after every worker of all earlier ones is done,
      so no worker ever has two collections in flight. */
  lemma CyclesDoNotOverlap(n: nat, run: seq<State>, labels: seq<Label>)
    requires IsRun(n, run, labels) && !run[|run| - 1].cancelled
    ensures var s := run[|run| - 1];
            && (forall r | 0 <= r < |s.rounds| - 1 :: Over(s.rounds[r]))
            && forall r1: nat, r2: nat, w: nat | IsAt(s, r1, w, Collecting) && IsAt(s, r2, w, Collecting) :: r1 == r2
  {
    RunKeepsInv(n, run, labels);
    var s := run[|run| - 1];
    forall r: nat, w: nat | IsAt(s, r, w, Collecting) ensures r == Current(s) {
      assert r < Current(s) ==> Over(s.rounds[r]);
    }
  }

  /** A worker that has finished never blocks on the done channel, in any round, cancelled or not:
      the buffer has room for it even when nobody receives any more. */
  lemma SendNeverBlocks(n: nat, run: seq<State>, labels: seq<Label>, r: nat, w: nat) returns (s': State)
    requires IsRun(n, run, labels) && IsAt(run[|run| - 1], r, w, Sending)
    ensures Step(n, run[|run| - 1], Send(r, w), s')
  {
    RunKeepsInv(n, run, labels);
    var s := run[|run| - 1];
    var ws := s.rounds[r].workers;
    CountUpdate(ws, w, Gone);
    CountBounds(ws[w := Gone]);
    var t := SetWorker(s, r, w, Gone);
    s' := t.(rounds := t.rounds[r := t.rounds[r].(buffered := t.rounds[r].buffered + 1)]);
  }

  /** When every worker of the current cycle is done, the main goroutine can always move on:
      no done message is ever lost. */
  lemma MainNeverStuck(n: nat, run: seq<State>, labels: seq<Label>) returns (l: Label, s': State)
    requires IsRun(n, run, labels)
    requires var s := run[|run| - 1]; s.main == Receiving && s.rounds != [] && Over(s.rounds[Current(s)])
    ensures (l == Receive || l == RoundOver) && Step(n, run[|run| - 1], l, s')
  {
    RunKeepsInv(n, run, labels);
    var s := run[|run| - 1];
    var r := s.rounds[Current(s)];
    CountBounds(r.workers);
    if r.received == n {
      l, s' := RoundOver, s.(main := Waiting);
    } else {
      l := Receive;
      s' := s.(rounds := s.rounds[Current(s) := r.(buffered := r.buffered - 1, received := r.received + 1)]);
    }
  }

  lemma RunExtends(n: nat, run: seq<State>, labels: seq<Label>, l: Label, s': State)
    requires IsRun(n, run, labels) && Step(n, run[|run| - 1], l, s')
    ensures IsRun(n, run + [s'], labels + [l])
  {
    assert (run + [s'])[..|run|] == run;
    assert (labels + [l])[..|labels|] == labels;
  }

  // ---- After cancellation ----------------------------------------------------------------

  /** Any step but a cancellation. */
  ghost predicate Moves(n: nat, s: State, s': State) {
    exists l :: l != Cancel && Step(n, s, l, s')
  }

  /** A stretch of such steps. */
  ghost predicate IsPath(n: nat, path: seq<State>) {
    var m := |path| - 1;
    path != [] && (m > 0 ==> IsPath(n, path[..m]) && Moves(n, path[m - 1], path[m]))
  }

  /** Worker `w` has two collections in flight. */
  ghost predicate Overlaps(s: State, w: nat) {
    exists r1: nat, r2: nat :: r1 < r2 && IsAt(s, r1, w, Collecting) && IsAt(s, r2, w, Collecting)
  }

  lemma PathOneMore(n: nat, path: seq<State>, l: Label, s': State)
    requires IsPath(n, path) && l != Cancel && Step(n, Last(path), l, s')
    ensures IsPath(n, path + [s'])
  {
    assert (path + [s'])[..|path|] == path;
    assert Moves(n, Last(path), s');
  }

  lemma {:induction false} PathsJoin(n: nat, a: seq<State>, b: seq<State>) returns (path: seq<State>)
    requires IsPath(n, a) && IsPath(n, b) && Last(a) == b[0]
    ensures IsPath(n, path) && path[0] == a[0] && Last(path) == Last(b)
  {
    path := a;
    var m := |b| - 1;
    if m > 0 {
      var front := PathsJoin(n, a, b[..m]);
      path := front + [b[m]];
      assert path[..|front|] == front;
    }
  }

  /** Without a cancellation the guarantee holds on. */
  lemma {:induction false} UncancelledStays(n: nat, path: seq<State>)
    requires IsPath(n, path) && Inv(n, path[0]) && !path[0].cancelled
    ensures Inv(n, Last(path)) && !Last(path).cancelled
  {
    var m := |path| - 1;
    if m > 0 {
      UncancelledStays(n, path[..m]);
      var l :| l != Cancel && Step(n, path[m - 1], l, path[m]);
      StepKeepsInv(n, path[m - 1], l, path[m]);
    }
  }

  lemma UncancelledSeparate(n: nat, s: State, w: nat)
    requires Inv(n, s) && !s.cancelled
    ensures !Overlaps(s, w)
  {
    forall r: nat | IsAt(s, r, w, Collecting) ensures r == Current(s) {
      assert r < Current(s) ==> Over(s.rounds[r]);
    }
  }

  /** Once the main goroutine is gone, nothing is started any more. */
  lemma {:induction false} StoppedStays(n: nat, path: seq<State>)
    requires IsPath(n, path) && path[0].main == Stopped
    ensures Last(path).main == Stopped
    ensures forall r: nat, w: nat | IsAt(Last(path), r, w, Collecting) :: IsAt(path[0], r, w, Collecting)
  {
    var m := |path| - 1;
    if m > 0 {
      StoppedStays(n, path[..m]);
      var l :| l != Cancel && Step(n, path[m - 1], l, path[m]);
      StoppedStartsNothing(n, path[m - 1], l, path[m]);
    }
  }

  lemma StoppedStartsNothing(n: nat, s: State, l: Label, s': State)
    requires s.main == Stopped && Step(n, s, l, s')
    ensures s'.main == Stopped
    ensures forall r: nat, w: nat | IsAt(s', r, w, Collecting) :: IsAt(s, r, w, Collecting)
  {
  }

  /** Collections in flight in `s` are still in flight in `s'`, and a cancelled run stays so. */
  ghost predicate Carries(s: State, s': State) {
    && (s.cancelled ==> s'.cancelled)
    && |s.rounds| <= |s'.rounds|
    && forall r: nat, w: nat | IsAt(s, r, w, Collecting) :: IsAt(s', r, w, Collecting)
  }

  lemma CarriesOn(a: State, b: State, c: State)
    requires Carries(a, b) && Carries(b, c)
    ensures Carries(a, c)
  {
  }

  lemma SpawnOne(n: nat, s: State) returns (s': State)
    requires Inv(n, s) && s.main.Spawning? && s.main.next < n
    ensures Step(n, s, Spawn, s') && Inv(n, s') && Carries(s, s')
    ensures s'.main == Spawning(s.main.next + 1) && |s'.rounds| == |s.rounds|
    ensures IsAt(s', Current(s'), s.main.next, Collecting)
  {
    s' := SetWorker(s, Current(s), s.main.next, Collecting).(main := Spawning(s.main.next + 1));
    SpawnKeepsInv(n, s, s');
  }

  /** Started and not yet past `m`: the main goroutine can go on to `m`. */
  lemma {:induction false} SpawnUpTo(n: nat, s: State, m: nat) returns (path: seq<State>)
    requires Inv(n, s) && s.main.Spawning? && s.main.next <= m <= n
    ensures IsPath(n, path) && path[0] == s && Inv(n, Last(path)) && Carries(s, Last(path))
    ensures Last(path).main == Spawning(m) && |Last(path).rounds| == |s.rounds|
    ensures s.main.next < m ==> IsAt(Last(path), Current(Last(path)), m - 1, Collecting)
    decreases m
  {
    path := [s];
    if s.main.next < m {
      var front := SpawnUpTo(n, s, m - 1);
      var s' := SpawnOne(n, Last(front));
      PathOneMore(n, front, Spawn, s');
      CarriesOn(s, Last(front), s');
      path := front + [s'];
    }
  }

  /** A step of the main goroutine that leaves the rounds alone. */
  lemma MainMoves(n: nat, s: State, l: Label, main: Main) returns (path: seq<State>)
    requires Inv(n, s) && Step(n, s, l, s.(main := main)) && l != Cancel
    ensures IsPath(n, path) && path[0] == s && Last(path) == s.(main := main)
    ensures Inv(n, Last(path)) && Carries(s, Last(path))
  {
    StepKeepsInv(n, s, l, s.(main := main));
    PathOneMore(n, [s], l, s.(main := main));
    path := [s, s.(main := main)];
    assert [s] + [s.(main := main)] == path;
  }

  lemma ToReceiving(n: nat, s: State) returns (path: seq<State>)
    requires Inv(n, s) && s.main.Spawning?
    ensures IsPath(n, path) && path[0] == s && Inv(n, Last(path)) && Carries(s, Last(path))
    ensures Last(path).main == Receiving
  {
    var a := SpawnUpTo(n, s, n);
    var b := MainMoves(n, Last(a), SpawnedAll, Receiving);
    path := PathsJoin(n, a, b);
    CarriesOn(s, Last(a), Last(b));
  }

  lemma FromReceiving(n: nat, s: State) returns (path: seq<State>)
    requires Inv(n, s) && s.cancelled && s.main == Receiving
    ensures IsPath(n, path) && path[0] == s && Inv(n, Last(path)) && Carries(s, Last(path))
    ensures Last(path).main == Waiting
  {
    var l := if s.rounds[Current(s)].received < n then RoundAbandoned else RoundOver;
    path := MainMoves(n, s, l, Waiting);
  }

  /** After a cancellation the main goroutine gets to the timer select whatever the workers do. */
  lemma ToTheSelect(n: nat, s: State) returns (path: seq<State>)
    requires Inv(n, s) && s.cancelled && s.main != Stopped
    ensures IsPath(n, path) && path[0] == s && Inv(n, Last(path)) && Carries(s, Last(path))
    ensures Last(path).main == Waiting
  {
    path := [s];
    if s.main.Spawning? {
      path := ToReceiving(n, s);
    }
    if Last(path).main == Receiving {
      var b := FromReceiving(n, Last(path));
      CarriesOn(s, Last(path), Last(b));
      path := PathsJoin(n, path, b);
    }
  }

  lemma TimerStarts(n: nat, s: State) returns (path: seq<State>)
    requires Inv(n, s) && s.main == Waiting
    ensures IsPath(n, path) && path[0] == s && Inv(n, Last(path)) && Carries(s, Last(path))
    ensures Last(path).main == Spawning(0) && |Last(path).rounds| == |s.rounds| + 1
  {
    var fired := s.(rounds := s.rounds + [NewRound(n)], main := Spawning(0));
    StepKeepsInv(n, s, TimerFires, fired);
    PathOneMore(n, [s], TimerFires, fired);
    path := [s] + [fired];
  }

  /** From the timer select, any worker can be started once more, in a new round. */
  lemma StartsAgain(n: nat, s: State, w: nat) returns (path: seq<State>)
    requires Inv(n, s) && s.main == Waiting && w < n
    ensures IsPath(n, path) && path[0] == s && Inv(n, Last(path)) && Carries(s, Last(path))
    ensures Last(path).main.Spawning? && |Last(path).rounds| > |s.rounds|
    ensures IsAt(Last(path), Current(Last(path)), w, Collecting)
  {
    var a := TimerStarts(n, s);
    var b := SpawnThrough(n, Last(a), w);
    CarriesOn(s, Last(a), Last(b));
    path := PathsJoin(n, a, b);
  }

  lemma SpawnThrough(n: nat, s: State, w: nat) returns (path: seq<State>)
    requires Inv(n, s) && s.main == Spawning(0) && w < n
    ensures IsPath(n, path) && path[0] == s && Inv(n, Last(path)) && Carries(s, Last(path))
    ensures Last(path).main.Spawning? && |Last(path).rounds| == |s.rounds|
    ensures IsAt(Last(path), Current(Last(path)), w, Collecting)
  {
    path := SpawnUpTo(n, s, w + 1);
  }

  /** And a cancelled run gets there as long as the main goroutine has not stopped. */
  lemma OneMoreCollection(n: nat, s: State, w: nat) returns (path: seq<State>)
    requires Inv(n, s) && s.cancelled && s.main != Stopped && w < n
    ensures IsPath(n, path) && path[0] == s && Inv(n, Last(path)) && Carries(s, Last(path))
    ensures Last(path).main.Spawning? && |Last(path).rounds| > |s.rounds|
    ensures IsAt(Last(path), Current(Last(path)), w, Collecting)
  {
    var a := ToTheSelect(n, s);
    var b := StartsAgain(n, Last(a), w);
    CarriesOn(s, Last(a), Last(b));
    path := PathsJoin(n, a, b);
  }

  lemma SecondCollection(n: nat, s: State, w: nat) returns (path: seq<State>)
    requires Inv(n, s) && s.cancelled && s.main != Stopped && w < n
    ensures IsPath(n, path) && path[0] == s && Overlaps(Last(path), w)
  {
    var a := OneMoreCollection(n, s, w);
    var b := OneMoreCollection(n, Last(a), w);
    path := PathsJoin(n, a, b);
    assert IsAt(Last(b), Current(Last(a)), w, Collecting) && IsAt(Last(b), Current(Last(b)), w, Collecting);
  }

  ghost predicate CanOverlap(n: nat, s: State, w: nat) {
    exists path :: IsPath(n, path) && path[0] == s && Overlaps(Last(path), w)
  }

  /** Overlap, exactly: from any reachable state and without a further cancellation, a worker can
      come to collect twice at once if and only if it already does, or the run is cancelled and the
      main goroutine has not noticed yet (the timer may win its select). */
  lemma OverlapPossibleIff(n: nat, run: seq<State>, labels: seq<Label>, w: nat)
    requires IsRun(n, run, labels) && w < n
    ensures CanOverlap(n, Last(run), w) <==>
            Overlaps(Last(run), w) || (Last(run).cancelled && Last(run).main != Stopped)
    ensures Overlaps(Last(run), w) ==> Last(run).cancelled
  {
    RunKeepsInv(n, run, labels);
    var s := Last(run);
    if !s.cancelled {
      UncancelledSeparate(n, s, w);
      forall path | IsPath(n, path) && path[0] == s ensures !Overlaps(Last(path), w) {
        UncancelledStays(n, path);
        UncancelledSeparate(n, Last(path), w);
      }
    } else if s.main == Stopped {
      forall path | IsPath(n, path) && path[0] == s ensures Overlaps(Last(path), w) ==> Overlaps(s, w) {
        StoppedStays(n, path);
      }
      if Overlaps(s, w) { assert IsPath(n, [s]) && Last([s]) == s; }
    } else {
      var path := SecondCollection(n, s, w);
    }
  }

  ghost predicate CanStopCollecting(n: nat, s: State, r: nat, w: nat) {
    exists path :: IsPath(n, path) && path[0] == s && Last(path).main == Stopped && IsAt(Last(path), r, w, Collecting)
  }

  lemma StopsNow(n: nat, s: State) returns (path: seq<State>)
    requires Inv(n, s) && s.cancelled
    ensures IsPath(n, path) && path[0] == s && Last(path).main == Stopped && Carries(s, Last(path))
  {
    path := [s];
    if s.main != Stopped {
      var a := ToTheSelect(n, s);
      var b := MainMoves(n, Last(a), SeesCancel, Stopped);
      CarriesOn(s, Last(a), Last(b));
      path := PathsJoin(n, a, b);
    }
  }

  /** Shutdown, exactly: the main goroutine can be gone while a collection now in flight still is, if
      and only if the run is cancelled. It then waits for no worker. */
  lemma StopsCollectingIff(n: nat, run: seq<State>, labels: seq<Label>, r: nat, w: nat)
    requires IsRun(n, run, labels) && IsAt(Last(run), r, w, Collecting)
    ensures CanStopCollecting(n, Last(run), r, w) <==> Last(run).cancelled
  {
    RunKeepsInv(n, run, labels);
    if Last(run).cancelled {
      var path := StopsNow(n, Last(run));
    } else {
      forall path | IsPath(n, path) && path[0] == Last(run) ensures Last(path).main != Stopped {
        UncancelledStays(n, path);
      }
    }
  }

  /** For instance with one worker: runAll returns early, the timer wins the select against the
      cancelled context, and the worker collects twice at once. */
  lemma OverlapAfterCancel() returns (run: seq<State>, labels: seq<Label>)
    ensures IsRun(1, run, labels)
    ensures var s := run[|run| - 1];
            IsAt(s, 0, 0, Collecting) && IsAt(s, 1, 0, Collecting)
  {
    var s0 := Init(1);
    var s1 := SetWorker(s0, 0, 0, Collecting).(main := Spawning(1));
    var s2 := s1.(main := Receiving);
    var s3 := s2.(cancelled := true);
    var s4 := s3.(main := Waiting);
    var s5 := s4.(rounds := s4.rounds + [NewRound(1)], main := Spawning(0));
    var s6 := SetWorker(s5, 1, 0, Collecting).(main := Spawning(1));
    run, labels := [s0], [];
    RunExtends(1, run, labels, Spawn, s1);
    run, labels := run + [s1], labels + [Spawn];
    RunExtends(1, run, labels, SpawnedAll, s2);
    run, labels := run + [s2], labels + [SpawnedAll];
    RunExtends(1, run, labels, Cancel, s3);
    run, labels := run + [s3], labels + [Cancel];
    RunExtends(1, run, labels, RoundAbandoned, s4);
    run, labels := run + [s4], labels + [RoundAbandoned];
    RunExtends(1, run, labels, TimerFires, s5);
    run, labels := run + [s5], labels + [TimerFires];
    RunExtends(1, run, labels, Spawn, s6);
    run, labels := run + [s6], labels + [Spawn];
  }
}
