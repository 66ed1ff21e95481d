/** One process, one snapshot file: load, diff, save by tmp-write and atomic rename, then emit,
    with a crash possible between any two steps. */
module T1Persistence {
  import opened Basics
  import opened T1Detector
  import opened T1Runs

  /** File contents: half-written, or a complete snapshot. */
  datatype Doc = Torn | Complete(known: Known)

  /** A diff on its way to the file: its cycle, whether it started a new baseline, and the
      snapshot to store. */
  datatype Pending = Pending(cycle: Cycle, isBaseline: bool, known: Known)

  datatype Phase =
    | Idle
    | Diffed(p: Pending)
    | Writing(p: Pending)
    | Written(p: Pending)
    | Emitting(events: seq<Event>, next: nat, saved: bool)
  {
    predicate HasPending() { Diffed? || Writing? || Written? }
  }

  /** The two files, the running cycle, and the history: the cycle behind every rename
      (`persisted`), where among them the current baseline is (`since`), the events of each emitted
      so far (`emitted`); the events emitted by cycles whose save failed (`stray`); and what has
      gone wrong. */
  datatype State = State(
    main: Option<Doc>, tmp: Option<Doc>, phase: Phase,
    persisted: seq<Cycle>, since: nat, emitted: seq<seq<Event>>, stray: seq<Event>,
    crashed: bool, saveFailed: bool, misread: bool)

  const INIT: State := State(None, None, Idle, [], 0, [], [], false, false, false)

  datatype Label =
    | Start(live: Live, agg: Aggregates, now: int, readFails: bool)
    | Open | FinishWrite | Rename | FailSave | Emit | Finish | Crash

  /** What loading yields: the stored entries, and whether there is a baseline. An unreadable
      file counts as an empty one without baseline. */
  function Load(main: Option<Doc>, readFails: bool): (r: (Known, bool)) {
    if readFails || main == None || main.value == Torn then (map[], false) else (main.value.known, true)
  }

  ghost predicate Step(s: State, l: Label, s': State) {
    match l
    case Start(live, agg, now, readFails) =>
      var (base, baselined) := Load(s.main, readFails);
      && s.phase == Idle && WellKeyed(live)
      && s'.phase.Diffed?
      && var events := s'.phase.p.cycle.events;
         && EventsOk(base, live, baselined, agg, now, events)
         && s' == s.(
           phase := Diffed(Pending(Cycle(live, agg, now, events), !baselined, KnownAfter(base, live, now))),
           misread := s.misread || readFails)
    case Open =>
      s.phase.Diffed? && s' == s.(phase := Writing(s.phase.p), tmp := Some(Torn))
    case FinishWrite =>
      s.phase.Writing? && s' == s.(phase := Written(s.phase.p), tmp := Some(Complete(s.phase.p.known)))
    case Rename =>
      s.phase.Written? && s' == s.(
        main := s.tmp, tmp := None, phase := Emitting(s.phase.p.cycle.events, 0, true),
        persisted := s.persisted + [s.phase.p.cycle], emitted := s.emitted + [[]],
        since := if s.phase.p.isBaseline then |s.persisted| else s.since)
    case FailSave =>
      s.phase.HasPending() && s' == s.(phase := Emitting(s.phase.p.cycle.events, 0, false), saveFailed := true)
    case Emit =>
      && s.phase.Emitting? && s.phase.next < |s.phase.events|
      && (s.phase.saved ==> s.emitted != [])
      && var e := s.phase.events[s.phase.next];
         var advanced := s.(phase := s.phase.(next := s.phase.next + 1));
         s' == if s.phase.saved then advanced.(emitted := AppendToLast(s.emitted, [e]))
               else advanced.(stray := s.stray + [e])
    case Finish =>
      s.phase.Emitting? && s.phase.next == |s.phase.events| && s' == s.(phase := Idle)
    case Crash =>
      s' == s.(phase := Idle, crashed := true)
  }

  function AppendToLast(batches: seq<seq<Event>>, events: seq<Event>): seq<seq<Event>>
    requires batches != []
  {
    var n := |batches| - 1;
    batches[..n] + [batches[n] + events]
  }

  /** `path` takes the steps `labels`, from any state. */
  ghost predicate IsPath(path: seq<State>, labels: seq<Label>) {
    var n := |path| - 1;
    && |path| == |labels| + 1
    && (n > 0 ==> IsPath(path[..n], labels[..n - 1]) && Step(path[n - 1], labels[n - 1], path[n]))
  }

  ghost predicate RunsTo(run: seq<State>, labels: seq<Label>) {
    IsPath(run, labels) && run[0] == INIT
  }

  // ---- Files --------------------------------------------------------------------------

  ghost predicate KeyedById(known: Known) {
    forall id | id in known :: known[id].view.id == id
  }

  ghost predicate MainWhole(s: State) {
    s.main.Some? ==> s.main.value.Complete? && KeyedById(s.main.value.known)
  }

  /** The snapshot a running cycle is about to store keeps every entry under its own id. */
  ghost predicate PendingWhole(s: State) {
    && (s.phase.HasPending() ==> KeyedById(s.phase.p.known))
    && (s.phase.Written? ==> s.tmp == Some(Complete(s.phase.p.known)))
  }

  lemma StepKeepsWhole(s: State, l: Label, s': State)
    requires MainWhole(s) && PendingWhole(s) && Step(s, l, s')
    ensures MainWhole(s') && PendingWhole(s')
  {
  }

  /** With a crash possible anywhere, in the middle of the write included, the snapshot file always
      holds a complete snapshot, and it changes only by the rename, to the snapshot just diffed. */
  lemma {:induction false} MainNeverTorn(run: seq<State>, labels: seq<Label>)
    requires RunsTo(run, labels)
    ensures MainWhole(Last(run)) && PendingWhole(Last(run))
    ensures |labels| > 0 && Last(run).main != run[|run| - 2].main ==>
              && Last(labels) == Rename
              && Last(run).main == Some(Complete(run[|run| - 2].phase.p.known))
  {
    var n := |run| - 1;
    if n > 0 {
      MainNeverTorn(run[..n], labels[..n - 1]);
      StepKeepsWhole(run[n - 1], labels[n - 1], run[n]);
    }
  }

  // ---- Emission -------------------------------------------------------------------------

  /** Every rename's emission is a prefix of what it persisted; without crashes only the one in
      progress can be incomplete; without failed saves nothing else is ever emitted. */
  ghost predicate EmissionOk(s: State) {
    && |s.emitted| == |s.persisted|
    && (forall i | 0 <= i < |s.emitted| :: s.emitted[i] <= s.persisted[i].events)
    && (s.phase.Emitting? && s.phase.saved ==>
          && s.persisted != [] && s.phase.events == Last(s.persisted).events
          && s.phase.next <= |s.phase.events|
          && Last(s.emitted) == s.phase.events[..s.phase.next])
    && (!s.crashed ==> forall i | 0 <= i < |s.emitted| ::
          s.emitted[i] == s.persisted[i].events || (i == |s.emitted| - 1 && s.phase.Emitting? && s.phase.saved))
    && (!s.saveFailed ==> s.stray == [] && (s.phase.Emitting? ==> s.phase.saved))
  }

  lemma RenameKeepsEmission(s: State, s': State)
    requires EmissionOk(s) && Step(s, Rename, s')
    ensures EmissionOk(s')
  {
    assert forall i | 0 <= i < |s.emitted| :: s'.emitted[i] == s.emitted[i] && s'.persisted[i] == s.persisted[i];
  }

  lemma AppendedLast(batches: seq<seq<Event>>, events: seq<Event>)
    requires batches != []
    ensures var n := |batches| - 1; var more := AppendToLast(batches, events);
            |more| == |batches| && more[n] == batches[n] + events && forall i | 0 <= i < n :: more[i] == batches[i]
  {
  }

  lemma EmitKeepsEmission(s: State, s': State)
    requires EmissionOk(s) && Step(s, Emit, s')
    ensures EmissionOk(s')
  {
    if s.phase.saved {
      AppendedLast(s.emitted, [s.phase.events[s.phase.next]]);
      assert s'.emitted[|s.emitted| - 1] == s.phase.events[..s.phase.next + 1];
    }
  }

  lemma StepKeepsEmission(s: State, l: Label, s': State)
    requires EmissionOk(s) && Step(s, l, s')
    ensures EmissionOk(s')
  {
    match l
    case Rename => RenameKeepsEmission(s, s');
    case Emit => EmitKeepsEmission(s, s');
    case _ =>
  }

  /** Save precedes emission: each persisted membership change is emitted at most once, in order,
      and in a run without crashes exactly once by the time the cycle is over. */
  lemma {:induction false} EmittedAtMostOnce(run: seq<State>, labels: seq<Label>)
    requires RunsTo(run, labels)
    ensures EmissionOk(Last(run))
    ensures var s := Last(run);
            !s.crashed && s.phase == Idle ==> forall i | 0 <= i < |s.emitted| :: s.emitted[i] == s.persisted[i].events
  {
    var n := |run| - 1;
    if n > 0 {
      EmittedAtMostOnce(run[..n], labels[..n - 1]);
      StepKeepsEmission(run[n - 1], labels[n - 1], run[n]);
    }
  }

  // ---- What is persisted is the real lifecycle ---------------------------------------------

  /** The persisted cycles since the current baseline. */
  function Chain(s: State): seq<Cycle>
    requires s.since <= |s.persisted|
  {
    s.persisted[s.since..]
  }

  /** `p` is the next cycle of the run `chain`, or the first one of a new run. */
  ghost predicate Continues(p: Pending, chain: seq<Cycle>) {
    var base := if p.isBaseline then [] else chain;
    && (p.isBaseline || chain != [])
    && T1Runs.IsRun(base + [p.cycle]) && p.known == Stored(base + [p.cycle])
  }

  /** The file holds what an uninterrupted run of the cycles `chain` leaves. */
  ghost predicate Holds(main: Option<Doc>, chain: seq<Cycle>) {
    chain != [] && T1Runs.IsRun(chain) && main == Some(Complete(Stored(chain)))
  }

  /** The file holds what the persisted cycles since the baseline leave, and a running cycle
      continues from there. */
  ghost predicate ChainOk(s: State) {
    && s.since <= |s.persisted|
    && (if s.main == None then s.persisted == [] else Holds(s.main, Chain(s)))
    && (s.phase.HasPending() ==> Continues(s.phase.p, Chain(s)))
    && (s.phase.Written? ==> s.tmp == Some(Complete(s.phase.p.known)))
  }

  /** As long as every load worked there is only one baseline. */
  ghost predicate OneBaseline(s: State) {
    !s.misread ==> s.since == 0 && (s.phase.HasPending() && s.phase.p.isBaseline ==> s.main == None)
  }

  lemma StartContinues(main: Option<Doc>, chain: seq<Cycle>, readFails: bool, p: Pending)
    requires main == None || Holds(main, chain)
    requires var (base, baselined) := Load(main, readFails);
             && WellKeyed(p.cycle.live) && p.isBaseline == !baselined
             && EventsOk(base, p.cycle.live, baselined, p.cycle.agg, p.cycle.now, p.cycle.events)
             && p.known == KnownAfter(base, p.cycle.live, p.cycle.now)
    ensures Continues(p, chain)
  {
    var before := if p.isBaseline then [] else chain;
    assert (before + [p.cycle])[..|before|] == before;
  }

  lemma StartKeepsChain(s: State, l: Label, s': State)
    requires ChainOk(s) && l.Start? && Step(s, l, s')
    ensures ChainOk(s')
  {
    StartContinues(s.main, Chain(s), l.readFails, s'.phase.p);
    assert Chain(s') == Chain(s);
  }

  lemma ChainGrows(persisted: seq<Cycle>, since: nat, p: Pending)
    requires since <= |persisted| && Continues(p, persisted[since..])
    ensures Holds(Some(Complete(p.known)), (persisted + [p.cycle])[if p.isBaseline then |persisted| else since..])
  {
    assert (persisted + [p.cycle])[if p.isBaseline then |persisted| else since..] ==
           (if p.isBaseline then [] else persisted[since..]) + [p.cycle];
  }

  lemma RenameStores(s: State, s': State)
    requires Step(s, Rename, s') && s.tmp == Some(Complete(s.phase.p.known))
    ensures s'.main == Some(Complete(s.phase.p.known)) && !s'.phase.HasPending()
    ensures s'.persisted == s.persisted + [s.phase.p.cycle]
    ensures s'.since == if s.phase.p.isBaseline then |s.persisted| else s.since
  {
  }

  lemma RenameKeepsChain(s: State, s': State)
    requires ChainOk(s) && Step(s, Rename, s')
    ensures ChainOk(s')
  {
    RenameStores(s, s');
    ChainGrows(s.persisted, s.since, s.phase.p);
    StoredIsOk(s');
  }

  lemma StoredIsOk(s: State)
    requires s.since <= |s.persisted| && Holds(s.main, Chain(s)) && !s.phase.HasPending()
    ensures ChainOk(s)
  {
  }

  /** What the other steps have in common: the file and its history stay as they are. */
  ghost predicate SameFile(s: State, s': State) {
    && s'.main == s.main && s'.persisted == s.persisted && s'.since == s.since
    && (s'.phase.HasPending() ==> s.phase.HasPending() && s'.phase.p == s.phase.p)
    && (s'.phase.Written? ==> s'.tmp == Some(Complete(s'.phase.p.known)))
  }

  lemma OtherStepsKeepFile(s: State, l: Label, s': State)
    requires Step(s, l, s') && !l.Start? && l != Rename
    requires s.phase.Written? ==> s.tmp == Some(Complete(s.phase.p.known))
    ensures SameFile(s, s')
  {
  }

  lemma SameFileKeepsChain(s: State, s': State)
    requires ChainOk(s) && SameFile(s, s')
    ensures ChainOk(s')
  {
    assert s.since <= |s.persisted| ==> Chain(s') == Chain(s);
  }

  lemma StepKeepsChain(s: State, l: Label, s': State)
    requires ChainOk(s) && Step(s, l, s')
    ensures ChainOk(s')
  {
    if l.Start? {
      StartKeepsChain(s, l, s');
    } else if l == Rename {
      RenameKeepsChain(s, s');
    } else {
      OtherStepsKeepFile(s, l, s');
      SameFileKeepsChain(s, s');
    }
  }

  lemma StepKeepsBaseline(s: State, l: Label, s': State)
    requires ChainOk(s) && OneBaseline(s) && Step(s, l, s')
    ensures OneBaseline(s')
  {
  }

  /** Refinement: through any number of crashes, failed saves and failed loads, the snapshot file is
      what the persisted cycles since the last baseline would have left in an uninterrupted run. */
  lemma {:induction false} PersistedCyclesAreARun(run: seq<State>, labels: seq<Label>)
    requires RunsTo(run, labels)
    ensures ChainOk(Last(run)) && OneBaseline(Last(run))
  {
    var n := |run| - 1;
    if n > 0 {
      PersistedCyclesAreARun(run[..n], labels[..n - 1]);
      StepKeepsChain(run[n - 1], labels[n - 1], run[n]);
      StepKeepsBaseline(run[n - 1], labels[n - 1], run[n]);
    }
  }

  /** So the persisted events replay from the baseline to the current snapshot and alternate for
      every T1; all persisted cycles count as long as every load worked. */
  lemma PersistedEventsReplay(run: seq<State>, labels: seq<Label>)
    requires RunsTo(run, labels) && Last(run).main.Some?
    ensures MainWhole(Last(run)) && ChainOk(Last(run))
    ensures var known, chain := Last(run).main.value.known, Chain(Last(run));
            && chain != [] && Apply(chain[0].live.Keys, Log(chain)) == known.Keys
            && (forall id :: Alternates(id in chain[0].live, Kinds(Log(chain), id), id in known))
            && |known| == |chain[0].live| + Count(Log(chain), Created) - Count(Log(chain), Deleted)
    ensures !Last(run).misread ==> Chain(Last(run)) == Last(run).persisted
  {
    PersistedCyclesAreARun(run, labels);
    MainNeverTorn(run, labels);
    var chain := Chain(Last(run));
    StoredIsLive(chain);
    LogReplays(chain);
    EventsConserve(chain);
    forall id ensures Alternates(id in chain[0].live, Kinds(Log(chain), id), id in Stored(chain)) {
      EventsAlternate(chain, id);
    }
  }

  /** First-seen through crashes and failed saves: it is the second of the persisted cycle in which
      the current persisted presence began. */
  lemma PersistedFirstSeen(run: seq<State>, labels: seq<Label>, id: string, sec: int)
    requires RunsTo(run, labels) && Last(run).main.Some?
    ensures MainWhole(Last(run)) && ChainOk(Last(run))
    ensures var known, chain := Last(run).main.value.known, Chain(Last(run));
            id in known && known[id].firstSeen == sec <==>
            exists j :: PresentSince(chain, id, j) && InSecond(chain[j].now, sec)
  {
    PersistedCyclesAreARun(run, labels);
    MainNeverTorn(run, labels);
    FirstSeenIsStartOfPresence(Chain(Last(run)), id, sec);
  }

  // ---- The next cycle finds the change again ------------------------------------------------

  /** A path of one cycle: the start, and no other. */
  ghost predicate OneCycle(path: seq<State>, labels: seq<Label>) {
    IsPath(path, labels) && labels != [] && labels[0].Start? && forall l | l in labels[1..] :: !l.Start?
  }

  lemma StartOfCycle(path: seq<State>, labels: seq<Label>)
    requires OneCycle(path, labels)
    ensures Step(path[0], labels[0], path[1])
    ensures |labels| > 1 ==> OneCycle(path[..|labels|], labels[..|labels| - 1]) && !Last(labels).Start?
    decreases |labels|
  {
    var n := |labels|;
    if n > 1 {
      var front := labels[..n - 1];
      assert Last(labels) in labels[1..];
      forall l | l in front[1..] ensures !l.Start? { assert l in labels[1..]; }
      StartOfCycle(path[..n], front);
    }
  }

  /** Until the rename the file is as it was, and from then on it holds the new snapshot. */
  lemma {:induction false} CycleLeaves(path: seq<State>, labels: seq<Label>)
    requires OneCycle(path, labels)
    ensures path[1].phase.Diffed?
    ensures var p := path[1].phase.p;
            && Last(path).main == (if Rename in labels then Some(Complete(p.known)) else path[0].main)
            && (Last(path).phase.HasPending() ==> Last(path).phase.p == p && Rename !in labels)
            && (Last(path).phase.Written? ==> Last(path).tmp == Some(Complete(p.known)))
  {
    StartOfCycle(path, labels);
    var n := |labels|;
    if n > 1 {
      CycleLeaves(path[..n], labels[..n - 1]);
      assert labels == labels[..n - 1] + [labels[n - 1]];
    }
  }

  lemma DiffEmptyIff(known: Known, live: Live, agg: Aggregates, now: int, events: seq<Event>)
    requires EventsOk(known, live, true, agg, now, events)
    ensures events == [] <==> live.Keys == known.Keys
  {
    var created, deleted :|
      && Enumerates(created, live.Keys - known.Keys)
      && Enumerates(deleted, known.Keys - live.Keys)
      && events == CreatedEvents(created, live, agg, now) + DeletedEvents(deleted, known, agg, now);
    EnumerationLength(created, live.Keys - known.Keys);
    EnumerationLength(deleted, known.Keys - live.Keys);
    assert live.Keys == known.Keys <==> live.Keys - known.Keys == {} && known.Keys - live.Keys == {};
  }

  /** What is found again, exactly: after one cycle, however it ended, the next one over the same
      inventory has events if and only if there was a change, the first cycle did not get to its
      rename, and the file can be read. */
  lemma EmitsAgainIff(path: seq<State>, labels: seq<Label>, l: Label, next: State)
    requires OneCycle(path, labels) && MainWhole(path[0])
    requires l.Start? && l.live == labels[0].live && Step(Last(path), l, next)
    ensures next.phase.p.cycle.events != [] <==>
            && path[0].main.Some? && l.live.Keys != path[0].main.value.known.Keys
            && Rename !in labels && !l.readFails
  {
    StartOfCycle(path, labels);
    CycleLeaves(path, labels);
    var (base, baselined) := Load(Last(path).main, l.readFails);
    if baselined {
      DiffEmptyIff(base, l.live, l.agg, l.now, next.phase.p.cycle.events);
    }
  }

  /** And then it repeats for every T1 just what the first one found, if that could read the file. */
  lemma SameChangeAgain(path: seq<State>, labels: seq<Label>, l: Label, next: State, id: string)
    requires OneCycle(path, labels) && MainWhole(path[0]) && !labels[0].readFails
    requires l.Start? && l.live == labels[0].live && !l.readFails && Step(Last(path), l, next)
    ensures path[1].phase.Diffed?
    ensures Kinds(next.phase.p.cycle.events, id) ==
            if Rename in labels then [] else Kinds(path[1].phase.p.cycle.events, id)
  {
    StartOfCycle(path, labels);
    CycleLeaves(path, labels);
    EmitsAgainIff(path, labels, l, next);
    if Rename !in labels && path[0].main.Some? {
      var known := path[0].main.value.known;
      DiffMentions(known, l.live, l.agg, l.now, next.phase.p.cycle.events, id);
      DiffMentions(known, l.live, labels[0].agg, labels[0].now, path[1].phase.p.cycle.events, id);
    }
  }

  /** Nothing is emitted before the save is decided, and then only what the diff found. */
  ghost predicate EmittedSoFar(s: State, labels: seq<Label>, events: seq<Event>) {
    && (s.phase.HasPending() ==> Rename !in labels && FailSave !in labels && Emit !in labels)
    && (s.phase.Emitting? ==> s.phase.events == events && (Rename in labels || FailSave in labels))
    && !(Rename in labels && FailSave in labels)
    && (Emit in labels ==> events != [] && (Rename in labels || FailSave in labels))
  }

  lemma StepKeepsEmitted(s: State, labels: seq<Label>, l: Label, s': State, p: Pending)
    requires EmittedSoFar(s, labels, p.cycle.events) && (s.phase.HasPending() ==> s.phase.p == p)
    requires !l.Start? && Step(s, l, s')
    ensures EmittedSoFar(s', labels + [l], p.cycle.events)
  {
  }

  lemma {:induction false} CycleEmits(path: seq<State>, labels: seq<Label>)
    requires OneCycle(path, labels)
    ensures path[1].phase.Diffed? && EmittedSoFar(Last(path), labels, path[1].phase.p.cycle.events)
  {
    StartOfCycle(path, labels);
    var n := |labels|;
    if n > 1 {
      var front := labels[..n - 1];
      CycleEmits(path[..n], front);
      CycleLeaves(path[..n], front);
      StepKeepsEmitted(path[n - 1], front, labels[n - 1], path[n], path[1].phase.p);
      assert front + [labels[n - 1]] == labels;
    }
  }

  /** At most once, exactly: of a change of which one cycle emitted something, in full or up to a
      crash, the next one over the same inventory finds the events again if and only if the save of
      the first failed and the file can be read. */
  lemma RepeatsIff(path: seq<State>, labels: seq<Label>, l: Label, next: State)
    requires OneCycle(path, labels) && MainWhole(path[0])
    requires l.Start? && l.live == labels[0].live && Step(Last(path), l, next)
    ensures Emit in labels && next.phase.p.cycle.events != [] <==>
            Emit in labels && FailSave in labels && !l.readFails
  {
    EmitsAgainIff(path, labels, l, next);
    CycleEmits(path, labels);
    FoundEvents(path, labels);
  }

  /** A diff that found something compared a readable snapshot with other ids. */
  lemma FoundEvents(path: seq<State>, labels: seq<Label>)
    requires OneCycle(path, labels) && MainWhole(path[0])
    ensures path[1].phase.Diffed?
    ensures path[1].phase.p.cycle.events != [] <==>
            path[0].main.Some? && labels[0].live.Keys != path[0].main.value.known.Keys && !labels[0].readFails
  {
    StartOfCycle(path, labels);
    var l := labels[0];
    var (base, baselined) := Load(path[0].main, l.readFails);
    if baselined {
      DiffEmptyIff(base, l.live, l.agg, l.now, path[1].phase.p.cycle.events);
    }
  }

  // ---- A run in which it does --------------------------------------------------------------

  lemma PathOneMore(path: seq<State>, labels: seq<Label>, l: Label, s': State)
    requires IsPath(path, labels) && Step(Last(path), l, s')
    ensures IsPath(path + [s'], labels + [l])
  {
    assert (path + [s'])[..|path|] == path;
    assert (labels + [l])[..|labels|] == labels;
  }

  lemma {:induction false} PathsJoin(p: seq<State>, k: seq<Label>, q: seq<State>, m: seq<Label>)
    returns (path: seq<State>, labels: seq<Label>)
    requires IsPath(p, k) && IsPath(q, m) && Last(p) == q[0]
    ensures IsPath(path, labels) && path[0] == p[0] && Last(path) == Last(q)
    decreases |m|
  {
    path, labels := p, k;
    var n := |m|;
    if n > 0 {
      var front, ls := PathsJoin(p, k, q[..n], m[..n - 1]);
      PathOneMore(front, ls, m[n - 1], q[n]);
      path, labels := front + [q[n]], ls + [m[n - 1]];
    }
  }

  /** The state after `k` events of a running emission. */
  function Emitted(s: State, k: nat): State
    requires s.phase.Emitting? && k <= |s.phase.events| && (s.phase.saved ==> s.emitted != [])
  {
    var t := s.(phase := s.phase.(next := k));
    if s.phase.saved then t.(emitted := AppendToLast(s.emitted, s.phase.events[..k]))
    else t.(stray := s.stray + s.phase.events[..k])
  }

  lemma EmitsOneMore(s: State, k: nat)
    requires s.phase.Emitting? && k < |s.phase.events| && (s.phase.saved ==> s.emitted != [])
    ensures Step(Emitted(s, k), Emit, Emitted(s, k + 1))
  {
    var e := s.phase.events[k];
    assert s.phase.events[..k + 1] == s.phase.events[..k] + [e];
    if s.phase.saved {
      var m := |s.emitted| - 1;
      var now := Emitted(s, k).emitted;
      assert now[..m] == s.emitted[..m] && now[m] == s.emitted[m] + s.phase.events[..k];
      assert now[m] + [e] == s.emitted[m] + s.phase.events[..k + 1];
    } else {
      assert s.stray + s.phase.events[..k] + [e] == s.stray + s.phase.events[..k + 1];
    }
  }

  lemma {:induction false} EmitUpTo(s: State, k: nat) returns (path: seq<State>, labels: seq<Label>)
    requires s.phase.Emitting? && s.phase.next == 0 && k <= |s.phase.events|
    requires s.phase.saved ==> s.emitted != []
    ensures IsPath(path, labels) && path[0] == s && Last(path) == Emitted(s, k)
    decreases k
  {
    if k == 0 {
      path, labels := [s], [];
      NothingEmitted(s);
    } else {
      path, labels := EmitUpTo(s, k - 1);
      EmitsOneMore(s, k - 1);
      PathOneMore(path, labels, Emit, Emitted(s, k));
      path, labels := path + [Emitted(s, k)], labels + [Emit];
    }
  }

  lemma NothingEmitted(s: State)
    requires s.phase.Emitting? && s.phase.next == 0 && (s.phase.saved ==> s.emitted != [])
    ensures Emitted(s, 0) == s
  {
    assert s.phase.events[..0] == [];
    assert s.stray + [] == s.stray;
    if s.phase.saved {
      var m := |s.emitted| - 1;
      assert s.emitted[m] + [] == s.emitted[m];
      assert s.emitted == s.emitted[..m] + [s.emitted[m]];
    }
  }

  /** All events of an emission, and the end of the cycle. */
  lemma EmitToEnd(s: State) returns (path: seq<State>, labels: seq<Label>)
    requires s.phase.Emitting? && s.phase.next == 0 && (s.phase.saved ==> s.emitted != [])
    ensures IsPath(path, labels) && path[0] == s
    ensures Last(path) == Emitted(s, |s.phase.events|).(phase := Idle)
  {
    var k := |s.phase.events|;
    path, labels := EmitUpTo(s, k);
    var end := Emitted(s, k).(phase := Idle);
    PathOneMore(path, labels, Finish, end);
    path, labels := path + [end], labels + [Finish];
  }

  /** A cycle whose save fails at once. */
  lemma CycleWithFailedSave(s: State, live: Live, agg: Aggregates, now: int, events: seq<Event>)
    returns (path: seq<State>, labels: seq<Label>)
    requires s.phase == Idle && s.main.Some? && s.main.value.Complete?
    requires WellKeyed(live) && EventsOk(s.main.value.known, live, true, agg, now, events)
    ensures IsPath(path, labels) && path[0] == s
    ensures Last(path) == s.(stray := s.stray + events, saveFailed := true)
  {
    var p := Pending(Cycle(live, agg, now, events), false, KnownAfter(s.main.value.known, live, now));
    var a1 := s.(phase := Diffed(p));
    var a2 := a1.(phase := Emitting(events, 0, false), saveFailed := true);
    PathOneMore([s], [], Start(live, agg, now, false), a1);
    PathOneMore([s] + [a1], [] + [Start(live, agg, now, false)], FailSave, a2);
    var q, m := EmitToEnd(a2);
    path, labels := PathsJoin([s] + [a1] + [a2], [] + [Start(live, agg, now, false)] + [FailSave], q, m);
    assert events[..|events|] == events;
  }

  /** A cycle in which nothing goes wrong, up to the rename. */
  lemma SavePath(s: State, live: Live, agg: Aggregates, now: int, events: seq<Event>)
    returns (path: seq<State>, labels: seq<Label>)
    requires s.phase == Idle && s.main.Some? && s.main.value.Complete?
    requires WellKeyed(live) && EventsOk(s.main.value.known, live, true, agg, now, events)
    ensures IsPath(path, labels) && path[0] == s
    ensures var known := KnownAfter(s.main.value.known, live, now);
            Last(path) == s.(main := Some(Complete(known)), tmp := None, phase := Emitting(events, 0, true),
                             persisted := s.persisted + [Cycle(live, agg, now, events)],
                             emitted := s.emitted + [[]])
  {
    var p := Pending(Cycle(live, agg, now, events), false, KnownAfter(s.main.value.known, live, now));
    var b1 := s.(phase := Diffed(p));
    var b2 := b1.(phase := Writing(p), tmp := Some(Torn));
    var b3 := b2.(phase := Written(p), tmp := Some(Complete(p.known)));
    var b4 := b3.(main := Some(Complete(p.known)), tmp := None, phase := Emitting(events, 0, true),
                  persisted := s.persisted + [p.cycle], emitted := s.emitted + [[]]);
    path, labels := [s], [];
    PathOneMore(path, labels, Start(live, agg, now, false), b1);
    path, labels := path + [b1], labels + [Start(live, agg, now, false)];
    PathOneMore(path, labels, Open, b2);
    path, labels := path + [b2], labels + [Open];
    PathOneMore(path, labels, FinishWrite, b3);
    path, labels := path + [b3], labels + [FinishWrite];
    PathOneMore(path, labels, Rename, b4);
    path, labels := path + [b4], labels + [Rename];
  }

  lemma CycleWithSave(s: State, live: Live, agg: Aggregates, now: int, events: seq<Event>)
    returns (path: seq<State>, labels: seq<Label>)
    requires s.phase == Idle && s.main.Some? && s.main.value.Complete?
    requires WellKeyed(live) && EventsOk(s.main.value.known, live, true, agg, now, events)
    ensures IsPath(path, labels) && path[0] == s
    ensures var last := Last(path);
            && last.phase == Idle && last.stray == s.stray && last.emitted == s.emitted + [events]
            && last.persisted == s.persisted + [Cycle(live, agg, now, events)]
  {
    var a, k := SavePath(s, live, agg, now, events);
    var b, m := EmitToEnd(Last(a));
    path, labels := PathsJoin(a, k, b, m);
    LastBatch(s.emitted, events);
  }

  lemma LastBatch(batches: seq<seq<Event>>, events: seq<Event>)
    ensures AppendToLast(batches + [[]], events[..|events|]) == batches + [events]
  {
    var none: seq<Event> := [];
    assert (batches + [none])[..|batches|] == batches;
    assert none + events[..|events|] == events;
  }

  /** At-most-once needs the save to succeed: when it fails, the diff is emitted all the same, the
      file is unchanged, and the next cycle finds and emits the same change again. */
  lemma FailedSaveRepeats(s: State, live: Live, agg: Aggregates, now: int, events: seq<Event>,
                          agg2: Aggregates, now2: int, again: seq<Event>)
    returns (path: seq<State>, labels: seq<Label>)
    requires s.phase == Idle && s.main.Some? && s.main.value.Complete? && WellKeyed(live)
    requires EventsOk(s.main.value.known, live, true, agg, now, events)
    requires EventsOk(s.main.value.known, live, true, agg2, now2, again)
    ensures IsPath(path, labels) && path[0] == s
    ensures var last := Last(path);
            && last.phase == Idle && last.stray == s.stray + events && last.emitted == s.emitted + [again]
            && last.persisted == s.persisted + [Cycle(live, agg2, now2, again)]
  {
    var a, k := CycleWithFailedSave(s, live, agg, now, events);
    var b, m := CycleWithSave(Last(a), live, agg2, now2, again);
    path, labels := PathsJoin(a, k, b, m);
  }
}
