/** Whole runs of the HA watch: baselines against the observation history, and healing. */
module HaRuns {
  import opened Basics
  import opened Nsx
  import opened Consensus
  import opened Watchlist
  import opened WatchlistFacts
  import opened FetchPhase
  import opened HaCollector

  /** A restart loses the baselines, not the inventory file. */
  function Boot(st: SiteState, i: Input): SiteState {
    if i.restarted then st.(prevActive := map[]) else st
  }

  /** One cycle, after a restart if there was one. */
  function Advance(cfg: Config, st: SiteState, i: Input): SiteState {
    Cycle(cfg, Boot(st, i), i)
  }

  function RunFrom(cfg: Config, st: SiteState, ins: seq<Input>): SiteState {
    if ins == [] then st
    else var n := |ins| - 1; Advance(cfg, RunFrom(cfg, st, ins[..n]), ins[n])
  }

  /** From a first start without an inventory file. */
  function Run(cfg: Config, ins: seq<Input>): SiteState {
    RunFrom(cfg, SiteState(map[], map[]), ins)
  }

  // ---- Baselines -----------------------------------------------------------------------

  /** What the next cycle sees of cluster `c`; empty when it is not polled or does not answer. */
  function SeenOf(cfg: Config, st: SiteState, i: Input, c: string): Actives {
    if Effective(i) && c in T0Names(i.routers.value)
    then Seen(Polled(cfg, st.disk, i)[c].watch, c, i.replies)
    else map[]
  }

  /** The non-empty observations of cluster `c` since the last restart, oldest first. */
  function History(cfg: Config, ins: seq<Input>, c: string): seq<Actives> {
    if ins == [] then []
    else
      var n := |ins| - 1;
      var h := if ins[n].restarted then [] else History(cfg, ins[..n], c);
      var seen := SeenOf(cfg, Run(cfg, ins[..n]), ins[n], c);
      if seen == map[] then h else h + [seen]
  }

  lemma CycleRolls(cfg: Config, st: SiteState, i: Input, c: string)
    ensures var seen := SeenOf(cfg, st, i, c);
            PrevOf(Cycle(cfg, st, i).prevActive, c) ==
            if seen == map[] then PrevOf(st.prevActive, c) else Failover.NextBaseline(PrevOf(st.prevActive, c), seen)
  {
    if Effective(i) {
      var inv := Polled(cfg, st.disk, i);
      RolledAtOne(st.prevActive, SeenAll(inv, i.replies), inv.Keys, c);
      SeenAllAt(cfg, st, i, c);
    }
  }

  lemma SeenAllAt(cfg: Config, st: SiteState, i: Input, c: string)
    requires Effective(i)
    ensures var seen := SeenAll(Polled(cfg, st.disk, i), i.replies);
            (c in seen <==> c in T0Names(i.routers.value)) && (c in seen ==> seen[c] == SeenOf(cfg, st, i, c))
  {
  }

  lemma RolledAtOne(prev: map<string, Actives>, seen: map<string, Actives>, cs: set<string>, c: string)
    requires seen.Keys == cs
    ensures PrevOf(Rolled(prev, seen, cs), c) ==
            if HasAnswer(seen, c) then Failover.NextBaseline(PrevOf(prev, c), seen[c]) else PrevOf(prev, c)
  {
  }

  lemma AdvanceRolls(cfg: Config, st: SiteState, i: Input, c: string)
    ensures var seen := SeenOf(cfg, st, i, c);
            var prev := PrevOf(Boot(st, i).prevActive, c);
            PrevOf(Advance(cfg, st, i).prevActive, c) ==
            if seen == map[] then prev else Failover.NextBaseline(prev, seen)
  {
    CycleRolls(cfg, Boot(st, i), i, c);
  }

  lemma ReplayOneMore(h: seq<Actives>, seen: Actives)
    ensures Failover.Replay(h + [seen]) == Failover.NextBaseline(Failover.Replay(h), seen)
  {
    assert (h + [seen])[..|h|] == h;
  }

  lemma {:induction false} BaselineReplaysHistory(cfg: Config, ins: seq<Input>, c: string)
    ensures PrevOf(Run(cfg, ins).prevActive, c) == Failover.Replay(History(cfg, ins, c))
  {
    if ins != [] {
      var n := |ins| - 1;
      BaselineReplaysHistory(cfg, ins[..n], c);
      AdvanceRolls(cfg, Run(cfg, ins[..n]), ins[n], c);
      var h := if ins[n].restarted then [] else History(cfg, ins[..n], c);
      ReplayOneMore(h, SeenOf(cfg, Run(cfg, ins[..n]), ins[n], c));
    }
  }

  /** History refinement. After any run of cycles, with failing listings, failing saves and loads,
      vanishing clusters, watchlist substitutions and restarts, the baseline of `t` in cluster `c`
      is `n` exactly when `n` is the last ACTIVE node of `t` within the longest run of latest
      non-empty observations of `c` (since the last restart) that all contain `t`. */
  lemma BaselineRefinesHistory(cfg: Config, ins: seq<Input>, c: string, t: string, n: string)
    ensures var prev := PrevOf(Run(cfg, ins).prevActive, c);
            t in prev && prev[t] == n <==> exists j :: Failover.LastActiveAt(History(cfg, ins, c), t, n, j)
  {
    BaselineReplaysHistory(cfg, ins, c);
    Failover.BaselineIsHistory(History(cfg, ins, c), t, n);
  }

  /** Hence a T1 counts as changed exactly when it shows a node other than its last ACTIVE one. */
  lemma ChangedRefinesHistory(cfg: Config, ins: seq<Input>, i: Input, c: string, t: string)
    requires !i.restarted
    ensures var st := Run(cfg, ins);
            var seen := SeenOf(cfg, st, i, c);
            t in Failover.Changed(PrevOf(st.prevActive, c), seen) <==>
            t in seen && Moved(History(cfg, ins, c), seen, t)
  {
    BaselineReplaysHistory(cfg, ins, c);
    var seen := SeenOf(cfg, Run(cfg, ins), i, c);
    if t in seen {
      Failover.ChangedIffHistoryDiffers(History(cfg, ins, c), seen, t);
    }
  }

  /** `t` now shows an ACTIVE node other than its last one in the history `h`. */
  ghost predicate Moved(h: seq<Actives>, seen: Actives, t: string) {
    t in seen && exists n, j :: Failover.LastActiveAt(h, t, n, j) && seen[t] != "" && seen[t] != n
  }

  ghost function MovedT1s(h: seq<Actives>, seen: Actives): set<string> {
    set t | t in seen && Moved(h, seen, t)
  }

  /** The observations that the next cycle's baselines come from. */
  function HistoryFor(cfg: Config, ins: seq<Input>, i: Input, c: string): seq<Actives> {
    if i.restarted then [] else History(cfg, ins, c)
  }

  /** The failover rule over whole runs: a cycle emits an event for `c` if and only if at least
      half of the T1s it sees there have moved since their last ACTIVE node on record. The event
      has both totals, and the last node on record and the present node of one T1 that moved. */
  lemma EventIffHalfMoved(cfg: Config, ins: seq<Input>, i: Input, c: string, events: map<string, Failover.Event>)
    requires CycleEmits(cfg, Boot(Run(cfg, ins), i), i, events)
    ensures var seen := SeenOf(cfg, Run(cfg, ins), i, c);
            var h := HistoryFor(cfg, ins, i, c);
            && (c in events <==> seen != map[] && 2 * |MovedT1s(h, seen)| >= |seen|)
            && (c in events ==>
                  && events[c].observed == |seen| && events[c].changed == |MovedT1s(h, seen)|
                  && exists t, j :: t in MovedT1s(h, seen) && Failover.LastActiveAt(h, t, events[c].from, j)
                                    && events[c].to == seen[t])
  {
    var st := Boot(Run(cfg, ins), i);
    var seen := SeenOf(cfg, st, i, c);
    var event := if c in events then Some(events[c]) else None;
    EventPerCluster(cfg, st, i, c, events);
    if seen != map[] {
      ChangedAreMoved(cfg, ins, i, c);
      if event.Some? {
        EventNodesOnRecord(cfg, ins, i, c, WatchOf(Polled(cfg, st.disk, i), c).observed, events[c]);
      }
    }
  }

  /** The part of a cycle's events that concerns one cluster. */
  lemma EventPerCluster(cfg: Config, st: SiteState, i: Input, c: string, events: map<string, Failover.Event>)
    requires CycleEmits(cfg, st, i, events)
    ensures var seen := SeenOf(cfg, st, i, c);
            if seen == map[] then c !in events
            else Failover.EventOk(PrevOf(st.prevActive, c), seen, WatchOf(Polled(cfg, st.disk, i), c).observed,
                                  if c in events then Some(events[c]) else None)
  {
    if Effective(i) {
      SeenAllAt(cfg, st, i, c);
    }
  }

  lemma EventNodesOnRecord(cfg: Config, ins: seq<Input>, i: Input, c: string, observed: seq<Observed>,
                           e: Failover.Event)
    requires var st := Boot(Run(cfg, ins), i);
             Failover.Describes(PrevOf(st.prevActive, c), SeenOf(cfg, st, i, c), observed, e)
    ensures var seen := SeenOf(cfg, Run(cfg, ins), i, c);
            var h := HistoryFor(cfg, ins, i, c);
            exists t, j :: t in MovedT1s(h, seen) && Failover.LastActiveAt(h, t, e.from, j) && e.to == seen[t]
  {
    var prev := PrevOf(Boot(Run(cfg, ins), i).prevActive, c);
    var seen := SeenOf(cfg, Run(cfg, ins), i, c);
    ChangedAreMoved(cfg, ins, i, c);
    BaselineReplaysHistory(cfg, ins, c);
    var t :| t in Failover.Changed(prev, seen) && e.from == prev[t] && e.to == seen[t];
    Failover.BaselineIsHistory(HistoryFor(cfg, ins, i, c), t, e.from);
  }

  lemma ChangedAreMoved(cfg: Config, ins: seq<Input>, i: Input, c: string)
    ensures var seen := SeenOf(cfg, Run(cfg, ins), i, c);
            Failover.Changed(PrevOf(Boot(Run(cfg, ins), i).prevActive, c), seen) ==
            MovedT1s(HistoryFor(cfg, ins, i, c), seen)
  {
    var seen := SeenOf(cfg, Run(cfg, ins), i, c);
    BaselineReplaysHistory(cfg, ins, c);
    assert PrevOf(Boot(Run(cfg, ins), i).prevActive, c) == Failover.Replay(HistoryFor(cfg, ins, i, c));
    ChangedIsMoved(HistoryFor(cfg, ins, i, c), seen);
  }

  lemma ChangedIsMoved(h: seq<Actives>, seen: Actives)
    ensures Failover.Changed(Failover.Replay(h), seen) == MovedT1s(h, seen)
  {
    forall t ensures t in Failover.Changed(Failover.Replay(h), seen) <==> t in MovedT1s(h, seen) {
      if t in seen { Failover.ChangedIffHistoryDiffers(h, seen, t); }
    }
  }

  /** A cluster that goes away keeps its baselines: whatever happens while it is not polled, or
      polled without any answer, it comes back to be compared with what was last seen. */
  lemma {:induction false} BaselineSurvivesAbsence(cfg: Config, st: SiteState, ins: seq<Input>, c: string)
    requires forall k | 0 <= k < |ins| ::
               !ins[k].restarted && SeenOf(cfg, RunFrom(cfg, st, ins[..k]), ins[k], c) == map[]
    ensures PrevOf(RunFrom(cfg, st, ins).prevActive, c) == PrevOf(st.prevActive, c)
  {
    if ins != [] {
      var n := |ins| - 1;
      forall k | 0 <= k < n
        ensures !ins[..n][k].restarted && SeenOf(cfg, RunFrom(cfg, st, ins[..n][..k]), ins[..n][k], c) == map[]
      {
        assert ins[..n][..k] == ins[..k];
      }
      BaselineSurvivesAbsence(cfg, st, ins[..n], c);
      AdvanceRolls(cfg, RunFrom(cfg, st, ins[..n]), ins[n], c);
    }
  }

  /** The first cycle in which a cluster answers after a start or restart never emits for it. */
  lemma FirstAnswerSilent(cfg: Config, ins: seq<Input>, i: Input, c: string, events: map<string, Failover.Event>)
    requires History(cfg, ins, c) == [] || i.restarted
    requires CycleEmits(cfg, Boot(Run(cfg, ins), i), i, events)
    ensures c !in events
  {
    var st := Boot(Run(cfg, ins), i);
    BaselineReplaysHistory(cfg, ins, c);
    assert PrevOf(st.prevActive, c) == map[];
    EventPerCluster(cfg, st, i, c, events);
    var seen := SeenOf(cfg, st, i, c);
    if seen != map[] {
      Failover.FirstCycleSilent(seen, WatchOf(Polled(cfg, st.disk, i), c).observed,
                                if c in events then Some(events[c]) else None);
    }
  }

  // ---- Healing ---------------------------------------------------------------------------

  /** A cycle whose listing names no router twice. */
  ghost predicate CleanListing(i: Input) {
    i.routers.Some? ==> DistinctListing(i.routers.value)
  }

  ghost predicate CleanRun(ins: seq<Input>) {
    ins == [] || (CleanRun(ins[..|ins| - 1]) && CleanListing(ins[|ins| - 1]))
  }

  lemma {:induction false} T1sAreListed(routers: seq<Router>, c: string)
    ensures forall t | t in T1sOf(routers, c) :: t in routers
  {
    if routers != [] { T1sAreListed(routers[..|routers| - 1], c); }
  }

  lemma {:induction false} T1sDistinct(routers: seq<Router>, c: string)
    requires DistinctListing(routers)
    ensures DistinctListing(T1sOf(routers, c))
  {
    if routers != [] {
      var n := |routers| - 1;
      T1sDistinct(routers[..n], c);
      T1sAreListed(routers[..n], c);
      var front := T1sOf(routers[..n], c);
      forall k | 0 <= k < |front| ensures front[k].id != routers[n].id {
        assert front[k] in front;
      }
    }
  }

  /** What every stored watchlist satisfies in auto mode. */
  ghost predicate WatchOk(size: nat, w: Watch) {
    && DistinctIds(w.observed)
    && |w.observed| <= size
    && (forall o | o in w.observed :: !o.pinned)
    && w.miss.Keys <= Ids(w.observed)
    && (forall id | id in w.miss :: w.miss[id] == 1 || w.miss[id] == 2)
  }

  ghost predicate DiskOk(cfg: Config, disk: Inventory) {
    forall c | c in disk :: WatchOk(cfg.Size(), disk[c].watch)
  }

  /** One auto-mode refresh of a well-kept watchlist drops exactly the entries that are unlisted
      with a miss already on record, and afterwards the counters are exactly 1 for the observed
      T1s on their one grace cycle, and absent for all others. */
  lemma RefreshHeals(cfg: Config, w: Watch, t1s: seq<Router>, draws: seq<nat>)
    requires cfg.mode == Auto && WatchOk(cfg.Size(), w) && DistinctListing(t1s)
    ensures var r := Refresh(cfg, w, t1s, draws);
            && DistinctIds(r.observed) && |r.observed| <= cfg.Size()
            && (forall o | o in r.observed :: !o.pinned)
            && r.miss == map id | id in Ids(r.observed) - Listed(t1s) :: 1
    ensures forall id | id in Ids(w.observed) ::
              id in Ids(Refresh(cfg, w, t1s, draws).observed) <==> id in Listed(t1s) || id !in w.miss
  {
    var listed := NameById(t1s);
    var r := Refresh(cfg, w, t1s, draws);
    IndexesCoverListing(t1s);
    RefreshShape(cfg, w, t1s, draws);
    KeptAre(w, t1s);
    assert Kept(w, t1s) <= r.observed;
    PrefixIds(Kept(w, t1s), r.observed);
    forall o | o in w.observed ensures o.id in Ids(r.observed) <==> o.id in Listed(t1s) || o.id !in w.miss {
      NoLiveEntryDisplaced(cfg, w, t1s, draws, o);
    }
    RefreshUnpinned(cfg, w, t1s, draws);
    RefreshCounters(cfg, w, t1s, draws);
  }

  lemma RefreshUnpinned(cfg: Config, w: Watch, t1s: seq<Router>, draws: seq<nat>)
    requires cfg.mode == Auto && DistinctIds(w.observed) && (forall o | o in w.observed :: !o.pinned)
    ensures forall o | o in Refresh(cfg, w, t1s, draws).observed :: !o.pinned
  {
    HealIsFilter(w, NameById(t1s));
    SurvivorsAre(w.observed, NameById(t1s), w.miss);
    forall o | o in Refresh(cfg, w, t1s, draws).observed ensures !o.pinned {
      EntriesComeFrom(cfg, w, t1s, draws, o);
    }
  }

  lemma RefreshCounters(cfg: Config, w: Watch, t1s: seq<Router>, draws: seq<nat>)
    requires cfg.mode == Auto && WatchOk(cfg.Size(), w) && DistinctListing(t1s)
    ensures var r := Refresh(cfg, w, t1s, draws);
            r.miss == map id | id in Ids(r.observed) - Listed(t1s) :: 1
  {
    var r := Refresh(cfg, w, t1s, draws);
    UnlistedAreKept(cfg, w, t1s, draws);
    forall id ensures (id in r.miss <==> id in Ids(Kept(w, t1s)) - Listed(t1s)) && (id in r.miss ==> r.miss[id] == 1) {
      CounterAfter(w, t1s, id);
    }
    AllOnes(r.miss, Ids(Kept(w, t1s)) - Listed(t1s));
  }

  lemma AllOnes(miss: map<string, int>, ids: set<string>)
    requires forall id :: (id in miss <==> id in ids) && (id in miss ==> miss[id] == 1)
    ensures miss == map id | id in ids :: 1
  {
  }

  /** The observed T1s that are not listed are the unlisted survivors. */
  lemma UnlistedAreKept(cfg: Config, w: Watch, t1s: seq<Router>, draws: seq<nat>)
    requires DistinctIds(w.observed) && |w.observed| <= cfg.Size() && DistinctListing(t1s)
    ensures Ids(Refresh(cfg, w, t1s, draws).observed) - Listed(t1s) == Ids(Kept(w, t1s)) - Listed(t1s)
  {
    KeptAre(w, t1s);
    RefreshShape(cfg, w, t1s, draws);
    PrefixIds(Kept(w, t1s), Refresh(cfg, w, t1s, draws).observed);
  }

  lemma CounterAfter(w: Watch, t1s: seq<Router>, id: string)
    requires DistinctIds(w.observed) && (forall o | o in w.observed :: !o.pinned)
    requires w.miss.Keys <= Ids(w.observed) && forall id | id in w.miss :: w.miss[id] >= 1
    ensures var miss := Heal(w, NameById(t1s)).miss;
            (id in miss <==> id in Ids(Kept(w, t1s)) && id !in Listed(t1s)) && (id in miss ==> miss[id] == 1)
  {
    var listed := NameById(t1s);
    IndexesCoverListing(t1s);
    KeptAre(w, t1s);
    if id in Ids(w.observed) {
      HealCounts(w, listed);
      var o :| o in w.observed && o.id == id;
      assert CountedFor(o, listed, w.miss, Heal(w, listed).miss);
    } else {
      HealTouchesOnlyItsOwn(w, listed, id);
    }
  }

  /** The counters at the end of the cycle: one for being unlisted, one for a failed request. */
  lemma BumpAdds(w: Watch, listed: set<string>, missed: set<string>)
    requires w.miss == map id | id in Ids(w.observed) - listed :: 1
    requires missed <= Ids(w.observed)
    ensures var miss := Bump(w.miss, missed);
            && miss.Keys == (Ids(w.observed) - listed) + missed
            && forall id | id in miss :: miss[id] == (if id !in listed then 1 else 0) + (if id in missed then 1 else 0)
  {
  }

  /** The watchlist of cluster `c` as polled in a cycle, and as stored at its end. */
  function PolledWatch(cfg: Config, disk: Inventory, i: Input, c: string): Watch
    requires Effective(i) && c in T0Names(i.routers.value)
  {
    Polled(cfg, disk, i)[c].watch
  }

  function EndWatch(cfg: Config, disk: Inventory, i: Input, c: string): Watch
    requires Effective(i) && c in T0Names(i.routers.value)
  {
    var w := PolledWatch(cfg, disk, i, c);
    w.(miss := Bump(w.miss, Missed(w, c, i.replies)))
  }

  lemma CycleHeals(cfg: Config, disk: Inventory, i: Input, c: string)
    requires cfg.mode == Auto && DiskOk(cfg, disk) && CleanListing(i)
    requires Effective(i) && c in T0Names(i.routers.value)
    ensures WatchOk(cfg.Size(), EndWatch(cfg, disk, i, c))
    ensures var w := PolledWatch(cfg, disk, i, c);
            EndWatch(cfg, disk, i, c).miss.Keys ==
            (Ids(w.observed) - Listed(T1sOf(i.routers.value, c))) + Missed(w, c, i.replies)
  {
    var t1s := T1sOf(i.routers.value, c);
    var old_ := WatchOf(Loaded(disk, i), c);
    T1sDistinct(i.routers.value, c);
    assert WatchOk(cfg.Size(), old_);
    RefreshHeals(cfg, old_, t1s, DrawsFor(i, c));
    var w := PolledWatch(cfg, disk, i, c);
    BumpAdds(w, Listed(t1s), Missed(w, c, i.replies));
  }

  /** What a saved cycle leaves in the file. */
  lemma CycleStores(cfg: Config, st: SiteState, i: Input)
    requires Effective(i) && i.saveOk
    ensures var disk := Cycle(cfg, st, i).disk;
            && disk.Keys == T0Names(i.routers.value).Keys
            && forall c | c in disk :: disk[c] == Cluster(T0Names(i.routers.value)[c], EndWatch(cfg, st.disk, i, c))
  {
    PolledNames(cfg, st.disk, i);
    BumpedAll(Polled(cfg, st.disk, i), i.replies);
  }

  lemma PolledNames(cfg: Config, disk: Inventory, i: Input)
    requires Effective(i)
    ensures Polled(cfg, disk, i).Keys == T0Names(i.routers.value).Keys
    ensures forall c | c in Polled(cfg, disk, i) :: Polled(cfg, disk, i)[c].t0Name == T0Names(i.routers.value)[c]
  {
  }

  lemma BumpedAll(inv: Inventory, r: Replies)
    ensures var disk := Bumped(inv, MissedAll(inv, r), inv.Keys);
            disk.Keys == inv.Keys && forall c | c in inv :: disk[c] == BumpCluster(inv[c], Missed(inv[c].watch, c, r))
  {
  }

  lemma AdvanceKeepsDiskOk(cfg: Config, st: SiteState, i: Input)
    requires cfg.mode == Auto && DiskOk(cfg, st.disk) && CleanListing(i)
    ensures DiskOk(cfg, Advance(cfg, st, i).disk)
  {
    if Effective(i) && i.saveOk {
      CycleStores(cfg, Boot(st, i), i);
      var disk := Advance(cfg, st, i).disk;
      forall c | c in disk ensures WatchOk(cfg.Size(), disk[c].watch) {
        CycleHeals(cfg, st.disk, i, c);
      }
    }
  }

  /** In auto mode, over every run (failed saves and loads, restarts, clusters coming and going
      included), every stored watchlist repeats no T1, stays within size, and counts only T1s it
      observes, each at 1 or 2. */
  lemma {:induction false} RunKeepsDiskOk(cfg: Config, ins: seq<Input>)
    requires cfg.mode == Auto && CleanRun(ins)
    ensures DiskOk(cfg, Run(cfg, ins).disk)
  {
    if ins != [] {
      var n := |ins| - 1;
      RunKeepsDiskOk(cfg, ins[..n]);
      AdvanceKeepsDiskOk(cfg, Run(cfg, ins[..n]), ins[n]);
    }
  }

  // ---- Substitution in every mode ------------------------------------------------------------

  /** What every stored watchlist satisfies in any mode. */
  ghost predicate WatchFits(size: nat, w: Watch) {
    DistinctIds(w.observed) && |w.observed| <= size && forall id | id in w.miss :: w.miss[id] >= 1
  }

  ghost predicate DiskFits(cfg: Config, disk: Inventory) {
    forall c | c in disk :: WatchFits(cfg.Size(), disk[c].watch)
  }

  /** A counter left over from an earlier time under observation. */
  ghost predicate Leftover(w: Watch, id: string) {
    id !in Ids(w.observed) && id in w.miss
  }

  /** After a refresh an observed T1 has a miss on record exactly when it is unlisted or was just
      picked up with a leftover counter. */
  lemma RefreshFits(cfg: Config, w: Watch, t1s: seq<Router>, draws: seq<nat>)
    requires WatchFits(cfg.Size(), w) && DistinctListing(t1s)
    ensures var r := Refresh(cfg, w, t1s, draws);
            && WatchFits(cfg.Size(), r)
            && forall id | id in Ids(r.observed) :: id in r.miss <==> id !in Listed(t1s) || Leftover(w, id)
  {
    var listed := NameById(t1s);
    var r := Refresh(cfg, w, t1s, draws);
    IndexesCoverListing(t1s);
    RefreshShape(cfg, w, t1s, draws);
    KeptAre(w, t1s);
    HealCounts(w, listed);
    forall id ensures id in r.miss ==> r.miss[id] >= 1
              ensures id in Ids(r.observed) ==> (id in r.miss <==> id !in Listed(t1s) || Leftover(w, id))
    {
      if id in Ids(w.observed) {
        var o :| o in w.observed && o.id == id;
        assert CountedFor(o, listed, w.miss, r.miss);
        assert id in Ids(Kept(w, t1s)) <==> Survives(o, listed, w.miss);
      } else {
        HealTouchesOnlyItsOwn(w, listed, id);
        assert SameCount(id, w.miss, r.miss);
      }
    }
  }

  lemma CycleFits(cfg: Config, disk: Inventory, i: Input, c: string)
    requires DiskFits(cfg, disk) && CleanListing(i) && Effective(i) && c in T0Names(i.routers.value)
    ensures WatchFits(cfg.Size(), EndWatch(cfg, disk, i, c))
    ensures var w1 := PolledWatch(cfg, disk, i, c);
            forall id | id in Ids(w1.observed) ::
              id in EndWatch(cfg, disk, i, c).miss <==>
              || id !in Listed(T1sOf(i.routers.value, c)) || Leftover(WatchOf(Loaded(disk, i), c), id)
              || id in Missed(w1, c, i.replies)
  {
    T1sDistinct(i.routers.value, c);
    assert WatchFits(cfg.Size(), WatchOf(Loaded(disk, i), c));
    RefreshFits(cfg, WatchOf(Loaded(disk, i), c), T1sOf(i.routers.value, c), DrawsFor(i, c));
  }

  lemma AdvanceKeepsDiskFits(cfg: Config, st: SiteState, i: Input)
    requires DiskFits(cfg, st.disk) && CleanListing(i)
    ensures DiskFits(cfg, Advance(cfg, st, i).disk)
  {
    if Effective(i) && i.saveOk {
      CycleStores(cfg, Boot(st, i), i);
      var disk := Advance(cfg, st, i).disk;
      forall c | c in disk ensures WatchFits(cfg.Size(), disk[c].watch) {
        CycleFits(cfg, st.disk, i, c);
      }
    }
  }

  lemma {:induction false} RunKeepsDiskFits(cfg: Config, ins: seq<Input>)
    requires CleanRun(ins)
    ensures DiskFits(cfg, Run(cfg, ins).disk)
  {
    if ins != [] {
      var n := |ins| - 1;
      RunKeepsDiskFits(cfg, ins[..n]);
      AdvanceKeepsDiskFits(cfg, Run(cfg, ins[..n]), ins[n]);
    }
  }

  /** Two successive cycles that poll cluster `c`, the first one saved and the second one loaded. */
  ghost predicate Successive(i1: Input, i2: Input, c: string) {
    && CleanListing(i1) && Effective(i1) && c in T0Names(i1.routers.value) && i1.saveOk
    && CleanListing(i2) && Effective(i2) && c in T0Names(i2.routers.value) && i2.loadOk
  }

  /** Substitution, exactly, in every mode and from any reachable state: a T1 observed in the
      first of two successive cycles is gone from the second if and only if it is unlisted now and
      either it is pinned, or it was unlisted in the first cycle too, or its status request failed
      there, or the first cycle picked it up with a leftover counter. */
  lemma SubstitutedIff(cfg: Config, ins: seq<Input>, i1: Input, i2: Input, c: string, o: Observed)
    requires CleanRun(ins) && Successive(i1, i2, c)
    requires o in PolledWatch(cfg, Run(cfg, ins).disk, i1, c).observed
    ensures var disk0 := Run(cfg, ins).disk;
            var w1 := PolledWatch(cfg, disk0, i1, c);
            var w2 := PolledWatch(cfg, Run(cfg, ins + [i1]).disk, i2, c);
            o.id !in Ids(w2.observed) <==>
            && o.id !in Listed(T1sOf(i2.routers.value, c))
            && (|| o.pinned || o.id !in Listed(T1sOf(i1.routers.value, c)) || o.id in Missed(w1, c, i1.replies)
                || Leftover(WatchOf(Loaded(disk0, i1), c), o.id))
  {
    RunKeepsDiskFits(cfg, ins);
    assert (ins + [i1])[..|ins|] == ins;
    var st := Run(cfg, ins);
    StoredThenLoaded(cfg, st, i1, i2, c);
    CycleFits(cfg, st.disk, i1, c);
    T1sDistinct(i2.routers.value, c);
    GoneIff(cfg, EndWatch(cfg, st.disk, i1, c), T1sOf(i2.routers.value, c), DrawsFor(i2, c), o);
  }

  /** The second cycle refreshes what the first one stored. */
  lemma StoredThenLoaded(cfg: Config, st: SiteState, i1: Input, i2: Input, c: string)
    requires Successive(i1, i2, c)
    ensures PolledWatch(cfg, Advance(cfg, st, i1).disk, i2, c) ==
            Refresh(cfg, EndWatch(cfg, st.disk, i1, c), T1sOf(i2.routers.value, c), DrawsFor(i2, c))
  {
    CycleStores(cfg, Boot(st, i1), i1);
  }

  lemma GoneIff(cfg: Config, w: Watch, t1s: seq<Router>, draws: seq<nat>, o: Observed)
    requires WatchFits(cfg.Size(), w) && DistinctListing(t1s) && o in w.observed
    ensures o.id !in Ids(Refresh(cfg, w, t1s, draws).observed) <==>
            o.id !in Listed(t1s) && (o.pinned || o.id in w.miss)
  {
    NoLiveEntryDisplaced(cfg, w, t1s, draws, o);
    IndexesCoverListing(t1s);
  }

  /** In auto mode nothing is pinned and no counter is ever left over: the T1 goes exactly when it
      is unlisted now and the previous cycle recorded a miss for it. */
  lemma AutoSubstitutedIff(cfg: Config, ins: seq<Input>, i1: Input, i2: Input, c: string, o: Observed)
    requires cfg.mode == Auto && CleanRun(ins) && Successive(i1, i2, c)
    requires o in PolledWatch(cfg, Run(cfg, ins).disk, i1, c).observed
    ensures var w1 := PolledWatch(cfg, Run(cfg, ins).disk, i1, c);
            var w2 := PolledWatch(cfg, Run(cfg, ins + [i1]).disk, i2, c);
            o.id !in Ids(w2.observed) <==>
            && o.id !in Listed(T1sOf(i2.routers.value, c))
            && (o.id !in Listed(T1sOf(i1.routers.value, c)) || o.id in Missed(w1, c, i1.replies))
  {
    SubstitutedIff(cfg, ins, i1, i2, c, o);
    RunKeepsDiskOk(cfg, ins);
    var w0 := WatchOf(Loaded(Run(cfg, ins).disk, i1), c);
    assert WatchOk(cfg.Size(), w0);
    T1sDistinct(i1.routers.value, c);
    RefreshHeals(cfg, w0, T1sOf(i1.routers.value, c), DrawsFor(i1, c));
  }

  /** A cycle during which a T1 cannot be lost from `c`: the cycle never starts, or it polls `c`
      with a readable inventory and finds the T1 listed there. Status replies play no part. */
  ghost predicate KeepsListed(i: Input, c: string, id: string) {
    Effective(i) ==> c in T0Names(i.routers.value) && i.loadOk && id in Listed(T1sOf(i.routers.value, c))
  }

  /** Failed status requests alone never substitute a T1: as long as it stays listed it stays
      observed, in every mode, however many of its status requests fail in a row. */
  lemma {:induction false} StatusFailuresNeverSubstitute(cfg: Config, st: SiteState, ins: seq<Input>, c: string,
                                                         id: string)
    requires DiskFits(cfg, st.disk)
    requires c in st.disk && id in Ids(st.disk[c].watch.observed)
    requires CleanRun(ins) && forall i | i in ins :: KeepsListed(i, c, id)
    ensures var disk := RunFrom(cfg, st, ins).disk;
            DiskFits(cfg, disk) && c in disk && id in Ids(disk[c].watch.observed)
  {
    if ins != [] {
      var n := |ins| - 1;
      assert ins[n] in ins;
      StatusFailuresNeverSubstitute(cfg, st, ins[..n], c, id);
      ListedStays(cfg, RunFrom(cfg, st, ins[..n]), ins[n], c, id);
    }
  }

  lemma ListedStays(cfg: Config, st: SiteState, i: Input, c: string, id: string)
    requires DiskFits(cfg, st.disk) && CleanListing(i) && KeepsListed(i, c, id)
    requires c in st.disk && id in Ids(st.disk[c].watch.observed)
    ensures var disk := Advance(cfg, st, i).disk;
            DiskFits(cfg, disk) && c in disk && id in Ids(disk[c].watch.observed)
  {
    AdvanceKeepsDiskFits(cfg, st, i);
    if Effective(i) && i.saveOk {
      CycleStores(cfg, Boot(st, i), i);
      T1sDistinct(i.routers.value, c);
      var o :| o in st.disk[c].watch.observed && o.id == id;
      GoneIff(cfg, st.disk[c].watch, T1sOf(i.routers.value, c), DrawsFor(i, c), o);
    }
  }

  // ---- Cluster agreement -------------------------------------------------------------------

  /** After every saved cycle the inventory file holds exactly the clusters that
      --print-clusters reports for the same listing, under the same names. */
  lemma InventoryAgreesWithPrintClusters(cfg: Config, st: SiteState, i: Input, site: string, out: seq<T0Cluster>,
                                         c: string, name: string)
    requires Effective(i) && i.saveOk && ListsClusters(i.routers.value, site, out)
    ensures var disk := Cycle(cfg, st, i).disk;
            c in disk && disk[c].t0Name == name <==> T0Cluster(site, c, name) in out
  {
    var inv := Polled(cfg, st.disk, i);
    if T0Cluster(site, c, name) in out {
      var k :| 0 <= k < |out| && out[k] == T0Cluster(site, c, name);
    }
  }
}
