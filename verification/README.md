# Model of the NSX collector's stateful core

The collector polls an NSX manager in cycles and turns what it sees into metrics, failover events,
lifecycle events and alerts. This project models the parts of it that keep state between cycles, or
that run concurrently, and proves what holds after every step and over whole runs.

| file | what it models |
|---|---|
| `Basics.dfy`, `Nsx.dfy` | Go's string order, sorting, cardinality and sums; the router and watchlist records |
| `Consensus.dfy` | tally of ACTIVE nodes and the mode with its lexical tie-break |
| `Failover.dfy` | diff of one cluster against its in-memory baseline, the majority rule, the baseline as a function of the observation history |
| `Goroutines.dfy` | the life of a request goroutine behind a semaphore, shared by both fetches |
| `FetchPhase.dfy` | the bounded-parallel status fetch as interleaved steps of its goroutines |
| `Watchlist.dfy`, `WatchlistFacts.dfy` | the self-healing watchlist: refresh in place over an array, its specification, and what one refresh guarantees |
| `HaCollector.dfy`, `HaRuns.dfy` | one HA cycle over all edge clusters, and whole runs with restarts and failing calls |
| `T1Detector.dfy`, `T1Runs.dfy`, `T1Persistence.dfy` | the T1 lifecycle differ, whole runs of it, and its snapshot file under crashes |
| `RateCalculator.dfy` | bandwidth from wrapping byte counters |
| `AlertCooldown.dfy` | check, unlocked query, re-check and claim, by any number of callers |
| `Scheduler.dfy` | the collection loop, its workers and its done channel |
| `Capacity.dfy` | T1, segment and gateway-policy aggregation and the composite group keys |
| `NatFetch.dfy` | the paced, cancellable, bounded-parallel NAT fetch as interleaved steps |

Code that changes state in place is a class or a method with loops (the watchlist keeps its backing
array, so the compaction reads and writes the same cells), proved equal to a specification function
or relation; the lemmas are about that specification. Concurrent code is a state machine whose steps
are the atomic sections, and its results hold for every interleaving.

Conventions. Randomness is a sequence of draws that may end early (the random source failing). Go's
map iteration order is an arbitrary choice in every method, so every contract holds for all orders.
A status request is a lookup in a map of replies, and a missing entry is a failed request. Times are
integers in nanoseconds and rates are reals. A missing file is an empty inventory or no snapshot.

## Where the code and its documentation differ

The model follows the code.

- `docs/HA-COLLECTION.md` says a T1 whose status is 404 for two cycles is substituted. The refresh
  resets the counter of every listed T1, so failed status requests alone never substitute one
  (`HaRuns.StatusFailuresNeverSubstitute`). One failed request does cost an unpinned T1 its grace
  cycle: it is gone the first time it is unlisted (`HaRuns.SubstitutedIff`).
- The same text gives every observed T1 two cycles. A pinned T1 is dropped the first time it is
  unlisted, and its counter stays behind (`WatchlistFacts.PinnedDropLeavesCounter`; exactly which
  counters do: `WatchlistFacts.CounterLeftBehindIff`).
- Hybrid mode is described as starting from the configured names. It starts from the survivors: all
  configured names are observed if and only if they fit into the target size together with them
  (`WatchlistFacts.PinsObservedIff`).
- README and code single out clusters with fewer than three observed T1s. The special case never
  changes the threshold (`Failover.ThresholdIsCeilingOfHalf`).
- The target of a failover event need not be the new consensus node
  (`Failover.TargetMayMissConsensus`). It always is if and only if every changed T1 moved there
  (`Failover.TargetAlwaysIff`).
- README and `docs/HA-COLLECTION.md` promise an event when half of the observed T1s changed. The code
  counts only those that answered, so failed status requests lower the bar, down to one T1 that
  decides alone (`Failover.OneAnswerDecides`; exactly when the two rules agree:
  `Failover.DocumentedRuleHoldsIff`).
- The differ's refresh is said to keep the snapshot accurate. It misses changes of only the parent's
  id or kind (`T1Detector.StaleIff`, `T1Runs.StoredViewIsLastVisibleChange`).
- README calls the scheduler free of races. That holds until cancellation. From then on, and exactly
  until the main goroutine notices, the timer can win the select and start a second collection of a
  worker that is still collecting (`Scheduler.OverlapPossibleIff`). The model is untimed: in the
  running program the timer can only win when it is already due, because the cancellation comes while
  waiting, the process stalls for an interval, or the interval is not positive.
- README says shutdown waits for the goroutines to drain. On cancellation the main goroutine waits for
  no worker: it can be gone while any collection is still in flight (`Scheduler.StopsCollectingIff`).

Three guarantees that the code suggests have limits, which are proved exactly.

- Saving before emitting is meant to emit each change at most once. The next cycle finds a change
  again if and only if the previous one did not reach its rename (`T1Persistence.EmitsAgainIff`). A
  change of which something has been emitted, in full or up to a crash, is found again if and only if
  its save had failed and the file can be read (`T1Persistence.RepeatsIff`).
- Interfaces are meant to keep separate counters. They are kept by display name, for all sites in one
  map. Two nodes can share them if and only if their names are equal or one name followed by a colon
  starts the other (`RateCalculator.NodesCollideIff`, for a whole fleet
  `RateCalculator.FleetSeparateIff`).
- Groups are meant to hold one (kind, name, id) triple each. Two different triples can merge if and
  only if they are of one kind and one name followed by a pipe starts the other
  (`Capacity.ParentsMergeIff`).

## Model

| member | source | states |
|---|---|---|
| Consensus.CountNodes | internal/collector/ha.go:240-246 | the counters hold, for every node named by some seen T1 and for no other, the number of T1s naming it |
| Consensus.MostFrequent | internal/collector/ha.go:465-477 | for any map order: the maximal positive count and the lexically smallest key holding it, ("", 0) if there is none |
| Consensus.ModeUnique | internal/collector/ha.go:463-464 | the consensus is deterministic: no two answers meet the contract |
| Consensus.TallyConserved | internal/collector/ha.go:240-246 | the counts sum to the number of seen T1s with an ACTIVE node |
| Consensus.ConsensusWithinObserved | internal/influxdb/points.go:439-442 | consensus count <= observed, so the outlier clamp never fires, and no node outvotes the consensus |
| Failover.FindName | internal/collector/ha.go:269-276 | the display name of the first watchlist entry with the id, or the id |
| Failover.NameIsThatOfFirst | internal/collector/ha.go:269-276 | the same without recursion: the name of the entry no earlier one shares the id with, or the id when none has it |
| Failover.CollectChanged | internal/collector/ha.go:260-281 | each changed T1 is collected exactly once, and (from, to) belong to one of them |
| Failover.RollBaseline | internal/collector/ha.go:283-295 | the next baseline covers exactly the seen T1s that have a node now or had one before, gaps keeping the old node |
| Failover.DiffCluster | internal/collector/ha.go:253-321 | an event iff at least half of the seen T1s changed; it reports both totals, the sorted names of exactly the changed T1s, and the nodes of one of them |
| Failover.ThresholdIsCeilingOfHalf | internal/collector/ha.go:298-305 | the threshold is ceil(observed / 2) for every observed > 0, below three included |
| Failover.EventNodes | internal/collector/ha.go:268-321 | from and to are non-empty and different; both totals are those of the seen and the changed T1s; the names are sorted and exactly those of the changed T1s |
| Failover.ConsensusMoveFires | internal/collector/ha.go:238-321 | if all seen T1s had baseline A and another consensus node holds at least half, an event with from = A fires |
| Failover.CommonBaselineFiresIff | internal/collector/ha.go:253-321 | over a common baseline A an event fires iff at least half of the seen T1s report a node other than A |
| Failover.AnyChangedMayNameTheEvent | internal/collector/ha.go:262-280 | any changed T1 can be the one whose nodes label the event |
| Failover.TargetAlwaysIff | internal/collector/ha.go:262-281 | every event a cycle can emit names b as target iff all changed T1s moved to b |
| Failover.CommonBaselineTargetIff | internal/collector/ha.go:238-281 | over a common baseline a: iff every ACTIVE node reported is a or b |
| Failover.TargetMayMissConsensus | internal/collector/ha.go:278-279 | a concrete cycle with consensus B whose event says A to C |
| Failover.DocumentedRuleHoldsIff | internal/collector/ha.go:298-305 | for n observed T1s the code's rule and the documented ceil(n/2) agree for every baseline iff no possible number of changes lies between half of the T1s that answered and half of n |
| Failover.OneAnswerDecides | internal/collector/ha.go:298-321 | an instance: one T1 answers and changed, and an event fires whatever the size of the watchlist |
| Failover.FirstCycleSilent | internal/collector/ha.go:253-267 | without baseline no event |
| Failover.StableNodesSilent | internal/collector/ha.go:262-281 | if every baselined T1 keeps its node or shows none, no event, whatever T1s were substituted in |
| Failover.RepeatIsSilent | internal/collector/ha.go:253-305 | repeating an observation emits nothing and leaves the baseline fixed |
| Failover.BaselineIsHistory | internal/collector/ha.go:283-295 | the baseline of a T1 is its last ACTIVE node within the longest run of latest observations that all contain it, and only that |
| Failover.ChangedIffHistoryDiffers | internal/collector/ha.go:262-281 | a T1 counts as changed iff it now shows a node other than that last one |
| FetchPhase.ActiveNode | internal/collector/ha.go:200-218 | the node of the last ACTIVE row of a reply, "" if there is none; this is the node the answered map records |
| FetchPhase.AtMostFourInFlight | internal/collector/ha.go:162-181 | at most four status requests in flight in every state of every interleaving |
| FetchPhase.CanAcquireIff | internal/collector/ha.go:178-179 | a waiting goroutine can go ahead iff fewer than four hold a slot |
| FetchPhase.FinalMaps | internal/collector/ha.go:176-226 | after the join each observed T1 is in exactly one of the answered and the missed map, with its reply |
| FetchPhase.OutcomeIndependentOfInterleaving | internal/collector/ha.go:156-226 | two complete runs with the same replies end in the same maps |
| FetchPhase.SomeoneCanMove | internal/collector/ha.go:178-179 | until all goroutines have returned one of them can take a step |
| FetchPhase.RunLength | internal/collector/ha.go:175-226 | steps taken plus steps left is always four per observed T1 |
| FetchPhase.FinishedIffFullLength | internal/collector/ha.go:226 | all have returned exactly when four steps per T1 have been taken, so the join always ends |
| Watchlist.ShuffleInPlace | internal/collector/ha.go:480-489 | the array ends as the specified swap sequence, also when the random source fails |
| WatchlistFacts.ShufflePermutes | internal/collector/ha.go:479-489 | any draws only permute |
| WatchlistFacts.ShuffleReachesAll | internal/collector/ha.go:479-489 | and every order is the outcome of some draws |
| Watchlist.IndexListing | internal/collector/ha.go:349-355 | both lookups, the last of several entries winning |
| WatchlistFacts.NameByIdIsLast | internal/collector/ha.go:349-355 | an id stands for the display name of its last entry in the listing |
| WatchlistFacts.IdByNameIsLast | internal/collector/ha.go:349-355 | a display name stands for the id of its last entry |
| Watchlist.ClusterInventory.HealInPlace | internal/collector/ha.go:357-397 | the aliased compaction and its counters equal the fold over the old list, for lists with repeated ids too |
| Watchlist.ClusterInventory.AddPinnedNames | internal/collector/ha.go:403-420 | the list after the pinned step, including its possible overshoot by one |
| Watchlist.ClusterInventory.TopUpRandomly | internal/collector/ha.go:422-441 | the list after the random step |
| Watchlist.ClusterInventory.Append | internal/collector/ha.go:414-439 | append keeps the prefix, in the same array or a fresh one |
| Watchlist.ClusterInventory.RefreshWatchlist | internal/collector/ha.go:339-447 | the new watchlist and counters are `Refresh` of the old ones, and the dropped count is the number of entries not kept |
| Watchlist.ClusterInventory.BumpMissCounts | internal/collector/ha.go:451-461 | one more miss for exactly the missed ids |
| WatchlistFacts.HealIsFilter | internal/collector/ha.go:359-397 | for distinct ids step 1 is a filter by the original counters, order kept, and dropped + kept = old length |
| WatchlistFacts.HealCounts | internal/collector/ha.go:362-395 | counter of each entry: gone if listed or substituted, one up on the grace cycle, untouched if pinned and dropped |
| WatchlistFacts.HealTouchesOnlyItsOwn | internal/collector/ha.go:361-396 | no other counter changes |
| WatchlistFacts.KeptAre | internal/collector/ha.go:361-397 | an id survives step 1 iff it is listed, or unpinned with no miss that reaches two |
| WatchlistFacts.SurvivorsAreRenamed | internal/collector/ha.go:362-372 | a listed survivor carries the current display name unless that is empty; an unlisted one is unchanged |
| WatchlistFacts.RandomStep | internal/collector/ha.go:422-441 | distinct ids, prefix kept, and the size reached exactly when enough T1s exist |
| WatchlistFacts.RefreshShape | internal/collector/ha.go:336-447 | distinct ids, at most size, survivors first in their old order, nothing but survivors and listed T1s |
| WatchlistFacts.RefreshFillsExactly | internal/collector/ha.go:335-337 | in auto and in hybrid mode the length is min(size, survivors and listed T1s together), overshoot included; the size is the configured one, or 10 |
| WatchlistFacts.NoLiveEntryDisplaced | internal/collector/ha.go:335-338 | a list within size loses exactly its non-survivors; no listed T1 is displaced |
| WatchlistFacts.FullWatchlistIgnoresPins | internal/collector/ha.go:403-447 | a list full of survivors is left as it is, configured names or not |
| WatchlistFacts.PinsObservedIff | internal/collector/ha.go:399-447 | in pinned and hybrid mode all resolved configured names are observed iff, together with the survivors, they fit into the size |
| WatchlistFacts.PinsInConfiguredOrder | internal/collector/ha.go:403-420 | when not all configured names fit, none gets in while an earlier listed one stays out |
| WatchlistFacts.PinnedDropLeavesCounter | internal/collector/ha.go:374-384 | an unlisted pinned entry goes at once and its counter stays |
| WatchlistFacts.GraceCountOutlivesTrim | internal/collector/ha.go:385-393 | an entry on its grace cycle has a counter even if the trim removes it |
| WatchlistFacts.CounterLeftBehindIff | internal/collector/ha.go:361-446 | exactly when an entry leaves the watchlist and its counter stays: unlisted, and pinned with a count or on its grace cycle and trimmed |
| WatchlistFacts.EntriesComeFrom | internal/collector/ha.go:403-441 | every entry is a survivor, a listed configured name marked pinned, or an unpinned pick from the listing, by mode |
| WatchlistFacts.PinnedModeComplete | internal/collector/ha.go:403-420 | in pinned mode the list ends full or holds every configured listed T1 |
| HaCollector.GroupRouters | internal/collector/ha.go:106-120 | first TIER0 name per edge cluster, and the TIER1s of each cluster in order |
| HaCollector.T1sAreFiltered | internal/collector/ha.go:106-120 | the T1s of a cluster are its TIER1 routers, as often and in the order listed |
| HaCollector.EffectiveIff | internal/collector/ha.go:81-124 | a cycle does something iff the listing arrived and has a TIER0 on an edge cluster |
| HaCollector.PolledFrom | internal/collector/ha.go:126-147 | each polled record is the refresh of the stored one, or of an empty one if there is none or the file cannot be read |
| HaCollector.CycleLeavesAlone | internal/collector/ha.go:81-124 | an early exit changes nothing, a failed save leaves the file as it was |
| HaCollector.FetchDelivers | internal/collector/ha.go:229-234 | any finished interleaving of the fetch phase gives every cluster the answers and misses the cycle specification reads |
| HaCollector.RefreshClusters | internal/collector/ha.go:136-147 | every listed cluster is refreshed from its stored record or an empty one, under its current name |
| HaCollector.DropGone | internal/collector/ha.go:149-154 | exactly the clusters without a TIER0 are removed |
| HaCollector.Summarise | internal/collector/ha.go:238-251 | the summary carries a mode of the tally and the number of T1s seen |
| HaCollector.SummaryMeans | internal/collector/ha.go:238-251 | the number of T1s seen, the node most of them are ACTIVE on (lexically first among equals, "" if there is none) and how many are |
| HaCollector.HACollector.DiffOne | internal/collector/ha.go:229-321 | a cluster without answers changes nothing and emits nothing; otherwise baseline, event and summary as specified |
| HaCollector.HACollector.DiffClusters | internal/collector/ha.go:228-325 | all clusters, in any order: baselines rolled, counters bumped, one event or none and one summary each |
| HaCollector.HACollector.Process | internal/collector/ha.go:156-330 | fetch, diff and save: the file changes iff the save succeeds |
| HaCollector.HACollector.CollectHA | internal/collector/ha.go:81-333 | the new file and baselines are `Cycle` of the old ones, with the specified events and summaries, none at the early exits |
| HaRuns.BaselineRefinesHistory | internal/collector/ha.go:253-296 | after any run, with restarts, failures and vanishing clusters, the baseline of a T1 is the one its observation history defines |
| HaRuns.ChangedRefinesHistory | internal/collector/ha.go:262-281 | after any run a T1 counts as changed iff it differs from that history |
| HaRuns.EventIffHalfMoved | internal/collector/ha.go:298-321 | after any run a cycle emits an event for a cluster iff at least half of the seen T1s moved since their last ACTIVE node on record; it has both totals and the recorded and present node of one that moved |
| HaRuns.BaselineSurvivesAbsence | internal/collector/ha.go:149-154 | cycles in which a cluster is not polled or does not answer leave its baselines alone |
| HaRuns.FirstAnswerSilent | internal/collector/ha.go:60-62 | the first answering cycle after a start or restart emits nothing for the cluster |
| HaRuns.RefreshHeals | internal/collector/ha.go:357-397 | auto mode: right after a refresh the counters are exactly 1 for observed unlisted T1s and absent otherwise; an old entry stays iff listed or without a miss |
| HaRuns.BumpAdds | internal/collector/ha.go:449-461 | at the end of the cycle a counter is one for being unlisted plus one for a failed request |
| HaRuns.RunKeepsDiskOk | internal/collector/ha.go:126-154 | auto mode, every run: stored lists have distinct ids, fit the size, and count only observed T1s, at 1 or 2 |
| HaRuns.RunKeepsDiskFits | internal/collector/ha.go:126-154 | every mode, every run: distinct ids, within size, positive counters |
| HaRuns.SubstitutedIff | internal/collector/ha.go:357-397 | every mode: an observed T1 is gone in the next cycle iff unlisted now and pinned, unlisted before, failed before, or picked up with a leftover counter |
| HaRuns.AutoSubstitutedIff | internal/collector/ha.go:357-461 | auto mode: gone iff unlisted now and unlisted or failed in the previous cycle; so no T1 survives two unlisted cycles |
| HaRuns.StatusFailuresNeverSubstitute | internal/collector/ha.go:362-372 | a T1 that stays listed stays observed however many status requests fail |
| HaCollector.FirstTier0Names | internal/collector/ha.go:113-116 | a cluster is named after the first TIER0 listed on it |
| HaCollector.ListT0Clusters | internal/collector/ha.go:551-575 | one entry per edge cluster with a TIER0, no cluster twice, sorted by name |
| HaRuns.InventoryAgreesWithPrintClusters | internal/collector/ha.go:136-154 | after a saved cycle the file holds exactly the pairs that list reports |
| T1Detector.LimitResolver | internal/t1watch/detector.go:155-164 | a positive override is the limit, the default is it otherwise; so with a positive default every limit is positive |
| T1Detector.Snapshot.AddCreated | internal/t1watch/detector.go:73-101 | new T1s are added with the current second, known ones untouched, one event each unless baselining |
| T1Detector.Snapshot.RemoveDeleted | internal/t1watch/detector.go:103-128 | exactly the vanished entries are removed, one event each from the stored view |
| T1Detector.Snapshot.RefreshKnown | internal/t1watch/detector.go:130-149 | entries whose compared fields differ take the live view, first-seen and id kept |
| T1Detector.Detect | internal/t1watch/detector.go:40-153 | the snapshot becomes `KnownAfter`, the events are one per appearance then one per disappearance, none when baselining |
| T1Detector.EventsReport | internal/t1watch/detector.go:56-126 | every event has the time, the site total, and count and limit of the parent its T1 names, from the VRF or the T0 tables; a created one the live view, a deleted one the stored view |
| T1Detector.CreationsFirst | internal/t1watch/detector.go:73-128 | all created events come before all deleted ones |
| T1Detector.ByIdKeys | internal/t1watch/detector.go:51-54 | the index holds exactly the listed ids, each under its own |
| T1Detector.ByIdIsLast | internal/t1watch/detector.go:51-54 | of several entries of one id the last one counts |
| T1Detector.StaleIff | internal/t1watch/detector.go:130-148 | the stored view differs from the live one iff the T1 was known, edge cluster, parent name and own name agree, and the parent's id or kind moved |
| T1Runs.StoredIsLive | internal/t1watch/detector.go:73-108 | after every cycle the snapshot holds exactly the live ids |
| T1Runs.LogReplays | internal/t1watch/detector.go:73-128 | replaying all events over the baseline ids gives the live ids |
| T1Runs.EventsAlternate | internal/t1watch/detector.go:73-128 | for every T1 created and deleted strictly alternate, from its presence at baseline to its presence now |
| T1Runs.EventsConserve | internal/t1watch/detector.go:73-128 | snapshot size = baseline + created - deleted |
| T1Runs.FirstSeenIsStartOfPresence | internal/t1watch/detector.go:79-88 | first-seen is the second in which the current uninterrupted presence began |
| T1Runs.StoredViewIsLastVisibleChange | internal/t1watch/detector.go:130-148 | the stored view is the live view of the cycle where a compared field last changed |
| T1Persistence.MainNeverTorn | internal/t1watch/state.go:71-87 | with a crash anywhere the snapshot file is always complete and changes only by the rename, to the snapshot just diffed |
| T1Persistence.EmittedAtMostOnce | internal/collector/capacity.go:217-247 | per rename the emitted events are a prefix of the persisted ones; all of them once a crash-free cycle is over; nothing else unless a save failed |
| T1Persistence.PersistedCyclesAreARun | internal/collector/capacity.go:217-228 | through crashes, failed saves and failed loads the file holds what the persisted cycles since the last baseline would leave in an uninterrupted run |
| T1Persistence.PersistedEventsReplay | internal/collector/capacity.go:217-228 | the persisted events replay to the current snapshot, alternate per T1 and account for its size, through crashes and failed saves |
| T1Persistence.PersistedFirstSeen | internal/t1watch/detector.go:79-88 | first-seen is the second of the persisted cycle in which the current persisted presence began |
| T1Persistence.FailedSaveRepeats | internal/collector/capacity.go:224-241 | after a failed save any diff is emitted in full, and again in full by the next cycle |
| T1Persistence.EmitsAgainIff | internal/collector/capacity.go:213-247 | after one cycle, however it ended, the next over the same inventory has events iff there was a change, the rename was not reached, and the file can be read |
| T1Persistence.RepeatsIff | internal/collector/capacity.go:213-247 | at most once, exactly: a change of which something was emitted is found again iff the save had failed and the file can be read |
| T1Persistence.SameChangeAgain | internal/collector/capacity.go:213-247 | and then it repeats for each T1 exactly the events of the first |
| RateCalculator.RateCalculator.Calculate | internal/collector/rate.go:41-116 | both entries are overwritten on every call, and the result is `RateOf` the previous entries |
| RateCalculator.DeltaIsModular | internal/collector/rate.go:118-126 | the delta is (curr - prev) mod 2^64 and no step overflows |
| RateCalculator.DeltaRecovers | internal/collector/rate.go:118-126 | it recovers any true increment below 2^64 |
| RateCalculator.ResetExceedsBound | internal/collector/rate.go:78-82 | for int64 counters and gaps up to 737,869,762 s a counter that went down exceeds the bound |
| RateCalculator.ReportedIff | internal/collector/rate.go:54-82 | a rate is reported iff both counters are known, at least 10 s passed, neither went down nor outran 12.5 bytes per nanosecond, and the read is not stale |
| RateCalculator.ResetCanPassIff | internal/collector/rate.go:78-82 | a reset can pass for a rate iff 100 Gbit/s could move 2^63 + 1 bytes in the gap |
| RateCalculator.UtilizationBounds | internal/collector/rate.go:93-97 | percentages are 0 on a link of unknown speed, 100 iff the rate reaches the link's speed, exact below, never outside [0, 100] |
| RateCalculator.KeysCollideIff | internal/collector/rate.go:45-46 | rx and tx keys never coincide; equal directions do iff the joined names do |
| RateCalculator.ColonFreeNodesSeparate | internal/collector/rate.go:45-46 | with colon-free node names keys agree only if node and interface names do, so only namesakes clash |
| RateCalculator.NodesCollideIff | internal/collector/rate.go:45-46 | two nodes, told apart by site and id, can have interfaces that share a key iff their display names are equal or one followed by a colon starts the other |
| RateCalculator.OwnInterfacesCollideIff | internal/collector/rate.go:45-46 | under one display name a node's interfaces never share a key; under another name an interface has another key |
| RateCalculator.FleetSeparateIff | internal/collector/worker.go:142-201 | in a whole fleet no two interfaces share a key, whatever they are called, iff no display name clashes with another node's |
| RateCalculator.NamesakesShare | internal/collector/worker.go:142-201 | nodes of one display name always share equally named interfaces |
| RateCalculator.ColonsCanCollide | internal/collector/rate.go:45-46 | an instance: a colon in a node name |
| RateCalculator.EntriesPaired | internal/collector/rate.go:48-52 | rx and tx entries exist together with equal times |
| RateCalculator.EntryIsLastFiled | internal/collector/rate.go:48-52 | in every run an entry is the last reading filed under its joined name, whosever it is |
| RateCalculator.EntryIsOwnLast | internal/collector/rate.go:48-52 | for a node that keeps its display name and whose name clashes with no other node's, an interface's entries are its own previous reading, whatever other interfaces did |
| RateCalculator.BytesConserved | internal/collector/rate.go:24-25 | bytes behind reported rates plus discarded deltas equal the true total, in both directions, through any number of wraps |
| RateCalculator.RateIsSincePreviousSample | internal/collector/rate.go:51-61 | a rate covers exactly the interval since the previous sample and both counters were monotone over it |
| AlertCooldown.Evaluator.Check | internal/alerting/evaluator.go:138-144 | true iff the key is unclaimed or its last claim is at least three minutes old |
| AlertCooldown.Evaluator.RecheckAndClaim | internal/alerting/evaluator.go:111-119 | claims iff the check passes, and then records exactly this time |
| AlertCooldown.ClaimsAreSpaced | internal/alerting/evaluator.go:75-119 | under every interleaving the claims of a key are increasing and at least one cooldown apart |
| AlertCooldown.AlertsPerWindow | internal/alerting/evaluator.go:75-119 | any window of length W holds at most floor(W / cooldown) + 1 claims per key |
| AlertCooldown.SuppressedOnlyWhenRecent | internal/alerting/evaluator.go:78-119 | a call is suppressed only by a claim less than one cooldown before its own time |
| AlertCooldown.ChecksPassIffDue | internal/alerting/evaluator.go:78-119 | each of the two checks lets a call through iff its time is at least three minutes after every claim of its key |
| AlertCooldown.AlertsMeanSaturation | internal/alerting/evaluator.go:88-109 | whoever alerted had an answer with rx or tx at 90 % or more; whoever went quiet a failed query or both below |
| Scheduler.CyclesDoNotOverlap | internal/collector/scheduler.go:27-66 | until cancellation all earlier rounds are over and no worker collects twice at once |
| Scheduler.SendNeverBlocks | internal/collector/scheduler.go:52-57 | a finished worker can always send, also after runAll returned early |
| Scheduler.MainNeverStuck | internal/collector/scheduler.go:59-65 | when the round's workers are done the main goroutine can move on |
| Scheduler.EveryWorkerStarted | internal/collector/scheduler.go:48-58 | every round has all workers, and none is left out by the starting loop |
| Scheduler.OverlapPossibleIff | internal/collector/scheduler.go:36-65 | from any reachable state and without a further cancellation, a worker can come to collect twice at once iff it already does or the run is cancelled and the main goroutine has not stopped |
| Scheduler.StopsCollectingIff | internal/collector/scheduler.go:36-65 | the main goroutine can stop while a collection now in flight still is, without a further cancellation, iff the run is cancelled |
| Scheduler.OverlapAfterCancel | internal/collector/scheduler.go:36-65 | an instance with one worker |
| Capacity.LastPathSegment | internal/nsx/models.go:381-388 | the result of the backward scan |
| Capacity.LastSegmentIs | internal/nsx/models.go:381-388 | it is the slash-free suffix after the last slash |
| Capacity.ContainsIff | internal/collector/capacity.go:425-433 | the substring test holds iff the part occurs at some position |
| Capacity.AggregateT1s | internal/collector/capacity.go:140-189 | the live view; onVRF and onT0 are the numbers of T1s whose path does and does not lead to a VRF, the total all of them; each map counts its T1s per parent name, without zero entries |
| Capacity.LiveViewOf | internal/collector/capacity.go:150-174 | kind, parent and edge cluster of each live view: from the T0 or VRF the path leads to, or the last path segment when it leads nowhere |
| Capacity.EventCountsAreLiveCounts | internal/t1watch/detector.go:56-63 | the count in every event is the number of live T1s of that parent kind and name, at least 1 for a created one |
| Capacity.T1PathIsFirstMatch | internal/collector/capacity.go:425-431 | a Tier-1 path stands for the first T1 with that path, or its last segment |
| Capacity.ClassifyMeans | internal/collector/capacity.go:414-443 | exactly which paths get which of the five kinds, and whose name and id they carry |
| Capacity.ClassifyKinds | internal/collector/capacity.go:416 | the kind is one of the five, hence pipe-free |
| Capacity.SplitUndoesJoinIff | internal/collector/capacity.go:269-277 | a key splits into three parts always, and back into its parent iff the name has no pipe |
| Capacity.ParentsMergeIff | internal/collector/capacity.go:269-271 | two different (kind, name, id) triples can get one key iff they are of one kind and one name followed by a pipe starts the other |
| Capacity.JoinInjective | internal/collector/capacity.go:269-271 | so pipe-free names give different parents different keys |
| Capacity.GroupSegments | internal/collector/capacity.go:267-272 | the count per key is the number of segments with it, and the counts sum to the number of segments |
| Capacity.SegmentsCounted | internal/collector/capacity.go:267-272 | the count of a key is the number of segments whose path stands for it |
| Capacity.GroupScopes | internal/collector/capacity.go:298-308 | one policy adds one entry and its rules per scope that names a gateway |
| Capacity.GroupPolicies | internal/collector/capacity.go:296-309 | policy counts sum to the qualifying (policy, scope) pairs and rules to their weighted sum |
| Capacity.ScopesCounted | internal/collector/capacity.go:298-308 | a policy counts once, with all its rules, per scope that names a Tier-1 or Tier-0 |
| Capacity.ScopesCountedPerGateway | internal/collector/capacity.go:298-308 | and under the gateway that the scope stands for |
| Capacity.GroupIsOneParent | internal/collector/capacity.go:267-281 | with pipe-free names a group counts exactly one parent and reads back as it |
| Capacity.GroupRulesAreOneParents | internal/collector/capacity.go:296-309 | and its rules are those of that parent |
| Capacity.EmitGroups | internal/collector/capacity.go:273-281 | one correctly labelled point per key, none skipped, carrying the whole sum |
| Capacity.SegmentPoints | internal/collector/capacity.go:267-281 | a correctly labelled point per key with its number of segments, and the emitted counts add up to the number of segments |
| Capacity.EmitGateways | internal/collector/capacity.go:311-319 | one labelled gateway point per key with its policies and rules, none skipped, both totals carried |
| Capacity.PolicyPoints | internal/collector/capacity.go:296-319 | end to end: the emitted policies sum to the qualifying (policy, scope) pairs and the emitted rules to their weighted sum |
| Capacity.PointNamesParent | internal/collector/capacity.go:273-281 | the point of a parent with a pipe-free name carries its kind, name and id |
| Capacity.GatewayPointNamesParent | internal/collector/capacity.go:311-319 | so does a gateway point, with policies and rules in their places |
| NatFetch.InFlightWithinWidth | internal/collector/capacity.go:374-394 | in every state of every interleaving at most the configured number of NAT requests is in flight |
| NatFetch.OrderDoesNotMatter | internal/collector/capacity.go:400-407 | whatever the order of the appends, the list is the expected multiset of results |
| NatFetch.FinalResults | internal/collector/capacity.go:374-412 | at return: one result per launched T1 whose request succeeded and no other; all T1s launched unless a pause was cancelled, and then at least one |
| NatFetch.ResultsAreOfT1s | internal/collector/capacity.go:395-406 | each result has id, name, path and count of one launched T1 that answered, one for each |
| NatFetch.CanAcquireIff | internal/collector/capacity.go:344-347 | a waiting goroutine can go ahead iff fewer hold a slot than configured, or than four if that is not positive |
| NatFetch.SameResultsUpToOrder | internal/collector/capacity.go:374-412 | two uncancelled calls with the same answers return the same results up to order |
| NatFetch.NeverStuck | internal/collector/capacity.go:344-412 | with the default applied to the width, an unfinished call can always take a step, cancelled or not |
| NatFetch.RunLength | internal/collector/capacity.go:374-412 | at most five steps per T1, exactly that many for an uncancelled call that has returned, so every call returns |

## Left out

- HTTP calls, pagination, JSON decoding and retries: listings, replies and failures are inputs.
- InfluxDB points, Prometheus counters, Slack posts, screenshots and logging: events and summaries are returned values; a Slack post that fails after its claim is not distinguished.
- Case folding and trimming of the ACTIVE status and of the mode string: a status row carries a flag, the mode is a datatype.
- Transport-node names attached to points: labels only.
- Repeated ids inside one watchlist during the fetch: replies are per (cluster, T1), and stored watchlists never repeat an id when listings do not.
- Listings that name a router twice: the watchlist methods cover them, the statements about sizes and substitution assume distinct ids.
- Rounding of float64: rates, utilizations and thresholds are reals.
- Saturation of time differences beyond 292 years.
- The file's `Updated` field and JSON fidelity: saving and loading is the identity; for the HA inventory a save either replaces the file or leaves it.
- A nil query reader (Evaluate returns at once) and the query timeout: a query answers or fails.
- The points built from the NAT results: one label lookup each.
- LB credits, group inventory and the guessed parent of a VRF: straight counting and one string split.
- Configuration loading, status tables, message formatting: single-branch facts.
