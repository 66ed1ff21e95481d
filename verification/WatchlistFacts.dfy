/** What one watchlist refresh guarantees. */
module WatchlistFacts {
  import opened Basics
  import opened Nsx
  import opened Watchlist

  ghost predicate DistinctIds(obs: seq<Observed>) {
    forall i, j | 0 <= i < j < |obs| :: obs[i].id != obs[j].id
  }

  ghost predicate DistinctListing(t1s: seq<Router>) {
    forall i, j | 0 <= i < j < |t1s| :: t1s[i].id != t1s[j].id
  }

  function Listed(t1s: seq<Router>): set<string> {
    set t | t in t1s :: t.id
  }

  // ---- Step 1 is a filter ----------------------------------------------------------

  /** Listed, or missing for the first time and not pinned. */
  predicate Survives(o: Observed, listed: map<string, string>, miss: map<string, int>) {
    o.id in listed || (!o.pinned && Misses(miss, o.id) + 1 < MISS_THRESHOLD)
  }

  function Renamed(o: Observed, listed: map<string, string>): (r: Observed)
    ensures r.id == o.id && r.pinned == o.pinned
  {
    if o.id in listed && listed[o.id] != "" then o.(name := listed[o.id]) else o
  }

  function Survivors(obs: seq<Observed>, listed: map<string, string>, miss: map<string, int>): seq<Observed> {
    if obs == [] then []
    else
      var n := |obs| - 1;
      Survivors(obs[..n], listed, miss) + if Survives(obs[n], listed, miss) then [Renamed(obs[n], listed)] else []
  }

  /** The counter of `o` after step 1: reset when listed, untouched when a pinned entry is
      dropped, 1-up on the grace cycle, removed on substitution. */
  ghost predicate CountedFor(o: Observed, listed: map<string, string>, before: map<string, int>,
                             after: map<string, int>) {
    if o.id in listed then o.id !in after
    else if o.pinned then SameCount(o.id, before, after)
    else if Survives(o, listed, before) then o.id in after && after[o.id] == Misses(before, o.id) + 1
    else o.id !in after
  }

  ghost predicate SameCount(id: string, before: map<string, int>, after: map<string, int>) {
    (id in after <==> id in before) && (id in before ==> after[id] == before[id])
  }

  /** Step 1 touches no counter but those of its own entries. */
  lemma {:induction false} HealTouchesOnlyItsOwn(w: Watch, listed: map<string, string>, id: string)
    requires id !in Ids(w.observed)
    ensures SameCount(id, w.miss, Heal(w, listed).miss)
    decreases |w.observed|
  {
    if w.observed != [] {
      var n := |w.observed| - 1;
      var v := w.(observed := w.observed[..n]);
      assert w.observed[n] in w.observed;
      assert forall o | o in v.observed :: o in w.observed;
      HealTouchesOnlyItsOwn(v, listed, id);
    }
  }

  /** What step 1 does to the counter of each entry. */
  lemma {:induction false} HealCounts(w: Watch, listed: map<string, string>)
    requires DistinctIds(w.observed)
    ensures forall o | o in w.observed :: CountedFor(o, listed, w.miss, Heal(w, listed).miss)
    decreases |w.observed|
  {
    if w.observed != [] {
      var n := |w.observed| - 1;
      var v := w.(observed := w.observed[..n]);
      var o := w.observed[n];
      assert o.id !in Ids(v.observed);
      HealCounts(v, listed);
      HealTouchesOnlyItsOwn(v, listed, o.id);
      assert CountedFor(o, listed, w.miss, Heal(w, listed).miss);
      forall p | p in v.observed ensures CountedFor(p, listed, w.miss, Heal(w, listed).miss) {
        assert p.id in Ids(v.observed);
        assert SameCount(p.id, Heal(v, listed).miss, Heal(w, listed).miss);
      }
      assert forall p | p in w.observed :: p in v.observed || p == o;
    }
  }

  /** For a watchlist without repeated ids, the aliased in-place pass is a filter decided by the
      original counters: it keeps the survivors in their order. */
  lemma {:induction false} HealIsFilter(w: Watch, listed: map<string, string>)
    requires DistinctIds(w.observed)
    ensures Heal(w, listed).kept == Survivors(w.observed, listed, w.miss)
    ensures Heal(w, listed).dropped == |w.observed| - |Heal(w, listed).kept|
    decreases |w.observed|
  {
    if w.observed != [] {
      var n := |w.observed| - 1;
      var v := w.(observed := w.observed[..n]);
      HealIsFilter(v, listed);
      var o := w.observed[n];
      assert o.id !in Ids(v.observed);
      HealTouchesOnlyItsOwn(v, listed, o.id);
      HealOneFilters(Heal(v, listed), o, listed, w.miss);
    }
  }

  lemma HealOneFilters(h: Healing, o: Observed, listed: map<string, string>, miss: map<string, int>)
    requires SameCount(o.id, miss, h.miss)
    ensures var g := HealOne(h, o, listed);
            && g.kept == h.kept + (if Survives(o, listed, miss) then [Renamed(o, listed)] else [])
            && g.dropped == h.dropped + if Survives(o, listed, miss) then 0 else 1
  {
  }

  lemma {:induction false} SurvivorsAre(obs: seq<Observed>, listed: map<string, string>, miss: map<string, int>)
    requires DistinctIds(obs)
    ensures DistinctIds(Survivors(obs, listed, miss))
    ensures |Survivors(obs, listed, miss)| <= |obs|
    ensures forall s | s in Survivors(obs, listed, miss) ::
              exists o :: o in obs && Survives(o, listed, miss) && s == Renamed(o, listed)
    ensures forall o | o in obs && Survives(o, listed, miss) :: Renamed(o, listed) in Survivors(obs, listed, miss)
  {
    if obs != [] {
      var n := |obs| - 1;
      var rest := Survivors(obs[..n], listed, miss);
      SurvivorsAre(obs[..n], listed, miss);
      forall s | s in rest
        ensures s.id != obs[n].id && exists o :: o in obs && Survives(o, listed, miss) && s == Renamed(o, listed)
      {
        var o :| o in obs[..n] && Survives(o, listed, miss) && s == Renamed(o, listed);
        assert o in obs;
      }
      assert obs[n] in obs;
      assert forall o | o in obs :: o in obs[..n] || o == obs[n];
    }
  }

  // ---- The listing indexes ---------------------------------------------------------

  lemma {:induction false} IndexesCoverListing(t1s: seq<Router>)
    ensures NameById(t1s).Keys == Listed(t1s)
    ensures forall n | n in IdByName(t1s) :: IdByName(t1s)[n] in Listed(t1s)
  {
    if t1s != [] {
      var n := |t1s| - 1;
      IndexesCoverListing(t1s[..n]);
      ListedAppend(t1s[..n], t1s[n]);
      assert t1s == t1s[..n] + [t1s[n]];
    }
  }

  lemma ListedAppend(t1s: seq<Router>, t: Router)
    ensures Listed(t1s + [t]) == Listed(t1s) + {t.id}
  {
    assert forall x :: x in t1s + [t] <==> x in t1s || x == t;
  }

  // ---- Steps 2 and 3 ------------------------------------------------------------------

  lemma DistinctAppend(obs: seq<Observed>, o: Observed)
    requires DistinctIds(obs) && o.id !in Ids(obs)
    ensures DistinctIds(obs + [o])
  {
    forall i | 0 <= i < |obs| ensures obs[i].id != o.id {
      assert obs[i].id in Ids(obs);
    }
  }

  lemma {:induction false} PinnedStep(obs: seq<Observed>, names: seq<string>, t1s: seq<Router>, size: nat)
    requires DistinctIds(obs)
    ensures DistinctIds(AddPinned(obs, names, IdByName(t1s), size))
    ensures obs <= AddPinned(obs, names, IdByName(t1s), size)
    ensures Ids(AddPinned(obs, names, IdByName(t1s), size)) <= Ids(obs) + Listed(t1s)
    ensures |AddPinned(obs, names, IdByName(t1s), size)| <= (if |obs| >= size then |obs| + 1 else size)
    decreases |names|
  {
    var byName := IdByName(t1s);
    if names == [] {
    } else if names[0] !in byName || byName[names[0]] in Ids(obs) {
      PinnedStep(obs, names[1..], t1s, size);
    } else {
      var o := Observed(byName[names[0]], names[0], true);
      DistinctAppend(obs, o);
      IdsAppend(obs, o);
      IndexesCoverListing(t1s);
      if |obs| + 1 < size {
        PinnedStep(obs + [o], names[1..], t1s, size);
      }
    }
  }

  lemma {:induction false} CandidatesAre(t1s: seq<Router>, taken: set<string>)
    requires DistinctListing(t1s)
    ensures DistinctListing(Candidates(t1s, taken))
    ensures Listed(Candidates(t1s, taken)) == Listed(t1s) - taken
  {
    if t1s != [] {
      var n := |t1s| - 1;
      var c := Candidates(t1s[..n], taken);
      CandidatesAre(t1s[..n], taken);
      ListedAppend(t1s[..n], t1s[n]);
      ListedAppend(c, t1s[n]);
      assert t1s == t1s[..n] + [t1s[n]];
      assert t1s[n].id !in Listed(t1s[..n]);
      forall i | 0 <= i < |c| ensures c[i].id != t1s[n].id {
        assert c[i].id in Listed(c);
      }
    }
  }

  /** Any draws, even a random source that dies half way, only permute. */
  lemma {:induction false} ShufflePermutes<T>(s: seq<T>, i: int, draws: seq<nat>)
    requires i < |s|
    ensures multiset(ShuffleFrom(s, i, draws)) == multiset(s)
    ensures |ShuffleFrom(s, i, draws)| == |s|
    decreases i
  {
    if i > 0 && draws != [] {
      var k := draws[0] % (i + 1);
      ShufflePermutes(s[i := s[k]][k := s[i]], i - 1, draws[1..]);
    }
  }

  lemma {:induction false} ShuffleKeepsIds(s: seq<Router>, i: int, draws: seq<nat>)
    requires i < |s| && DistinctListing(s)
    ensures DistinctListing(ShuffleFrom(s, i, draws))
    ensures Listed(ShuffleFrom(s, i, draws)) == Listed(s)
    decreases i
  {
    if i > 0 && draws != [] {
      var k := draws[0] % (i + 1);
      var r := s[i := s[k]][k := s[i]];
      SwapKeepsIds(s, i, k);
      ShuffleKeepsIds(r, i - 1, draws[1..]);
    }
  }

  lemma SwapKeepsIds(s: seq<Router>, i: nat, k: nat)
    requires i < |s| && k < |s| && DistinctListing(s)
    ensures DistinctListing(s[i := s[k]][k := s[i]])
    ensures Listed(s[i := s[k]][k := s[i]]) == Listed(s)
  {
    var r := s[i := s[k]][k := s[i]];
    forall a, b | 0 <= a < b < |r| ensures r[a].id != r[b].id {
      assert r[a] == s[Swapped(i, k, a)] && r[b] == s[Swapped(i, k, b)];
    }
    SwapKeepsElements(s, i, k);
    SameElementsListed(r, s);
  }

  /** Where position `a` of the swapped sequence came from. */
  function Swapped(i: nat, k: nat, a: nat): nat {
    if a == i then k else if a == k then i else a
  }

  lemma SwapKeepsElements<T>(s: seq<T>, i: nat, k: nat)
    requires i < |s| && k < |s|
    ensures forall x :: x in s[i := s[k]][k := s[i]] <==> x in s
  {
    var r := s[i := s[k]][k := s[i]];
    assert multiset(r) == multiset(s);
    assert forall x :: x in r <==> x in multiset(r);
    assert forall x :: x in s <==> x in multiset(s);
  }

  lemma SameElementsListed(r: seq<Router>, s: seq<Router>)
    requires forall x :: x in r <==> x in s
    ensures Listed(r) == Listed(s)
  {
  }

  lemma {:induction false} IdCardinality(obs: seq<Observed>)
    requires DistinctIds(obs)
    ensures |Ids(obs)| == |obs|
  {
    if obs != [] {
      var n := |obs| - 1;
      IdCardinality(obs[..n]);
      assert obs == obs[..n] + [obs[n]];
      IdsAppend(obs[..n], obs[n]);
      assert obs[n].id !in Ids(obs[..n]);
    }
  }

  lemma IdsConcat(a: seq<Observed>, b: seq<Observed>)
    ensures Ids(a + b) == Ids(a) + Ids(b)
  {
    assert forall x :: x in a + b <==> x in a || x in b;
  }

  lemma DistinctConcat(a: seq<Observed>, b: seq<Observed>)
    requires DistinctIds(a) && DistinctIds(b) && Ids(a) !! Ids(b)
    ensures DistinctIds(a + b)
  {
    forall i, j | 0 <= i < |a| && 0 <= j < |b| ensures a[i].id != b[j].id {
      assert a[i].id in Ids(a) && b[j].id in Ids(b);
    }
  }

  lemma PicksAre(t1s: seq<Router>, taken: set<string>, draws: seq<nat>) returns (picks: seq<Observed>)
    requires DistinctListing(t1s)
    ensures picks == AsObserved(Shuffled(Candidates(t1s, taken), draws))
    ensures DistinctIds(picks) && Ids(picks) == Listed(t1s) - taken
  {
    var c := Candidates(t1s, taken);
    var s := Shuffled(c, draws);
    CandidatesAre(t1s, taken);
    ShufflePermutes(c, |c| - 1, draws);
    ShuffleKeepsIds(c, |c| - 1, draws);
    picks := AsObserved(s);
    ObservedIds(s);
  }

  lemma ObservedIds(t1s: seq<Router>)
    ensures Ids(AsObserved(t1s)) == Listed(t1s)
    ensures DistinctListing(t1s) ==> DistinctIds(AsObserved(t1s))
  {
    var obs := AsObserved(t1s);
    forall t | t in t1s ensures t.id in Ids(obs) {
      var i :| 0 <= i < |t1s| && t1s[i] == t;
      assert obs[i] in obs;
    }
    forall o | o in obs ensures o.id in Listed(t1s) {
      var i :| 0 <= i < |obs| && obs[i] == o;
      assert t1s[i] in t1s;
    }
  }

  lemma TakeIds(obs: seq<Observed>, n: int)
    requires DistinctIds(obs)
    ensures DistinctIds(Take(obs, n)) && Ids(Take(obs, n)) <= Ids(obs)
    ensures Take(obs, n) <= obs
  {
    assert forall o | o in Take(obs, n) :: o in obs;
  }

  /** The random step reaches the target size whenever the cluster has enough T1s. */
  lemma RandomStep(obs: seq<Observed>, t1s: seq<Router>, size: nat, draws: seq<nat>)
    requires DistinctIds(obs) && DistinctListing(t1s)
    ensures DistinctIds(TopUp(obs, t1s, size, draws))
    ensures obs <= TopUp(obs, t1s, size, draws)
    ensures Ids(TopUp(obs, t1s, size, draws)) <= Ids(obs) + Listed(t1s)
    ensures var all := |Ids(obs) + Listed(t1s)|;
            |TopUp(obs, t1s, size, draws)| == if |obs| >= size then |obs| else if all < size then all else size
  {
    var picks := PicksAre(t1s, Ids(obs), draws);
    PicksJoin(obs, picks, Listed(t1s), size - |obs|);
    PicksFill(obs, picks, Listed(t1s), size);
  }

  lemma PicksJoin(obs: seq<Observed>, picks: seq<Observed>, listed: set<string>, n: int)
    requires DistinctIds(obs) && DistinctIds(picks) && Ids(picks) == listed - Ids(obs)
    ensures DistinctIds(obs + Take(picks, n)) && Ids(obs + Take(picks, n)) <= Ids(obs) + listed
  {
    TakePicks(obs, picks, n);
    NewIdsAddUp(Ids(obs), listed);
  }

  lemma PicksFill(obs: seq<Observed>, picks: seq<Observed>, listed: set<string>, size: nat)
    requires DistinctIds(obs) && DistinctIds(picks) && Ids(picks) == listed - Ids(obs)
    ensures var all := |Ids(obs) + listed|;
            |obs + Take(picks, size - |obs|)| == if |obs| >= size then |obs| else if all < size then all else size
  {
    IdCardinality(obs);
    IdCardinality(picks);
    NewIdsAddUp(Ids(obs), listed);
    LengthTaken(picks, size - |obs|);
  }

  lemma LengthTaken(s: seq<Observed>, n: int)
    ensures |Take(s, n)| == if n <= 0 then 0 else if n < |s| then n else |s|
  {
  }

  lemma TakePicks(obs: seq<Observed>, picks: seq<Observed>, n: int)
    requires DistinctIds(obs) && DistinctIds(picks) && Ids(picks) !! Ids(obs)
    ensures DistinctIds(obs + Take(picks, n)) && Ids(obs + Take(picks, n)) <= Ids(obs) + Ids(picks)
  {
    TakeIds(picks, n);
    DistinctConcat(obs, Take(picks, n));
    IdsConcat(obs, Take(picks, n));
  }

  lemma NewIdsAddUp(ids: set<string>, listed: set<string>)
    ensures |ids + listed| == |ids| + |listed - ids| && ids + (listed - ids) == ids + listed
  {
    assert ids + listed == ids + (listed - ids);
  }

  // ---- The refresh as a whole --------------------------------------------------------

  function Kept(w: Watch, t1s: seq<Router>): seq<Observed> {
    Heal(w, NameById(t1s)).kept
  }

  function Min(a: nat, b: nat): nat { if a < b then a else b }

  /** The survivors by id. */
  lemma KeptAre(w: Watch, t1s: seq<Router>)
    requires DistinctIds(w.observed)
    ensures DistinctIds(Kept(w, t1s)) && |Kept(w, t1s)| <= |w.observed|
    ensures forall o | o in w.observed :: o.id in Ids(Kept(w, t1s)) <==> Survives(o, NameById(t1s), w.miss)
    ensures Ids(Kept(w, t1s)) <= Ids(w.observed)
  {
    var listed := NameById(t1s);
    var kept := Kept(w, t1s);
    HealIsFilter(w, listed);
    SurvivorsAre(w.observed, listed, w.miss);
    SurvivorIds(w.observed, listed, w.miss, kept);
  }

  lemma OneEntryPerId(obs: seq<Observed>, o: Observed, p: Observed)
    requires DistinctIds(obs) && o in obs && p in obs && o.id == p.id
    ensures o == p
  {
  }

  lemma SurvivorIds(obs: seq<Observed>, listed: map<string, string>, miss: map<string, int>, kept: seq<Observed>)
    requires DistinctIds(obs)
    requires forall s | s in kept :: exists o :: o in obs && Survives(o, listed, miss) && s == Renamed(o, listed)
    requires forall o | o in obs && Survives(o, listed, miss) :: Renamed(o, listed) in kept
    ensures forall o | o in obs :: o.id in Ids(kept) <==> Survives(o, listed, miss)
    ensures Ids(kept) <= Ids(obs)
  {
    forall o | o in obs && Survives(o, listed, miss) ensures o.id in Ids(kept) {
      assert Renamed(o, listed).id == o.id;
    }
    forall s | s in kept ensures s.id in Ids(obs) && forall o | o in obs && o.id == s.id :: Survives(o, listed, miss) {
      var p :| p in obs && Survives(p, listed, miss) && s == Renamed(p, listed);
      forall o | o in obs && o.id == s.id ensures Survives(o, listed, miss) { OneEntryPerId(obs, o, p); }
    }
  }

  lemma PinsShape(cfg: Config, obs: seq<Observed>, t1s: seq<Router>)
    requires DistinctIds(obs)
    ensures DistinctIds(WithPins(cfg, obs, t1s)) && obs <= WithPins(cfg, obs, t1s)
    ensures Ids(WithPins(cfg, obs, t1s)) <= Ids(obs) + Listed(t1s)
  {
    PinnedStep(obs, cfg.t1Names, t1s, cfg.Size());
  }

  lemma PrefixIds(a: seq<Observed>, b: seq<Observed>)
    requires a <= b
    ensures Ids(a) <= Ids(b)
  {
    assert forall o | o in a :: o in b;
  }

  lemma FilledShape(cfg: Config, obs: seq<Observed>, t1s: seq<Router>, draws: seq<nat>)
    requires DistinctIds(obs) && DistinctListing(t1s)
    ensures var f := Filled(cfg, WithPins(cfg, obs, t1s), t1s, draws);
            DistinctIds(f) && obs <= f && Ids(f) <= Ids(obs) + Listed(t1s)
  {
    PinsShape(cfg, obs, t1s);
    var p := WithPins(cfg, obs, t1s);
    RandomStep(p, t1s, cfg.Size(), draws);
    assert Ids(p) + Listed(t1s) <= Ids(obs) + Listed(t1s);
  }

  /** The refreshed watchlist never repeats a T1, starts with the survivors in their old order,
      and observes only survivors and listed T1s. */
  lemma RefreshShape(cfg: Config, w: Watch, t1s: seq<Router>, draws: seq<nat>)
    requires DistinctIds(w.observed) && DistinctListing(t1s)
    ensures var r := Refresh(cfg, w, t1s, draws).observed;
            && DistinctIds(r) && |r| <= cfg.Size()
            && Take(Kept(w, t1s), cfg.Size()) <= r
            && Ids(r) <= Ids(Kept(w, t1s)) + Listed(t1s)
  {
    KeptAre(w, t1s);
    FilledShape(cfg, Kept(w, t1s), t1s, draws);
    TakeIds(Filled(cfg, WithPins(cfg, Kept(w, t1s), t1s), t1s, draws), cfg.Size());
  }

  /** In auto and hybrid mode the refreshed watchlist has exactly min(size, survivors and listed
      T1s together) entries, also when the pinned step overshoots the size by one. The size is the
      configured one, or ten. */
  lemma RefreshFillsExactly(cfg: Config, w: Watch, t1s: seq<Router>, draws: seq<nat>)
    requires DistinctIds(w.observed) && DistinctListing(t1s)
    ensures cfg.mode == Auto || cfg.mode == Hybrid ==>
              |Refresh(cfg, w, t1s, draws).observed| ==
              Min(if cfg.size <= 0 then 10 else cfg.size, |Ids(Kept(w, t1s)) + Listed(t1s)|)
  {
    KeptAre(w, t1s);
    if cfg.mode == Auto || cfg.mode == Hybrid { FilledLength(cfg, Kept(w, t1s), t1s, draws); }
  }

  lemma FilledLength(cfg: Config, obs: seq<Observed>, t1s: seq<Router>, draws: seq<nat>)
    requires DistinctIds(obs) && DistinctListing(t1s) && cfg.TopsUp()
    ensures Min(cfg.Size(), |Filled(cfg, WithPins(cfg, obs, t1s), t1s, draws)|) ==
            Min(cfg.Size(), |Ids(obs) + Listed(t1s)|)
  {
    var p := WithPins(cfg, obs, t1s);
    var all := Ids(obs) + Listed(t1s);
    PinsShape(cfg, obs, t1s);
    RandomStep(p, t1s, cfg.Size(), draws);
    PrefixIds(obs, p);
    assert Ids(p) + Listed(t1s) == all;
    IdCardinality(p);
    SubsetCardinality(Ids(p), all);
  }

  /** An old watchlist within the target size loses exactly its non-survivors: in particular no
      listed T1 is ever displaced, neither by a random pick nor by a configured name. */
  lemma NoLiveEntryDisplaced(cfg: Config, w: Watch, t1s: seq<Router>, draws: seq<nat>, o: Observed)
    requires DistinctIds(w.observed) && DistinctListing(t1s) && |w.observed| <= cfg.Size()
    requires o in w.observed
    ensures Kept(w, t1s) <= Refresh(cfg, w, t1s, draws).observed
    ensures o.id in Ids(Refresh(cfg, w, t1s, draws).observed) <==> Survives(o, NameById(t1s), w.miss)
    ensures o.id in Listed(t1s) ==> o.id in Ids(Refresh(cfg, w, t1s, draws).observed)
  {
    RefreshShape(cfg, w, t1s, draws);
    KeptAre(w, t1s);
    IndexesCoverListing(t1s);
    PrefixIds(Kept(w, t1s), Refresh(cfg, w, t1s, draws).observed);
  }

  /** A full watchlist of survivors shuts out configured names too: in hybrid mode the pinned
      entry that overshoots is the one the trim removes. */
  lemma FullWatchlistIgnoresPins(cfg: Config, w: Watch, t1s: seq<Router>, draws: seq<nat>)
    requires DistinctIds(w.observed) && DistinctListing(t1s)
    requires |Kept(w, t1s)| >= cfg.Size()
    ensures Refresh(cfg, w, t1s, draws).observed == Take(Kept(w, t1s), cfg.Size())
  {
    RefreshShape(cfg, w, t1s, draws);
  }

  /** A pinned entry that leaves the listing is dropped at once, and its miss counter stays
      behind: the next time the T1 is observed it starts with the old count. */
  lemma PinnedDropLeavesCounter(cfg: Config, w: Watch, t1s: seq<Router>, draws: seq<nat>, o: Observed)
    requires DistinctIds(w.observed) && DistinctListing(t1s)
    requires o in w.observed && o.pinned && o.id !in Listed(t1s)
    ensures o.id !in Ids(Refresh(cfg, w, t1s, draws).observed)
    ensures SameCount(o.id, w.miss, Refresh(cfg, w, t1s, draws).miss)
  {
    IndexesCoverListing(t1s);
    HealCounts(w, NameById(t1s));
    RefreshShape(cfg, w, t1s, draws);
    KeptAre(w, t1s);
  }

  /** So does the trim: an entry on its grace cycle keeps its counter even when it is the one cut
      off because the configured size shrank. */
  lemma GraceCountOutlivesTrim(cfg: Config, w: Watch, t1s: seq<Router>, draws: seq<nat>, o: Observed)
    requires DistinctIds(w.observed) && DistinctListing(t1s)
    requires o in w.observed && o.id !in Listed(t1s) && Survives(o, NameById(t1s), w.miss)
    ensures o.id in Refresh(cfg, w, t1s, draws).miss
  {
    IndexesCoverListing(t1s);
    HealCounts(w, NameById(t1s));
  }

  /** Exactly when a refresh leaves a counter behind for an entry that it no longer observes: the T1
      is unlisted and either pinned with a count, or on its grace cycle and cut off by the trim. */
  lemma CounterLeftBehindIff(cfg: Config, w: Watch, t1s: seq<Router>, draws: seq<nat>, o: Observed)
    requires DistinctIds(w.observed) && DistinctListing(t1s) && o in w.observed
    ensures var r := Refresh(cfg, w, t1s, draws);
            o.id in r.miss && o.id !in Ids(r.observed) <==>
            && o.id !in Listed(t1s)
            && if o.pinned then o.id in w.miss
               else Survives(o, NameById(t1s), w.miss) && o.id !in Ids(Take(Kept(w, t1s), cfg.Size()))
  {
    IndexesCoverListing(t1s);
    HealCounts(w, NameById(t1s));
    assert CountedFor(o, NameById(t1s), w.miss, Heal(w, NameById(t1s)).miss);
    KeptAre(w, t1s);
    if o.id !in Listed(t1s) { UnlistedStaysIff(cfg, w, t1s, draws, o.id); }
  }

  lemma UnlistedStaysIff(cfg: Config, w: Watch, t1s: seq<Router>, draws: seq<nat>, id: string)
    requires DistinctIds(w.observed) && DistinctListing(t1s) && id !in Listed(t1s)
    ensures id in Ids(Refresh(cfg, w, t1s, draws).observed) <==> id in Ids(Take(Kept(w, t1s), cfg.Size()))
    ensures id in Ids(Take(Kept(w, t1s), cfg.Size())) ==> id in Ids(Kept(w, t1s))
  {
    KeptAre(w, t1s);
    RefreshShape(cfg, w, t1s, draws);
    TakeIds(Kept(w, t1s), cfg.Size());
    PrefixIds(Take(Kept(w, t1s), cfg.Size()), Refresh(cfg, w, t1s, draws).observed);
    if |Kept(w, t1s)| >= cfg.Size() { FullWatchlistIgnoresPins(cfg, w, t1s, draws); }
  }

  // ---- Where new entries come from ---------------------------------------------------

  /** A random pick, as it is first recorded. */
  ghost predicate IsPick(o: Observed, t1s: seq<Router>) {
    !o.pinned && exists t :: t in t1s && o.id == t.id && o.name == t.displayName
  }

  /** A configured name that the listing resolves. */
  ghost predicate IsPin(o: Observed, cfg: Config, t1s: seq<Router>) {
    o.pinned && o.name in cfg.t1Names && o.name in IdByName(t1s) && o.id == IdByName(t1s)[o.name]
  }

  lemma {:induction false} PinsCome(obs: seq<Observed>, names: seq<string>, cfg: Config, t1s: seq<Router>)
    requires forall n | n in names :: n in cfg.t1Names
    ensures forall o | o in AddPinned(obs, names, IdByName(t1s), cfg.Size()) :: o in obs || IsPin(o, cfg, t1s)
    decreases |names|
  {
    var byName := IdByName(t1s);
    if names != [] {
      if names[0] !in byName || byName[names[0]] in Ids(obs) {
        PinsCome(obs, names[1..], cfg, t1s);
      } else {
        var o := Observed(byName[names[0]], names[0], true);
        assert IsPin(o, cfg, t1s);
        PinsCome(obs + [o], names[1..], cfg, t1s);
      }
    }
  }

  /** A pinned step that did not fill the watchlist has every configured, listed T1 in it. */
  lemma {:induction false} PinsComplete(obs: seq<Observed>, names: seq<string>, t1s: seq<Router>, size: nat)
    ensures var r := AddPinned(obs, names, IdByName(t1s), size);
            |r| >= size || forall n | n in names && n in IdByName(t1s) :: IdByName(t1s)[n] in Ids(r)
    ensures obs <= AddPinned(obs, names, IdByName(t1s), size)
    decreases |names|
  {
    var byName := IdByName(t1s);
    var r := AddPinned(obs, names, byName, size);
    if names != [] {
      assert names == [names[0]] + names[1..];
      if names[0] !in byName || byName[names[0]] in Ids(obs) {
        PinsComplete(obs, names[1..], t1s, size);
        PrefixIds(obs, r);
      } else {
        var more := obs + [Observed(byName[names[0]], names[0], true)];
        IdsAppend(obs, more[|obs|]);
        PinsComplete(more, names[1..], t1s, size);
        PrefixIds(more, r);
      }
    }
  }

  /** Every entry after a refresh is a survivor, a configured listed name (pinned and hybrid mode
      only), or an unpinned pick from the listing (auto and hybrid mode only). */
  lemma EntriesComeFrom(cfg: Config, w: Watch, t1s: seq<Router>, draws: seq<nat>, o: Observed)
    requires o in Refresh(cfg, w, t1s, draws).observed
    ensures || o in Kept(w, t1s)
            || ((cfg.mode == Pinned || cfg.mode == Hybrid) && IsPin(o, cfg, t1s))
            || ((cfg.mode == Auto || cfg.mode == Hybrid) && IsPick(o, t1s))
  {
    var p := WithPins(cfg, Kept(w, t1s), t1s);
    PinsCome(Kept(w, t1s), cfg.t1Names, cfg, t1s);
    var picks := AsObserved(Shuffled(Candidates(t1s, Ids(p)), draws));
    PicksListed(t1s, Ids(p), draws);
    assert o in p || (cfg.TopsUp() && o in picks);
  }

  lemma PicksListed(t1s: seq<Router>, taken: set<string>, draws: seq<nat>)
    ensures forall o | o in AsObserved(Shuffled(Candidates(t1s, taken), draws)) :: IsPick(o, t1s)
  {
    var c := Candidates(t1s, taken);
    var s := Shuffled(c, draws);
    ShufflePermutes(c, |c| - 1, draws);
    CandidatesListed(t1s, taken);
    forall t | t in s ensures t in t1s {
      assert t in multiset(s);
      assert t in multiset(c);
    }
  }

  lemma {:induction false} CandidatesListed(t1s: seq<Router>, taken: set<string>)
    ensures forall t | t in Candidates(t1s, taken) :: t in t1s
  {
    if t1s != [] { CandidatesListed(t1s[..|t1s| - 1], taken); }
  }

  /** In pinned mode the watchlist ends full, or with every configured name that is listed. */
  lemma PinnedModeComplete(cfg: Config, w: Watch, t1s: seq<Router>, draws: seq<nat>)
    requires cfg.mode == Pinned
    ensures var r := Refresh(cfg, w, t1s, draws).observed;
            || |r| == (if cfg.size <= 0 then 10 else cfg.size)
            || forall n | n in cfg.t1Names && n in IdByName(t1s) :: IdByName(t1s)[n] in Ids(r)
  {
    PinsComplete(Kept(w, t1s), cfg.t1Names, t1s, cfg.Size());
  }

  /** The T1s that the configured names resolve to in the listing. */
  function PinIds(names: seq<string>, byName: map<string, string>): set<string> {
    set n | n in names && n in byName :: byName[n]
  }

  lemma {:induction false} PinnedAddsOnlyPins(obs: seq<Observed>, names: seq<string>, byName: map<string, string>,
                                              size: nat)
    ensures Ids(AddPinned(obs, names, byName, size)) <= Ids(obs) + PinIds(names, byName)
    decreases |names|
  {
    if names != [] {
      assert PinIds(names[1..], byName) <= PinIds(names, byName);
      if names[0] !in byName || byName[names[0]] in Ids(obs) {
        PinnedAddsOnlyPins(obs, names[1..], byName, size);
      } else {
        var o := Observed(byName[names[0]], names[0], true);
        IdsAppend(obs, o);
        assert names[0] in names;
        PinnedAddsOnlyPins(obs + [o], names[1..], byName, size);
      }
    }
  }

  /** Below the target size, the pinned step takes in every configured T1 unless they are too many. */
  lemma PinnedStepAdmitsIff(obs: seq<Observed>, names: seq<string>, t1s: seq<Router>, size: nat)
    requires DistinctIds(obs) && |obs| < size
    ensures var pins := PinIds(names, IdByName(t1s));
            pins <= Ids(AddPinned(obs, names, IdByName(t1s), size)) <==> |Ids(obs) + pins| <= size
  {
    var pins := PinIds(names, IdByName(t1s));
    var more := AddPinned(obs, names, IdByName(t1s), size);
    PinnedStep(obs, names, t1s, size);
    PinsComplete(obs, names, t1s, size);
    PinnedAddsOnlyPins(obs, names, IdByName(t1s), size);
    PrefixIds(obs, more);
    IdCardinality(more);
    SubsetCardinality(Ids(more), Ids(obs) + pins);
    if pins <= Ids(more) { SubsetCardinality(Ids(obs) + pins, Ids(more)); }
  }

  /** The configured names, exactly: in pinned and hybrid mode they are all observed after a refresh
      if and only if they fit into the target size together with the survivors, which come first. */
  lemma PinsObservedIff(cfg: Config, w: Watch, t1s: seq<Router>, draws: seq<nat>)
    requires DistinctIds(w.observed) && DistinctListing(t1s) && (cfg.mode == Pinned || cfg.mode == Hybrid)
    ensures var pins := PinIds(cfg.t1Names, IdByName(t1s));
            var size := if cfg.size <= 0 then 10 else cfg.size;
            pins <= Ids(Refresh(cfg, w, t1s, draws).observed) <==>
            |Ids(Take(Kept(w, t1s), size)) + pins| <= size
  {
    var pins := PinIds(cfg.t1Names, IdByName(t1s));
    KeptAre(w, t1s);
    if |Kept(w, t1s)| >= cfg.Size() {
      FullWatchlistIgnoresPins(cfg, w, t1s, draws);
      TakeIds(Kept(w, t1s), cfg.Size());
      IdCardinality(Take(Kept(w, t1s), cfg.Size()));
      FullSetAdmits(Ids(Take(Kept(w, t1s), cfg.Size())), pins, cfg.Size());
    } else {
      RoomForPins(cfg, w, t1s, draws);
    }
  }

  lemma RoomForPins(cfg: Config, w: Watch, t1s: seq<Router>, draws: seq<nat>)
    requires DistinctIds(w.observed) && DistinctListing(t1s) && cfg.UsesPins() && |Kept(w, t1s)| < cfg.Size()
    ensures var pins := PinIds(cfg.t1Names, IdByName(t1s));
            pins <= Ids(Refresh(cfg, w, t1s, draws).observed) <==> |Ids(Kept(w, t1s)) + pins| <= cfg.Size()
  {
    KeptAre(w, t1s);
    PinnedStepAdmitsIff(Kept(w, t1s), cfg.t1Names, t1s, cfg.Size());
    PinnedSurvive(cfg, w, t1s, draws);
    RefreshIds(cfg, w, t1s, draws);
    RoomySetAdmits(Ids(Kept(w, t1s)), Ids(AddPinned(Kept(w, t1s), cfg.t1Names, IdByName(t1s), cfg.Size())),
                   Ids(Refresh(cfg, w, t1s, draws).observed), PinIds(cfg.t1Names, IdByName(t1s)), cfg.Size());
  }

  lemma RefreshIds(cfg: Config, w: Watch, t1s: seq<Router>, draws: seq<nat>)
    requires DistinctIds(w.observed) && DistinctListing(t1s) && |Kept(w, t1s)| < cfg.Size()
    ensures Ids(Kept(w, t1s)) <= Ids(Refresh(cfg, w, t1s, draws).observed)
    ensures |Ids(Refresh(cfg, w, t1s, draws).observed)| <= cfg.Size()
  {
    RefreshShape(cfg, w, t1s, draws);
    PrefixIds(Kept(w, t1s), Refresh(cfg, w, t1s, draws).observed);
    IdCardinality(Refresh(cfg, w, t1s, draws).observed);
  }

  lemma FullSetAdmits(ids: set<string>, pins: set<string>, size: nat)
    requires |ids| == size
    ensures pins <= ids <==> |ids + pins| <= size
  {
    SubsetCardinality(ids, ids + pins);
    if pins <= ids { assert ids + pins == ids; }
  }

  lemma RoomySetAdmits(kept: set<string>, pinned: set<string>, ids: set<string>, pins: set<string>, size: nat)
    requires kept <= ids && pinned <= ids && |ids| <= size
    requires pins <= pinned <==> |kept + pins| <= size
    ensures pins <= ids <==> |kept + pins| <= size
  {
    if pins <= ids { SubsetCardinality(kept + pins, ids); }
  }

  /** With room left by the survivors, nothing the pinned step took in is trimmed again. */
  lemma PinnedSurvive(cfg: Config, w: Watch, t1s: seq<Router>, draws: seq<nat>)
    requires DistinctIds(w.observed) && cfg.UsesPins() && |Kept(w, t1s)| < cfg.Size()
    ensures var pinned := AddPinned(Kept(w, t1s), cfg.t1Names, IdByName(t1s), cfg.Size());
            Ids(pinned) <= Ids(Refresh(cfg, w, t1s, draws).observed)
  {
    KeptAre(w, t1s);
    var pinned := AddPinned(Kept(w, t1s), cfg.t1Names, IdByName(t1s), cfg.Size());
    PinnedStep(Kept(w, t1s), cfg.t1Names, t1s, cfg.Size());
    PrefixIds(pinned, Refresh(cfg, w, t1s, draws).observed);
  }

  /** When not all fit, the configured order decides: no T1 gets in by its name while an earlier name
      that is listed stays out. */
  lemma {:induction false} AddPinnedInOrder(obs: seq<Observed>, names: seq<string>, byName: map<string, string>,
                                            size: nat, i: nat, j: nat)
    requires i < j < |names| && names[i] in byName && names[j] in byName
    requires forall k | 0 <= k <= i && names[k] in byName :: byName[names[k]] != byName[names[j]]
    requires byName[names[j]] in Ids(AddPinned(obs, names, byName, size)) && byName[names[j]] !in Ids(obs)
    ensures byName[names[i]] in Ids(AddPinned(obs, names, byName, size))
    decreases |names|
  {
    var r := AddPinned(obs, names, byName, size);
    AddPinnedExtends(obs, names, byName, size);
    if names[0] !in byName || byName[names[0]] in Ids(obs) {
      PrefixIds(obs, r);
      if i > 0 { AddPinnedInOrder(obs, names[1..], byName, size, i - 1, j - 1); }
    } else {
      var more := obs + [Observed(byName[names[0]], names[0], true)];
      IdsAppend(obs, more[|obs|]);
      PrefixIds(more, r);
      if i > 0 { AddPinnedInOrder(more, names[1..], byName, size, i - 1, j - 1); }
    }
  }

  lemma {:induction false} AddPinnedExtends(obs: seq<Observed>, names: seq<string>, byName: map<string, string>,
                                            size: nat)
    ensures obs <= AddPinned(obs, names, byName, size)
    ensures names != [] && names[0] in byName && byName[names[0]] !in Ids(obs) ==>
              obs + [Observed(byName[names[0]], names[0], true)] <= AddPinned(obs, names, byName, size)
    decreases |names|
  {
    if names != [] {
      if names[0] !in byName || byName[names[0]] in Ids(obs) {
        AddPinnedExtends(obs, names[1..], byName, size);
      } else {
        AddPinnedExtends(obs + [Observed(byName[names[0]], names[0], true)], names[1..], byName, size);
      }
    }
  }

  /** The same for a whole refresh in pinned and hybrid mode. */
  lemma PinsInConfiguredOrder(cfg: Config, w: Watch, t1s: seq<Router>, draws: seq<nat>, i: nat, j: nat)
    requires DistinctIds(w.observed) && DistinctListing(t1s) && (cfg.mode == Pinned || cfg.mode == Hybrid)
    requires var names, byName := cfg.t1Names, IdByName(t1s);
             && i < j < |names| && names[i] in byName && names[j] in byName
             && byName[names[j]] !in Ids(Kept(w, t1s))
             && forall k | 0 <= k <= i && names[k] in byName :: byName[names[k]] != byName[names[j]]
    ensures var names, byName, r := cfg.t1Names, IdByName(t1s), Refresh(cfg, w, t1s, draws).observed;
            byName[names[j]] in Ids(r) ==> byName[names[i]] in Ids(r)
  {
    var names, byName, size := cfg.t1Names, IdByName(t1s), cfg.Size();
    var r := Refresh(cfg, w, t1s, draws).observed;
    if byName[names[j]] in Ids(r) {
      KeptAre(w, t1s);
      TakeIds(Kept(w, t1s), size);
      if |Kept(w, t1s)| >= size {
        FullWatchlistIgnoresPins(cfg, w, t1s, draws);
      } else {
        PinnedSurvive(cfg, w, t1s, draws);
        var pinned := AddPinned(Kept(w, t1s), names, byName, size);
        if byName[names[j]] in Ids(pinned) {
          AddPinnedInOrder(Kept(w, t1s), names, byName, size, i, j);
        } else {
          PinsComplete(Kept(w, t1s), names, t1s, size);
          FullOnceFilled(cfg, pinned, t1s, draws);
        }
      }
    }
  }

  /** The random step adds nothing to a list that has the target size. */
  lemma FullOnceFilled(cfg: Config, obs: seq<Observed>, t1s: seq<Router>, draws: seq<nat>)
    requires |obs| >= cfg.Size()
    ensures Filled(cfg, obs, t1s, draws) == obs
    ensures Ids(Take(Filled(cfg, obs, t1s, draws), cfg.Size())) <= Ids(obs)
  {
    assert forall o | o in Take(obs, cfg.Size()) :: o in obs;
  }

  // ---- Names -----------------------------------------------------------------------------

  ghost predicate LastWithId(t1s: seq<Router>, id: string, k: int) {
    0 <= k < |t1s| && t1s[k].id == id && forall j | k < j < |t1s| :: t1s[j].id != id
  }

  ghost predicate LastWithName(t1s: seq<Router>, name: string, k: int) {
    0 <= k < |t1s| && t1s[k].displayName == name && forall j | k < j < |t1s| :: t1s[j].displayName != name
  }

  /** An id stands for the display name of its last entry in the listing. */
  lemma {:induction false} NameByIdIsLast(t1s: seq<Router>, id: string, name: string)
    ensures id in NameById(t1s) && NameById(t1s)[id] == name <==>
            exists k :: LastWithId(t1s, id, k) && t1s[k].displayName == name
  {
    if t1s != [] {
      var n := |t1s| - 1;
      var front := t1s[..n];
      NameByIdIsLast(front, id, name);
      if t1s[n].id == id {
        assert LastWithId(t1s, id, n);
      } else {
        forall k ensures LastWithId(t1s, id, k) <==> LastWithId(front, id, k) {
          assert LastWithId(front, id, k) ==> forall j | k < j < n :: front[j] == t1s[j];
        }
      }
    }
  }

  /** And a configured name for the id of the last entry of that display name. */
  lemma {:induction false} IdByNameIsLast(t1s: seq<Router>, name: string, id: string)
    ensures name in IdByName(t1s) && IdByName(t1s)[name] == id <==>
            exists k :: LastWithName(t1s, name, k) && t1s[k].id == id
  {
    if t1s != [] {
      var n := |t1s| - 1;
      var front := t1s[..n];
      IdByNameIsLast(front, name, id);
      if t1s[n].displayName == name {
        assert LastWithName(t1s, name, n);
      } else {
        forall k ensures LastWithName(t1s, name, k) <==> LastWithName(front, name, k) {
          assert LastWithName(front, name, k) ==> forall j | k < j < n :: front[j] == t1s[j];
        }
      }
    }
  }

  /** Survivors follow renames: a listed one carries its current display name, unless that is empty;
      otherwise it is the old entry. Being pinned never changes. */
  lemma SurvivorsAreRenamed(w: Watch, t1s: seq<Router>, s: Observed, k: nat)
    requires DistinctIds(w.observed) && s in Kept(w, t1s)
    ensures exists o :: o in w.observed && o.id == s.id && o.pinned == s.pinned
                        && (s.id !in Listed(t1s) ==> s == o)
                        && (LastWithId(t1s, s.id, k) ==>
                              s.name == if t1s[k].displayName != "" then t1s[k].displayName else o.name)
  {
    var listed := NameById(t1s);
    HealIsFilter(w, listed);
    SurvivorsAre(w.observed, listed, w.miss);
    var o :| o in w.observed && Survives(o, listed, w.miss) && s == Renamed(o, listed);
    IndexesCoverListing(t1s);
    if LastWithId(t1s, s.id, k) { NameByIdIsLast(t1s, s.id, t1s[k].displayName); }
  }

  // ---- The shuffle can yield any order ------------------------------------------------------

  /** Every order of the candidates is the outcome of some draws, so no selection is ruled out. */
  lemma ShuffleReachesAll<T>(s: seq<T>, q: seq<T>) returns (draws: seq<nat>)
    requires multiset(q) == multiset(s)
    ensures Shuffled(s, draws) == q
  {
    assert |multiset(q)| == |q| && |multiset(s)| == |s|;
    assert s[..|s|] == s && q[..|s|] == q;
    draws := DrawsToReach(s, q, |s|);
  }

  /** Place the element that `q` wants last among the first `n`, then go on below it. */
  lemma {:induction false} DrawsToReach<T>(s: seq<T>, q: seq<T>, n: nat) returns (draws: seq<nat>)
    requires |q| == |s| && n <= |s| && s[n..] == q[n..] && multiset(s[..n]) == multiset(q[..n])
    ensures ShuffleFrom(s, n - 1, draws) == q
    decreases n
  {
    draws := [];
    if n <= 1 {
      OneLeft(s, q, n);
    } else {
      var k := PlaceOf(s, q, n);
      var r := s[n - 1 := s[k]][k := s[n - 1]];
      SwapWithin(s, q, n, k);
      var rest := DrawsToReach(r, q, n - 1);
      draws := [k] + rest;
      ShuffleStarts(s, n, k, rest);
    }
  }

  lemma ShuffleStarts<T>(s: seq<T>, n: nat, k: nat, rest: seq<nat>)
    requires 1 < n <= |s| && k < n
    ensures ShuffleFrom(s, n - 1, [k] + rest) == ShuffleFrom(s[n - 1 := s[k]][k := s[n - 1]], n - 2, rest)
  {
    var draws := [k] + rest;
    assert draws[0] % n == k && draws[1..] == rest;
  }

  lemma OneLeft<T>(s: seq<T>, q: seq<T>, n: nat)
    requires |q| == |s| && n <= |s| && n <= 1 && s[n..] == q[n..] && multiset(s[..n]) == multiset(q[..n])
    ensures s == q
  {
    assert s == s[..n] + s[n..] && q == q[..n] + q[n..];
    if n == 1 {
      assert s[..1] == [s[0]] && q[..1] == [q[0]];
      assert s[0] in multiset(s[..1]) && s[0] in multiset(q[..1]);
    }
  }

  lemma PlaceOf<T>(s: seq<T>, q: seq<T>, n: nat) returns (k: nat)
    requires |q| == |s| && 0 < n <= |s| && multiset(s[..n]) == multiset(q[..n])
    ensures k < n && s[k] == q[n - 1]
  {
    var x := q[n - 1];
    assert q[..n][n - 1] == x;
    assert x in multiset(q[..n]);
    assert x in s[..n];
    k :| 0 <= k < n && s[..n][k] == x;
  }

  lemma SwapWithin<T>(s: seq<T>, q: seq<T>, n: nat, k: nat)
    requires |q| == |s| && k < n <= |s| && s[k] == q[n - 1] && s[n..] == q[n..]
    requires multiset(s[..n]) == multiset(q[..n])
    ensures var r := s[n - 1 := s[k]][k := s[n - 1]];
            |r| == |s| && r[n - 1..] == q[n - 1..] && multiset(r[..n - 1]) == multiset(q[..n - 1])
  {
    var r := s[n - 1 := s[k]][k := s[n - 1]];
    SwapKeepsFront(s, n, k);
    WithoutLast(r, n);
    WithoutLast(q, n);
    assert r[n - 1] == q[n - 1];
    assert r[n..] == s[n..];
    assert r[n - 1..] == [r[n - 1]] + r[n..] && q[n - 1..] == [q[n - 1]] + q[n..];
  }

  lemma SwapKeepsFront<T>(s: seq<T>, n: nat, k: nat)
    requires k < n <= |s|
    ensures multiset(s[n - 1 := s[k]][k := s[n - 1]][..n]) == multiset(s[..n])
  {
    var a := s[..n];
    assert s[n - 1 := s[k]][k := s[n - 1]][..n] == a[n - 1 := a[k]][k := a[n - 1]];
  }

  lemma WithoutLast<T>(s: seq<T>, n: nat)
    requires 0 < n <= |s|
    ensures multiset(s[..n - 1]) == multiset(s[..n]) - multiset{s[n - 1]}
  {
    assert s[..n] == s[..n - 1] + [s[n - 1]];
  }
}
