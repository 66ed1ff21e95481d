/** Whole runs of the T1 differ with a working snapshot file: the first cycle baselines, every
    later one diffs against what the previous one stored. */
module T1Runs {
  import opened Basics
  import opened T1Detector

  /** One cycle: the live inventory by id, the aggregates handed in, the time, and the events
      it emitted. */
  datatype Cycle = Cycle(live: Live, agg: Aggregates, now: int, events: seq<Event>)

  /** The snapshot after the cycles `cs`. */
  function Stored(cs: seq<Cycle>): Known {
    if cs == [] then map[]
    else var last := cs[|cs| - 1]; KnownAfter(Stored(cs[..|cs| - 1]), last.live, last.now)
  }

  ghost predicate WellKeyed(live: Live) {
    forall id | id in live :: live[id].id == id
  }

  /** Each cycle emitted what the differ emits; the first found no snapshot. */
  ghost predicate IsRun(cs: seq<Cycle>) {
    cs == [] ||
    var n := |cs| - 1;
    && IsRun(cs[..n])
    && WellKeyed(cs[n].live)
    && EventsOk(Stored(cs[..n]), cs[n].live, n > 0, cs[n].agg, cs[n].now, cs[n].events)
  }

  /** All events of a run, in order. */
  function Log(cs: seq<Cycle>): seq<Event> {
    if cs == [] then [] else Log(cs[..|cs| - 1]) + cs[|cs| - 1].events
  }

  lemma {:induction false} StoredIsLive(cs: seq<Cycle>)
    requires IsRun(cs)
    ensures cs != [] ==> Stored(cs).Keys == cs[|cs| - 1].live.Keys
    ensures forall id | id in Stored(cs) :: Stored(cs)[id].view.id == id
  {
    if cs != [] { StoredIsLive(cs[..|cs| - 1]); }
  }

  // ---- Event replay -------------------------------------------------------------------

  function Apply(ids: set<string>, log: seq<Event>): set<string> {
    if log == [] then ids
    else
      var n := |log| - 1;
      var before := Apply(ids, log[..n]);
      if log[n].kind == Created then before + {log[n].t1.id} else before - {log[n].t1.id}
  }

  lemma {:induction false} ApplyConcat(ids: set<string>, a: seq<Event>, b: seq<Event>)
    ensures Apply(ids, a + b) == Apply(Apply(ids, a), b)
  {
    if b == [] {
      assert a + b == a;
    } else {
      var n := |b| - 1;
      ApplyConcat(ids, a, b[..n]);
      assert (a + b)[..|a| + n] == a + b[..n];
    }
  }

  lemma {:induction false} ApplyCreations(ids: set<string>, keys: seq<string>, live: Live, agg: Aggregates, now: int)
    requires WellKeyed(live) && forall k | k in keys :: k in live
    ensures Apply(ids, CreatedEvents(keys, live, agg, now)) == ids + Elements(keys)
  {
    var evs := CreatedEvents(keys, live, agg, now);
    if keys != [] {
      var n := |keys| - 1;
      ApplyCreations(ids, keys[..n], live, agg, now);
      assert evs[..n] == CreatedEvents(keys[..n], live, agg, now);
      assert keys[n] in keys;
      assert Elements(keys) == Elements(keys[..n]) + {keys[n]};
    }
  }

  lemma {:induction false} ApplyDeletions(ids: set<string>, keys: seq<string>, known: Known, agg: Aggregates, now: int)
    requires forall k | k in keys :: k in known && known[k].view.id == k
    ensures Apply(ids, DeletedEvents(keys, known, agg, now)) == ids - Elements(keys)
  {
    var evs := DeletedEvents(keys, known, agg, now);
    if keys != [] {
      var n := |keys| - 1;
      ApplyDeletions(ids, keys[..n], known, agg, now);
      assert evs[..n] == DeletedEvents(keys[..n], known, agg, now);
      assert keys[n] in keys;
      assert Elements(keys) == Elements(keys[..n]) + {keys[n]};
    }
  }

  /** One diff: its events turn the known ids into the live ids. */
  lemma DiffReplays(known: Known, live: Live, agg: Aggregates, now: int, events: seq<Event>)
    requires WellKeyed(live) && forall id | id in known :: known[id].view.id == id
    requires EventsOk(known, live, true, agg, now, events)
    ensures Apply(known.Keys, events) == live.Keys
  {
    var created, deleted :|
      && Enumerates(created, live.Keys - known.Keys)
      && Enumerates(deleted, known.Keys - live.Keys)
      && events == CreatedEvents(created, live, agg, now) + DeletedEvents(deleted, known, agg, now);
    ApplyCreations(known.Keys, created, live, agg, now);
    ApplyDeletions(known.Keys + Elements(created), deleted, known, agg, now);
    ApplyConcat(known.Keys, CreatedEvents(created, live, agg, now), DeletedEvents(deleted, known, agg, now));
  }

  /** Replaying every event emitted since the baseline over the baseline ids gives the ids that
      are live now. */
  lemma {:induction false} LogReplays(cs: seq<Cycle>)
    requires IsRun(cs) && cs != []
    ensures Apply(cs[0].live.Keys, Log(cs)) == cs[|cs| - 1].live.Keys
  {
    var n := |cs| - 1;
    if n == 0 {
      assert cs[..0] == [];
      assert Log(cs) == [];
    } else {
      LogReplays(cs[..n]);
      StoredIsLive(cs[..n]);
      ApplyConcat(cs[0].live.Keys, Log(cs[..n]), cs[n].events);
      DiffReplays(Stored(cs[..n]), cs[n].live, cs[n].agg, cs[n].now, cs[n].events);
    }
  }

  // ---- Alternation ----------------------------------------------------------------------

  /** The kinds of the events about `id`, in order. */
  function Kinds(log: seq<Event>, id: string): seq<Kind> {
    if log == [] then []
    else
      var n := |log| - 1;
      Kinds(log[..n], id) + if log[n].t1.id == id then [log[n].kind] else []
  }

  /** From `present`, created and deleted take turns and end in `after`. */
  ghost predicate Alternates(present: bool, kinds: seq<Kind>, after: bool) {
    if kinds == [] then present == after
    else
      var n := |kinds| - 1;
      kinds[n] == (if after then Created else Deleted) && Alternates(present, kinds[..n], !after)
  }

  lemma {:induction false} KindsConcat(a: seq<Event>, b: seq<Event>, id: string)
    ensures Kinds(a + b, id) == Kinds(a, id) + Kinds(b, id)
  {
    if b == [] {
      assert a + b == a;
    } else {
      var n := |b| - 1;
      KindsConcat(a, b[..n], id);
      assert (a + b)[..|a| + n] == a + b[..n];
    }
  }

  /** Events whose ids are `keys`, all of one kind, mention `id` at most once. */
  lemma {:induction false} KindsOfGroup(evs: seq<Event>, keys: seq<string>, kind: Kind, id: string)
    requires |evs| == |keys| && Distinct(keys)
    requires forall i | 0 <= i < |keys| :: evs[i].t1.id == keys[i] && evs[i].kind == kind
    ensures Kinds(evs, id) == if id in keys then [kind] else []
  {
    if keys != [] {
      var n := |keys| - 1;
      KindsOfGroup(evs[..n], keys[..n], kind, id);
      assert keys == keys[..n] + [keys[n]];
    }
  }

  lemma DiffMentions(known: Known, live: Live, agg: Aggregates, now: int, events: seq<Event>, id: string)
    requires WellKeyed(live) && forall id | id in known :: known[id].view.id == id
    requires EventsOk(known, live, true, agg, now, events)
    ensures Kinds(events, id) == if id in live && id !in known then [Created]
                                 else if id in known && id !in live then [Deleted] else []
  {
    var created, deleted :|
      && Enumerates(created, live.Keys - known.Keys)
      && Enumerates(deleted, known.Keys - live.Keys)
      && events == CreatedEvents(created, live, agg, now) + DeletedEvents(deleted, known, agg, now);
    var a, b := CreatedEvents(created, live, agg, now), DeletedEvents(deleted, known, agg, now);
    assert forall i | 0 <= i < |created| :: created[i] in created;
    assert forall i | 0 <= i < |deleted| :: deleted[i] in deleted;
    KindsOfGroup(a, created, Created, id);
    KindsOfGroup(b, deleted, Deleted, id);
    KindsConcat(a, b, id);
  }

  /** For every T1 the events strictly alternate, starting from its presence in the baseline and
      ending in its presence now: never two creations or two deletions in a row. */
  lemma {:induction false} EventsAlternate(cs: seq<Cycle>, id: string)
    requires IsRun(cs) && cs != []
    ensures Alternates(id in cs[0].live, Kinds(Log(cs), id), id in cs[|cs| - 1].live)
  {
    var n := |cs| - 1;
    if n == 0 {
      assert cs[..0] == [];
      assert Log(cs) == [];
    } else {
      EventsAlternate(cs[..n], id);
      StoredIsLive(cs[..n]);
      KindsConcat(Log(cs[..n]), cs[n].events, id);
      DiffMentions(Stored(cs[..n]), cs[n].live, cs[n].agg, cs[n].now, cs[n].events, id);
      AlternatesStep(id in cs[0].live, Kinds(Log(cs[..n]), id), id in cs[n - 1].live,
                     Kinds(cs[n].events, id), id in cs[n].live);
    }
  }

  lemma AlternatesStep(present: bool, before: seq<Kind>, was: bool, more: seq<Kind>, now: bool)
    requires Alternates(present, before, was)
    requires more == if now && !was then [Created] else if was && !now then [Deleted] else []
    ensures Alternates(present, before + more, now)
  {
    if was == now { assert before + more == before; } else { assert (before + more)[..|before|] == before; }
  }

  // ---- Conservation --------------------------------------------------------------------------

  function Count(log: seq<Event>, kind: Kind): nat {
    if log == [] then 0
    else Count(log[..|log| - 1], kind) + if log[|log| - 1].kind == kind then 1 else 0
  }

  lemma {:induction false} CountConcat(a: seq<Event>, b: seq<Event>, kind: Kind)
    ensures Count(a + b, kind) == Count(a, kind) + Count(b, kind)
  {
    if b == [] {
      assert a + b == a;
    } else {
      CountConcat(a, b[..|b| - 1], kind);
      assert (a + b)[..|a + b| - 1] == a + b[..|b| - 1];
    }
  }

  lemma {:induction false} CountUniform(evs: seq<Event>, kind: Kind)
    requires forall e | e in evs :: e.kind == kind
    ensures forall k :: Count(evs, k) == if k == kind then |evs| else 0
  {
    if evs != [] {
      assert evs[|evs| - 1] in evs;
      CountUniform(evs[..|evs| - 1], kind);
    }
  }

  lemma EnumerationLength(s: seq<string>, keys: set<string>)
    requires Enumerates(s, keys)
    ensures |s| == |keys|
  {
    DistinctCardinality(s);
    assert Elements(s) == keys;
  }

  lemma DifferenceCardinality(a: set<string>, b: set<string>)
    ensures |a| == |b| + |a - b| - |b - a|
  {
    assert a == a * b + (a - b);
    assert b == a * b + (b - a);
  }

  lemma DiffConserves(known: Known, live: Live, agg: Aggregates, now: int, events: seq<Event>)
    requires EventsOk(known, live, true, agg, now, events)
    ensures |live.Keys| == |known.Keys| + Count(events, Created) - Count(events, Deleted)
  {
    var created, deleted :|
      && Enumerates(created, live.Keys - known.Keys)
      && Enumerates(deleted, known.Keys - live.Keys)
      && events == CreatedEvents(created, live, agg, now) + DeletedEvents(deleted, known, agg, now);
    var a, b := CreatedEvents(created, live, agg, now), DeletedEvents(deleted, known, agg, now);
    CountUniform(a, Created);
    CountUniform(b, Deleted);
    CountConcat(a, b, Created);
    CountConcat(a, b, Deleted);
    EnumerationLength(created, live.Keys - known.Keys);
    EnumerationLength(deleted, known.Keys - live.Keys);
    DifferenceCardinality(live.Keys, known.Keys);
  }

  /** The size of the snapshot is the baseline, plus creations, minus deletions. */
  lemma {:induction false} EventsConserve(cs: seq<Cycle>)
    requires IsRun(cs) && cs != []
    ensures |Stored(cs)| == |cs[0].live| + Count(Log(cs), Created) - Count(Log(cs), Deleted)
  {
    var n := |cs| - 1;
    StoredIsLive(cs);
    assert |Stored(cs)| == |Stored(cs).Keys|;
    if n == 0 {
      assert cs[..0] == [];
      assert Log(cs) == [];
      assert |cs[0].live| == |cs[0].live.Keys|;
    } else {
      EventsConserve(cs[..n]);
      StoredIsLive(cs[..n]);
      DiffConserves(Stored(cs[..n]), cs[n].live, cs[n].agg, cs[n].now, cs[n].events);
      CountConcat(Log(cs[..n]), cs[n].events, Created);
      CountConcat(Log(cs[..n]), cs[n].events, Deleted);
    }
  }

  // ---- What the snapshot remembers -----------------------------------------------------------

  /** `id` is live in every cycle from `j` on, and was not just before. */
  ghost predicate PresentSince(cs: seq<Cycle>, id: string, j: int) {
    && 0 <= j < |cs|
    && (forall k | j <= k < |cs| :: id in cs[k].live)
    && (j == 0 || id !in cs[j - 1].live)
  }

  lemma PresenceContinues(cs: seq<Cycle>, id: string, j: int)
    requires |cs| > 1 && id in cs[|cs| - 1].live && id in cs[|cs| - 2].live
    ensures PresentSince(cs, id, j) <==> PresentSince(cs[..|cs| - 1], id, j)
  {
    var front := cs[..|cs| - 1];
    assert forall k | 0 <= k < |front| :: front[k] == cs[k];
    if PresentSince(front, id, j) {
      forall k | j <= k < |cs| ensures id in cs[k].live {
        if k < |front| { assert id in front[k].live; }
      }
    }
  }

  lemma PresenceBegins(cs: seq<Cycle>, id: string, j: int)
    requires cs != [] && id in cs[|cs| - 1].live
    requires |cs| > 1 ==> id !in cs[|cs| - 2].live
    ensures PresentSince(cs, id, j) <==> j == |cs| - 1
  {
  }

  /** `t` nanoseconds lie within second `s`. */
  ghost predicate InSecond(t: int, s: int) {
    s * 1_000_000_000 <= t < (s + 1) * 1_000_000_000
  }

  lemma UnixIsSecond(t: int, s: int)
    ensures Unix(t) == s <==> InSecond(t, s)
  {
  }

  /** First-seen is the second in which the current uninterrupted presence began. */
  lemma {:induction false} FirstSeenIsStartOfPresence(cs: seq<Cycle>, id: string, s: int)
    requires IsRun(cs)
    ensures id in Stored(cs) && Stored(cs)[id].firstSeen == s <==>
            exists j :: PresentSince(cs, id, j) && InSecond(cs[j].now, s)
  {
    forall t ensures Unix(t) == s <==> InSecond(t, s) { UnixIsSecond(t, s); }
    if cs != [] {
      var n := |cs| - 1;
      var front := cs[..n];
      FirstSeenIsStartOfPresence(front, id, s);
      StoredIsLive(front);
      StoredIsLive(cs);
      if id !in cs[n].live {
      } else if n > 0 && id in cs[n - 1].live {
        assert Stored(cs)[id].firstSeen == Stored(front)[id].firstSeen;
        forall j ensures PresentSince(cs, id, j) <==> PresentSince(front, id, j) {
          PresenceContinues(cs, id, j);
        }
        forall j | PresentSince(front, id, j) ensures front[j] == cs[j] {}
      } else {
        assert id !in Stored(front);
        PresenceBegins(cs, id, n);
        forall j | PresentSince(cs, id, j) ensures j == n { PresenceBegins(cs, id, j); }
      }
    }
  }

  /** From `j` on `id` is live with the same compared fields, and `j` is where that began. */
  ghost predicate VisiblySince(cs: seq<Cycle>, id: string, j: int) {
    && 0 <= j < |cs| && id in cs[j].live
    && (forall k | j <= k < |cs| :: id in cs[k].live && SameVisible(cs[k].live[id], cs[j].live[id]))
    && (j == 0 || id !in cs[j - 1].live || !SameVisible(cs[j - 1].live[id], cs[j].live[id]))
  }

  lemma ViewContinues(cs: seq<Cycle>, id: string, j: int)
    requires cs != [] && VisiblySince(cs[..|cs| - 1], id, j)
    requires id in cs[|cs| - 1].live && SameVisible(cs[|cs| - 1].live[id], cs[j].live[id])
    ensures VisiblySince(cs, id, j)
  {
    var front := cs[..|cs| - 1];
    forall k | j <= k < |cs| ensures id in cs[k].live && SameVisible(cs[k].live[id], cs[j].live[id]) {
      if k < |front| { assert front[k] == cs[k]; }
    }
  }

  lemma ViewBegins(cs: seq<Cycle>, id: string)
    requires cs != [] && id in cs[|cs| - 1].live
    requires |cs| > 1 && id in cs[|cs| - 2].live ==> !SameVisible(cs[|cs| - 2].live[id], cs[|cs| - 1].live[id])
    ensures VisiblySince(cs, id, |cs| - 1)
  {
  }

  lemma ViewMovesOn(cs: seq<Cycle>, id: string, j: int, stored: LiveT1)
    requires cs != [] && id in cs[|cs| - 1].live
    requires VisiblySince(cs[..|cs| - 1], id, j) && stored == cs[j].live[id]
    ensures SameVisible(stored, cs[|cs| - 1].live[id]) ==> VisiblySince(cs, id, j)
    ensures !SameVisible(stored, cs[|cs| - 1].live[id]) ==> VisiblySince(cs, id, |cs| - 1)
  {
    var n := |cs| - 1;
    var front := cs[..n];
    if SameVisible(stored, cs[n].live[id]) {
      ViewContinues(cs, id, j);
    } else {
      assert front[n - 1] == cs[n - 1];
      assert SameVisible(cs[n - 1].live[id], cs[j].live[id]);
      ViewBegins(cs, id);
    }
  }

  /** The stored view (the payload of a later deletion event) is the live view of the cycle in
      which one of the four compared fields last changed: those four are always current, the
      parent's id and kind may be older. */
  lemma {:induction false} StoredViewIsLastVisibleChange(cs: seq<Cycle>, id: string)
    requires IsRun(cs) && id in Stored(cs)
    ensures exists j :: VisiblySince(cs, id, j) && Stored(cs)[id].view == cs[j].live[id]
  {
    var n := |cs| - 1;
    var front := cs[..n];
    StoredIsLive(front);
    if id in Stored(front) {
      StoredViewIsLastVisibleChange(front, id);
      var j :| VisiblySince(front, id, j) && Stored(front)[id].view == front[j].live[id];
      assert front[j] == cs[j];
      ViewMovesOn(cs, id, j, Stored(front)[id].view);
      assert Stored(cs)[id] == RefreshInfo(Stored(front)[id], cs[n].live[id]);
    } else {
      assert n > 0 ==> front[n - 1] == cs[n - 1];
      ViewBegins(cs, id);
    }
  }
}
