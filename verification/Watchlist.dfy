/** The self-healing watchlist of one edge cluster: which T1s the HA watch polls.
    `Refresh` is the specification; class ClusterInventory does the work in place. */
module Watchlist {
  import opened Nsx

  /** An unknown mode string runs neither the pinned nor the random step. */
  datatype Mode = Auto | Pinned | Hybrid | Unknown

  datatype Config = Config(size: int, mode: Mode, t1Names: seq<string>) {
    function Size(): (n: nat)
      ensures n >= 1
    {
      if size <= 0 then 10 else size
    }

    predicate UsesPins() { mode == Pinned || mode == Hybrid }

    predicate TopsUp() { mode == Auto || mode == Hybrid }
  }

  /** Misses after which a T1 is substituted. */
  const MISS_THRESHOLD: int := 2

  datatype Watch = Watch(observed: seq<Observed>, miss: map<string, int>)

  // ---- Specification of one refresh -----------------------------------------

  /** id -> display name of the listed T1s; the last of several entries wins. */
  function NameById(t1s: seq<Router>): map<string, string> {
    if t1s == [] then map[]
    else var last := t1s[|t1s| - 1]; NameById(t1s[..|t1s| - 1])[last.id := last.displayName]
  }

  /** display name -> id; again the last entry wins. */
  function IdByName(t1s: seq<Router>): map<string, string> {
    if t1s == [] then map[]
    else var last := t1s[|t1s| - 1]; IdByName(t1s[..|t1s| - 1])[last.displayName := last.id]
  }

  function Misses(miss: map<string, int>, id: string): int {
    if id in miss then miss[id] else 0
  }

  datatype Healing = Healing(kept: seq<Observed>, miss: map<string, int>, dropped: nat)

  function HealOne(h: Healing, o: Observed, listed: map<string, string>): Healing {
    if o.id in listed then
      var name := if listed[o.id] != "" then listed[o.id] else o.name;
      Healing(h.kept + [o.(name := name)], h.miss - {o.id}, h.dropped)
    else if o.pinned then
      h.(dropped := h.dropped + 1)
    else if Misses(h.miss, o.id) + 1 < MISS_THRESHOLD then
      Healing(h.kept + [o], h.miss[o.id := Misses(h.miss, o.id) + 1], h.dropped)
    else
      Healing(h.kept, h.miss - {o.id}, h.dropped + 1)
  }

  /** Step 1: one pass over the old watchlist, in order. */
  function Heal(w: Watch, listed: map<string, string>): Healing
    decreases |w.observed|
  {
    if w.observed == [] then Healing([], w.miss, 0)
    else
      var n := |w.observed| - 1;
      HealOne(Heal(w.(observed := w.observed[..n]), listed), w.observed[n], listed)
  }

  function Ids(obs: seq<Observed>): set<string> {
    set o | o in obs :: o.id
  }

  /** Step 2: append configured names that are listed and not yet observed, stopping once the
      target size is reached (tested after each append only). */
  function AddPinned(obs: seq<Observed>, names: seq<string>, byName: map<string, string>, size: nat): seq<Observed>
    decreases |names|
  {
    if names == [] then obs
    else if names[0] !in byName || byName[names[0]] in Ids(obs) then AddPinned(obs, names[1..], byName, size)
    else
      var more := obs + [Observed(byName[names[0]], names[0], true)];
      if |more| >= size then more else AddPinned(more, names[1..], byName, size)
  }

  function Candidates(t1s: seq<Router>, taken: set<string>): seq<Router> {
    if t1s == [] then []
    else
      var last := t1s[|t1s| - 1];
      Candidates(t1s[..|t1s| - 1], taken) + if last.id !in taken then [last] else []
  }

  /** Fisher-Yates from position `i` down; the random source may fail early. */
  function ShuffleFrom<T>(s: seq<T>, i: int, draws: seq<nat>): seq<T>
    requires i < |s|
    decreases i
  {
    if i <= 0 || draws == [] then s
    else
      var k := draws[0] % (i + 1);
      ShuffleFrom(s[i := s[k]][k := s[i]], i - 1, draws[1..])
  }

  function Shuffled<T>(s: seq<T>, draws: seq<nat>): seq<T> {
    ShuffleFrom(s, |s| - 1, draws)
  }

  function AsObserved(t1s: seq<Router>): seq<Observed> {
    seq(|t1s|, i requires 0 <= i < |t1s| => Observed(t1s[i].id, t1s[i].displayName, false))
  }

  /** The first `n` elements, or all of them. */
  function Take<T>(s: seq<T>, n: int): seq<T> {
    if n <= 0 then [] else if n < |s| then s[..n] else s
  }

  /** Step 3: random picks up to the target size. */
  function TopUp(obs: seq<Observed>, t1s: seq<Router>, size: nat, draws: seq<nat>): seq<Observed> {
    obs + Take(AsObserved(Shuffled(Candidates(t1s, Ids(obs)), draws)), size - |obs|)
  }

  function WithPins(cfg: Config, kept: seq<Observed>, t1s: seq<Router>): seq<Observed> {
    if cfg.UsesPins() then AddPinned(kept, cfg.t1Names, IdByName(t1s), cfg.Size()) else kept
  }

  function Filled(cfg: Config, obs: seq<Observed>, t1s: seq<Router>, draws: seq<nat>): seq<Observed> {
    if cfg.TopsUp() then TopUp(obs, t1s, cfg.Size(), draws) else obs
  }

  function Refresh(cfg: Config, w: Watch, t1s: seq<Router>, draws: seq<nat>): Watch {
    var h := Heal(w, NameById(t1s));
    Watch(Take(Filled(cfg, WithPins(cfg, h.kept, t1s), t1s, draws), cfg.Size()), h.miss)
  }

  /** bumpMissCounts: one more miss for every T1 whose status request failed. */
  function Bump(miss: map<string, int>, missed: set<string>): map<string, int> {
    map id | id in miss.Keys + missed :: Misses(miss, id) + if id in missed then 1 else 0
  }

  // ---- The refresh, in place ---------------------------------------------------

  method ShuffleInPlace(s: array<Router>, draws: seq<nat>)
    modifies s
    ensures s[..] == Shuffled(old(s[..]), draws)
  {
    var i := s.Length - 1;
    var d := 0;
    while i > 0
      invariant -1 <= i < s.Length && 0 <= d <= |draws|
      invariant ShuffleFrom(s[..], i, draws[d..]) == Shuffled(old(s[..]), draws)
    {
      if d == |draws| {
        return;
      }
      var k := draws[d] % (i + 1);
      ghost var was := s[..];
      s[i], s[k] := s[k], s[i];
      assert s[..] == was[i := was[k]][k := was[i]];
      assert draws[d..][1..] == draws[d + 1..];
      i, d := i - 1, d + 1;
    }
  }

  method IndexListing(t1s: seq<Router>) returns (listed: map<string, string>, byName: map<string, string>)
    ensures listed == NameById(t1s) && byName == IdByName(t1s)
  {
    listed, byName := map[], map[];
    var i := 0;
    while i < |t1s|
      invariant 0 <= i <= |t1s|
      invariant listed == NameById(t1s[..i]) && byName == IdByName(t1s[..i])
    {
      assert t1s[..i + 1][..i] == t1s[..i];
      listed := listed[t1s[i].id := t1s[i].displayName];
      byName := byName[t1s[i].displayName := t1s[i].id];
      i := i + 1;
    }
    assert t1s[..i] == t1s;
  }

  class ClusterInventory {
    var buf: array<Observed>
    var len: nat
    var missCount: map<string, int>

    ghost predicate Valid() reads this {
      len <= buf.Length
    }

    /** The watchlist: the first `len` cells of the backing array. */
    function Contents(): seq<Observed>
      requires Valid()
      reads this, buf
    {
      buf[..len]
    }

    function Value(): Watch
      requires Valid()
      reads this, buf
    {
      Watch(Contents(), missCount)
    }

    constructor (w: Watch)
      ensures Valid() && fresh(buf) && Value() == w
    {
      len := |w.observed|;
      missCount := w.miss;
      var b := new Observed[|w.observed|](i requires 0 <= i < |w.observed| => w.observed[i]);
      buf := b;
      new;
      assert buf[..len] == w.observed;
    }

    /** Go's append: reuses the backing array while there is room. */
    method Append(o: Observed)
      requires Valid()
      modifies this`buf, this`len, buf
      ensures Valid() && (buf == old(buf) || fresh(buf))
      ensures Contents() == old(Contents()) + [o]
    {
      if len == buf.Length {
        var more := new Observed[2 * len + 1];
        var i := 0;
        while i < len
          modifies more
          invariant 0 <= i <= len
          invariant more[..i] == buf[..i]
        {
          more[i] := buf[i];
          i := i + 1;
        }
        buf := more;
      }
      buf[len] := o;
      len := len + 1;
    }

    /** One entry of step 1: read cell `i`, write cell `kept` at most. */
    method HealCell(i: nat, kept: nat, dropped: nat, listed: map<string, string>) returns (kept': nat, dropped': nat)
      requires kept <= i < len <= buf.Length
      modifies this`missCount, buf
      ensures kept <= kept' <= kept + 1
      ensures Healing(buf[..kept'], missCount, dropped') ==
              HealOne(Healing(old(buf[..kept]), old(missCount), dropped), old(buf[i]), listed)
      ensures forall j | i < j < buf.Length :: buf[j] == old(buf[j])
    {
      kept', dropped' := kept, dropped;
      var o := buf[i];
      if o.id in listed {
        missCount := missCount - {o.id};
        if listed[o.id] != "" {
          o := o.(name := listed[o.id]);
        }
        buf[kept] := o;
        kept' := kept + 1;
      } else if o.pinned {
        dropped' := dropped + 1;
      } else {
        missCount := missCount[o.id := Misses(missCount, o.id) + 1];
        if missCount[o.id] < MISS_THRESHOLD {
          buf[kept] := o;
          kept' := kept + 1;
        } else {
          missCount := missCount - {o.id};
          assert missCount == old(missCount) - {o.id};
          dropped' := dropped + 1;
        }
      }
      assert kept' > kept ==> buf[..kept'] == old(buf[..kept]) + [buf[kept]];
    }

    /** Step 1. Survivors are written back into the array being read: the write position never
        overtakes the read position. */
    method HealInPlace(listed: map<string, string>) returns (dropped: nat)
      requires Valid()
      modifies this`len, this`missCount, buf
      ensures Valid()
      ensures Healing(Contents(), missCount, dropped) == Heal(old(Value()), listed)
    {
      ghost var was := old(Value());
      var kept := 0;
      dropped := 0;
      var i := 0;
      while i < len
        invariant 0 <= kept <= i <= len && len == old(len) && buf == old(buf)
        invariant Healing(buf[..kept], missCount, dropped) == Heal(was.(observed := was.observed[..i]), listed)
        invariant forall j | i <= j < len :: buf[j] == was.observed[j]
      {
        assert was.observed[..i + 1][..i] == was.observed[..i];
        kept, dropped := HealCell(i, kept, dropped, listed);
        i := i + 1;
      }
      assert was.observed[..i] == was.observed;
      len := kept;
    }

    method AddPinnedNames(names: seq<string>, byName: map<string, string>, size: nat)
      requires Valid()
      modifies this`buf, this`len, buf
      ensures Valid() && (buf == old(buf) || fresh(buf))
      ensures Contents() == AddPinned(old(Contents()), names, byName, size)
    {
      var alreadyObserved := Ids(Contents());
      var i := 0;
      while i < |names|
        invariant 0 <= i <= |names|
        invariant Valid() && (buf == old(buf) || fresh(buf))
        invariant alreadyObserved == Ids(Contents())
        invariant AddPinned(Contents(), names[i..], byName, size) == AddPinned(old(Contents()), names, byName, size)
      {
        assert names[i..][1..] == names[i + 1..];
        if names[i] in byName && byName[names[i]] !in alreadyObserved {
          var id := byName[names[i]];
          ghost var before := Contents();
          Append(Observed(id, names[i], true));
          alreadyObserved := alreadyObserved + {id};
          IdsAppend(before, Observed(id, names[i], true));
          if len >= size {
            break;
          }
        }
        i := i + 1;
      }
    }

    method TopUpRandomly(t1s: seq<Router>, size: nat, draws: seq<nat>)
      requires Valid()
      modifies this`buf, this`len, buf
      ensures Valid() && (buf == old(buf) || fresh(buf))
      ensures Contents() == TopUp(old(Contents()), t1s, size, draws)
    {
      var alreadyObserved := Ids(Contents());
      var list: seq<Router> := [];
      var i := 0;
      while i < |t1s|
        invariant 0 <= i <= |t1s|
        invariant list == Candidates(t1s[..i], alreadyObserved)
      {
        assert t1s[..i + 1][..i] == t1s[..i];
        if t1s[i].id !in alreadyObserved {
          list := list + [t1s[i]];
        }
        i := i + 1;
      }
      assert t1s[..i] == t1s;
      var candidates := new Router[|list|](j requires 0 <= j < |list| => list[j]);
      assert candidates[..] == list;
      ShuffleInPlace(candidates, draws);
      ghost var picks := AsObserved(candidates[..]);
      i := 0;
      while i < candidates.Length
        invariant 0 <= i <= candidates.Length
        invariant Valid() && (buf == old(buf) || fresh(buf))
        invariant candidates != buf as object && picks == AsObserved(candidates[..])
        invariant Contents() == old(Contents()) + picks[..i]
        invariant i > 0 ==> old(len) + i <= size
      {
        if len >= size {
          break;
        }
        Append(Observed(candidates[i].id, candidates[i].displayName, false));
        i := i + 1;
      }
    }

    /** Steps 2 and 3. */
    method FillInPlace(cfg: Config, byName: map<string, string>, t1s: seq<Router>, draws: seq<nat>)
      requires Valid() && byName == IdByName(t1s)
      modifies this`buf, this`len, buf
      ensures Valid() && (buf == old(buf) || fresh(buf))
      ensures Contents() == Filled(cfg, WithPins(cfg, old(Contents()), t1s), t1s, draws)
    {
      if cfg.UsesPins() {
        AddPinnedNames(cfg.t1Names, byName, cfg.Size());
      }
      if cfg.TopsUp() {
        TopUpRandomly(t1s, cfg.Size(), draws);
      }
    }

    method RefreshWatchlist(cfg: Config, t1s: seq<Router>, draws: seq<nat>) returns (dropped: nat)
      requires Valid()
      modifies this, buf
      ensures Valid() && (buf == old(buf) || fresh(buf))
      ensures Value() == Refresh(cfg, old(Value()), t1s, draws)
      ensures dropped == Heal(old(Value()), NameById(t1s)).dropped
    {
      var listed, byName := IndexListing(t1s);
      dropped := HealInPlace(listed);
      FillInPlace(cfg, byName, t1s, draws);
      if len > cfg.Size() {
        len := cfg.Size();
      }
    }

    method BumpMissCounts(missed: set<string>)
      requires Valid()
      modifies this`missCount
      ensures Value() == old(Value()).(miss := Bump(old(missCount), missed))
    {
      var todo := missed;
      while todo != {}
        invariant todo <= missed
        invariant missCount == Bump(old(missCount), missed - todo)
      {
        var id :| id in todo;
        missCount := missCount[id := Misses(missCount, id) + 1];
        todo := todo - {id};
      }
      assert missed - todo == missed;
    }
  }

  lemma IdsAppend(obs: seq<Observed>, o: Observed)
    ensures Ids(obs + [o]) == Ids(obs) + {o.id}
  {
    assert forall x :: x in obs + [o] <==> x in obs || x == o;
  }
}
