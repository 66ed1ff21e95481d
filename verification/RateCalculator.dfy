/** Interface bandwidth from cumulative uint64 byte counters.
    Rates are over the reals; the counters wrap as they do in Go. */
module RateCalculator {
  import opened Basics

  const TWO63: int := 0x8000_0000_0000_0000
  const TWO64: int := 0x1_0000_0000_0000_0000

  type Uint64 = x: int | 0 <= x < TWO64

  /** Result of a uint64 operation. */
  function Wrap(x: int): Uint64 { x % TWO64 }

  /** 100 Gbit/s in bytes per second. */
  const MAX_BYTES_PER_SEC: real := 12_500_000_000.0

  datatype CounterState = CounterState(value: Uint64, ts: int)

  datatype Rate = Rate(rxBps: real, txBps: real, rxUtil: real, txUtil: real, linkMbps: int)

  /** A transport node: its identity is the site with the id. Counters are kept by display name, and
      one calculator serves all sites. */
  datatype Node = Node(site: string, id: string, name: string)

  predicate SameNode(a: Node, b: Node) { a.site == b.site && a.id == b.id }

  /** One sample: counters, link speed in Mbit/s and the time in nanoseconds. */
  datatype Sample = Sample(node: Node, iface: string, rx: Uint64, tx: Uint64, linkMbps: int, now: int)

  function Delta(prev: Uint64, curr: Uint64): Uint64 {
    if curr >= prev then Wrap(curr - prev)
    else Wrap(Wrap(Wrap((TWO64 - 1) - prev) + curr) + 1)
  }

  function CounterRate(prev: Uint64, curr: Uint64, elapsed: real): real
    requires elapsed != 0.0
  {
    Delta(prev, curr) as real / elapsed
  }

  function Seconds(nanos: int): real { nanos as real / 1_000_000_000.0 }

  function Base(node: string, iface: string): string { Glued(node, ':', iface) }
  function RxKey(node: string, iface: string): string { Base(node, iface) + ":rx" }
  function TxKey(node: string, iface: string): string { Base(node, iface) + ":tx" }

  type States = map<string, CounterState>

  /** Both entries are overwritten on every call, whatever becomes of the sample. */
  function Recorded(st: States, s: Sample): States {
    var rxKey, txKey := RxKey(s.node.name, s.iface), TxKey(s.node.name, s.iface);
    st[rxKey := CounterState(s.rx, s.now)][txKey := CounterState(s.tx, s.now)]
  }

  function Utilization(bps: real, linkMbps: int): real {
    if linkMbps <= 0 then 0.0
    else var pct := bps / (linkMbps as real * 1_000_000.0) * 100.0; if pct < 100.0 then pct else 100.0
  }

  class RateCalculator {
    var state: States

    constructor ()
      ensures state == map[]
    {
      state := map[];
    }

    method Calculate(s: Sample) returns (r: Option<Rate>)
      modifies this
      ensures state == Recorded(old(state), s)
      ensures r == RateOf(old(state), s)
    {
      var rxKey := RxKey(s.node.name, s.iface);
      var txKey := TxKey(s.node.name, s.iface);
      var hasRx, hasTx := rxKey in state, txKey in state;
      var prevRx := if hasRx then state[rxKey] else CounterState(0, 0);
      var prevTx := if hasTx then state[txKey] else CounterState(0, 0);
      state := state[rxKey := CounterState(s.rx, s.now)];
      state := state[txKey := CounterState(s.tx, s.now)];
      if !hasRx || !hasTx {
        return None;
      }
      var elapsed := Seconds(s.now - prevRx.ts);
      if elapsed < 10.0 {
        return None;
      }
      var rxBytesPerSec := CounterRate(prevRx.value, s.rx, elapsed);
      var txBytesPerSec := CounterRate(prevTx.value, s.tx, elapsed);
      if rxBytesPerSec == 0.0 && txBytesPerSec == 0.0 && elapsed > 30.0 && s.linkMbps > 0 {
        return None;
      }
      if rxBytesPerSec < 0.0 || txBytesPerSec < 0.0 {
        return None;
      }
      if rxBytesPerSec > MAX_BYTES_PER_SEC || txBytesPerSec > MAX_BYTES_PER_SEC {
        return None;
      }
      var rxBps, txBps := rxBytesPerSec * 8.0, txBytesPerSec * 8.0;
      r := Some(Rate(rxBps, txBps, Utilization(rxBps, s.linkMbps), Utilization(txBps, s.linkMbps), s.linkMbps));
    }
  }

  /** The sample's rate relative to the previous one of the same interface, if it is kept. */
  function RateOf(st: States, s: Sample): Option<Rate> {
    var rxKey, txKey := RxKey(s.node.name, s.iface), TxKey(s.node.name, s.iface);
    if rxKey !in st || txKey !in st || Seconds(s.now - st[rxKey].ts) < 10.0 then None
    else
      var elapsed := Seconds(s.now - st[rxKey].ts);
      var rx, tx := CounterRate(st[rxKey].value, s.rx, elapsed), CounterRate(st[txKey].value, s.tx, elapsed);
      if (rx == 0.0 && tx == 0.0 && elapsed > 30.0 && s.linkMbps > 0) || rx < 0.0 || tx < 0.0
         || rx > MAX_BYTES_PER_SEC || tx > MAX_BYTES_PER_SEC
      then None
      else Some(Rate(rx * 8.0, tx * 8.0,
                     Utilization(rx * 8.0, s.linkMbps), Utilization(tx * 8.0, s.linkMbps), s.linkMbps))
  }

  // ---- Wrap-around ------------------------------------------------------------------

  /** The delta is the difference modulo 2^64, and no step of its computation overflows. */
  lemma DeltaIsModular(prev: Uint64, curr: Uint64)
    ensures Delta(prev, curr) == (curr - prev) % 18_446_744_073_709_551_616
    ensures Delta(prev, curr) == if curr >= prev then curr - prev else curr - prev + TWO64
    ensures curr < prev ==> (TWO64 - 1) - prev + curr + 1 < TWO64
  {
  }

  /** So it recovers any true increment below 2^64 from the two readings. */
  lemma DeltaRecovers(before: int, after: int)
    requires 0 <= after - before < TWO64
    ensures Delta(Wrap(before), Wrap(after)) == after - before
  {
    DeltaIsModular(Wrap(before), Wrap(after));
    var x, y := before / TWO64, after / TWO64;
    assert before == x * TWO64 + Wrap(before);
    assert after == y * TWO64 + Wrap(after);
    assert y == x || y == x + 1;
  }

  /** Rates, deltas and the sanity bound, with the division cleared. */
  lemma RateBound(d: int, elapsed: real)
    requires elapsed > 0.0
    ensures d as real / elapsed <= MAX_BYTES_PER_SEC <==> d as real <= MAX_BYTES_PER_SEC * elapsed
    ensures d as real / elapsed * elapsed == d as real
    ensures d >= 0 ==> d as real / elapsed >= 0.0
    ensures d as real / elapsed == 0.0 <==> d == 0
  {
    var q := d as real / elapsed;
    assert q * elapsed == d as real;
    if q <= MAX_BYTES_PER_SEC { assert q * elapsed <= MAX_BYTES_PER_SEC * elapsed; }
    if q > MAX_BYTES_PER_SEC { assert q * elapsed > MAX_BYTES_PER_SEC * elapsed; }
  }

  // ---- Counter resets ------------------------------------------------------------------

  /** A counter reported as a non-negative int64. */
  predicate FromInt64(x: Uint64) { x < TWO63 }

  /** Longest gap, in whole seconds, over which the sanity bound still catches every reset. */
  const SAFE_SECONDS: real := 737_869_762.0

  /** For counters in the int64 range a reset looks like a delta above 2^63 and is rejected. */
  lemma ResetExceedsBound(prev: Uint64, curr: Uint64, elapsed: real)
    requires prev <= 9_223_372_036_854_775_807 && curr < prev && 0.0 < elapsed <= 737_869_762.0
    ensures CounterRate(prev, curr, elapsed) > 12_500_000_000.0
  {
    DeltaIsModular(prev, curr);
    var d := Delta(prev, curr);
    assert d >= TWO63 + 1;
    RateBound(d, elapsed);
    assert MAX_BYTES_PER_SEC * elapsed <= MAX_BYTES_PER_SEC * SAFE_SECONDS;
    assert MAX_BYTES_PER_SEC * SAFE_SECONDS < (TWO63 + 1) as real;
  }

  /** A rate is reported exactly when both counters are known, the interval is at least ten
      seconds, neither counter went down, neither grew faster than 100 Gbit/s, and the sample
      is not a stale read (nothing moved for more than 30 s on a link of known speed).
      In particular a counter reset never produces a rate. Times are in nanoseconds. */
  lemma ReportedIff(st: States, s: Sample)
    requires var rxKey, txKey := RxKey(s.node.name, s.iface), TxKey(s.node.name, s.iface);
             rxKey in st && txKey in st ==>
               && FromInt64(st[rxKey].value) && FromInt64(st[txKey].value) && FromInt64(s.rx) && FromInt64(s.tx)
               && s.now - st[rxKey].ts <= 737_869_762_000_000_000
    ensures RateOf(st, s).Some? <==>
            var rxKey, txKey := RxKey(s.node.name, s.iface), TxKey(s.node.name, s.iface);
            && rxKey in st && txKey in st
            && var nanos := s.now - st[rxKey].ts;
               && nanos >= 10_000_000_000
               && st[rxKey].value <= s.rx && st[txKey].value <= s.tx
               && 2 * (s.rx - st[rxKey].value) <= 25 * nanos
               && 2 * (s.tx - st[txKey].value) <= 25 * nanos
               && !(s.rx == st[rxKey].value && s.tx == st[txKey].value && nanos > 30_000_000_000 && s.linkMbps > 0)
  {
    var rxKey, txKey := RxKey(s.node.name, s.iface), TxKey(s.node.name, s.iface);
    if rxKey in st && txKey in st {
      var nanos := s.now - st[rxKey].ts;
      SecondsOf(nanos);
      if nanos >= 10_000_000_000 {
        DirectionOk(st[rxKey].value, s.rx, nanos);
        DirectionOk(st[txKey].value, s.tx, nanos);
      }
    }
  }

  lemma SecondsOf(nanos: int)
    ensures Seconds(nanos) * 1_000_000_000.0 == nanos as real
    ensures Seconds(nanos) >= 10.0 <==> nanos >= 10_000_000_000
    ensures Seconds(nanos) > 30.0 <==> nanos > 30_000_000_000
    ensures Seconds(nanos) <= 737_869_762.0 <==> nanos <= 737_869_762_000_000_000
  {
  }

  lemma DirectionOk(prev: Uint64, curr: Uint64, nanos: int)
    requires FromInt64(prev) && FromInt64(curr) && 10_000_000_000 <= nanos <= 737_869_762_000_000_000
    ensures Seconds(nanos) > 0.0
    ensures var rate := CounterRate(prev, curr, Seconds(nanos));
            && (rate <= MAX_BYTES_PER_SEC <==> prev <= curr && 2 * (curr - prev) <= 25 * nanos)
            && rate >= 0.0 && (rate == 0.0 <==> prev == curr)
  {
    SecondsOf(nanos);
    DeltaIsModular(prev, curr);
    RateBound(Delta(prev, curr), Seconds(nanos));
    if curr < prev { ResetExceedsBound(prev, curr, Seconds(nanos)); }
    assert MAX_BYTES_PER_SEC * Seconds(nanos) == 12.5 * nanos as real;
  }

  /** The limit on the gap is sharp: a reset can pass for a rate over an interval of `elapsed`
      seconds if and only if 100 Gbit/s could move 2^63 + 1 bytes in that time. */
  lemma ResetCanPassIff(elapsed: real)
    requires elapsed >= 10.0
    ensures (exists prev: Uint64, curr: Uint64 ::
               FromInt64(prev) && FromInt64(curr) && curr < prev
               && CounterRate(prev, curr, elapsed) <= MAX_BYTES_PER_SEC)
            <==> (TWO63 + 1) as real <= MAX_BYTES_PER_SEC * elapsed
  {
    if prev: Uint64, curr: Uint64 :|
      FromInt64(prev) && FromInt64(curr) && curr < prev && CounterRate(prev, curr, elapsed) <= MAX_BYTES_PER_SEC
    {
      DeltaIsModular(prev, curr);
      RateBound(Delta(prev, curr), elapsed);
    }
    if (TWO63 + 1) as real <= MAX_BYTES_PER_SEC * elapsed {
      var prev: Uint64, curr: Uint64 := TWO63 - 1, 0;
      DeltaIsModular(prev, curr);
      RateBound(Delta(prev, curr), elapsed);
      assert FromInt64(prev) && FromInt64(curr) && curr < prev && CounterRate(prev, curr, elapsed) <= MAX_BYTES_PER_SEC;
    }
  }

  /** Percentages: 0 on a link of unknown speed, 100 from the link's speed on, and exact below. */
  lemma UtilizationBounds(st: States, s: Sample)
    requires RateOf(st, s).Some?
    ensures var r := RateOf(st, s).value;
            && r.linkMbps == s.linkMbps
            && 0.0 <= r.rxUtil <= 100.0 && 0.0 <= r.txUtil <= 100.0
            && (s.linkMbps > 0 && r.rxUtil < 100.0 ==> r.rxUtil * (s.linkMbps as real * 1_000_000.0) == r.rxBps * 100.0)
            && (s.linkMbps > 0 && r.txUtil < 100.0 ==> r.txUtil * (s.linkMbps as real * 1_000_000.0) == r.txBps * 100.0)
            && (s.linkMbps <= 0 ==> r.rxUtil == r.txUtil == 0.0)
            && (s.linkMbps > 0 ==> (r.rxUtil == 100.0 <==> r.rxBps >= s.linkMbps as real * 1_000_000.0))
            && (s.linkMbps > 0 ==> (r.txUtil == 100.0 <==> r.txBps >= s.linkMbps as real * 1_000_000.0))
  {
    var r := RateOf(st, s).value;
    RateFields(st, s);
    UtilizationOf(r.rxBps, s.linkMbps);
    UtilizationOf(r.txBps, s.linkMbps);
  }

  lemma RateFields(st: States, s: Sample)
    requires RateOf(st, s).Some?
    ensures var r := RateOf(st, s).value;
            && r.linkMbps == s.linkMbps && r.rxBps >= 0.0 && r.txBps >= 0.0
            && r.rxUtil == Utilization(r.rxBps, s.linkMbps) && r.txUtil == Utilization(r.txBps, s.linkMbps)
  {
  }

  /** `util` is `bps` in percent of the link speed, capped, or 0 when the speed is not known. */
  ghost predicate IsPercentage(util: real, bps: real, linkMbps: int) {
    var link := linkMbps as real * 1_000_000.0;
    if linkMbps <= 0 then util == 0.0
    else if bps >= link then util == 100.0
    else 0.0 <= util < 100.0 && util * link == bps * 100.0
  }

  lemma UtilizationOf(bps: real, linkMbps: int)
    requires bps >= 0.0
    ensures IsPercentage(Utilization(bps, linkMbps), bps, linkMbps)
  {
    if linkMbps > 0 {
      var link := linkMbps as real * 1_000_000.0;
      PercentBounds(bps, link);
      PercentBelow(bps, link);
    }
  }

  lemma PercentBelow(bps: real, link: real)
    requires bps >= 0.0 && link > 0.0
    ensures bps / link * 100.0 < 100.0 <==> bps < link
  {
    var q := bps / link;
    assert q * link == bps;
    if q < 1.0 { assert q * link < 1.0 * link; }
    if q >= 1.0 { assert q * link >= 1.0 * link; }
  }

  lemma PercentBounds(bps: real, link: real)
    requires bps >= 0.0 && link > 0.0
    ensures bps / link * 100.0 >= 0.0
    ensures bps / link * 100.0 * link == bps * 100.0
  {
    var q := bps / link;
    assert q * link == bps;
    assert q * 100.0 * link == q * link * 100.0;
  }

  // ---- Keys ----------------------------------------------------------------------------

  /** The rx and tx keys of any two interfaces differ, and two rx (or two tx) keys coincide
      exactly when the joined names do. */
  lemma KeysCollideIff(n1: string, i1: string, n2: string, i2: string)
    ensures RxKey(n1, i1) != TxKey(n2, i2)
    ensures RxKey(n1, i1) == RxKey(n2, i2) <==> Base(n1, i1) == Base(n2, i2)
    ensures TxKey(n1, i1) == TxKey(n2, i2) <==> Base(n1, i1) == Base(n2, i2)
  {
    SuffixesSeparate(Base(n1, i1), Base(n2, i2));
  }

  /** The display names of two nodes are equal, or one goes on with a colon where the other ends. */
  predicate Clash(n1: string, n2: string) {
    n1 == n2 || Nested(':', n1, n2)
  }

  /** Exactly which nodes can have two interfaces that share their counters. */
  lemma NodesCollideIff(a: Node, b: Node)
    requires !SameNode(a, b)
    ensures (exists i1, i2 :: Base(a.name, i1) == Base(b.name, i2)) <==> Clash(a.name, b.name)
  {
    GlueCollidesIff(':', a.name, b.name);
    if a.name == b.name { assert Base(a.name, "") == Base(b.name, ""); }
    if i1, i2 :| Base(a.name, i1) == Base(b.name, i2) { SharedMeansNested(':', a.name, i1, b.name, i2); }
    if i1, i2 :| Glued(a.name, ':', i1) == Glued(b.name, ':', i2) { assert Base(a.name, i1) == Base(b.name, i2); }
  }

  /** A node's own interfaces keep apart under one display name; under another name the node does
      not find the counters of an interface again. */
  lemma OwnInterfacesCollideIff(n1: string, i1: string, n2: string, i2: string)
    ensures Base(n1, i1) == Base(n1, i2) <==> i1 == i2
    ensures Base(n1, i1) == Base(n2, i1) <==> n1 == n2
  {
    if Base(n1, i1) == Base(n1, i2) { SharedMeansNested(':', n1, i1, n1, i2); }
    if Base(n1, i1) == Base(n2, i1) { assert |n1| == |n2|; SharedMeansNested(':', n1, i1, n2, i1); }
  }

  /** A whole fleet: whatever the interfaces are called, no two of them share counters if and only if
      no display name clashes with that of another node, at any site. */
  lemma FleetSeparateIff(nodes: set<Node>)
    requires forall a, b | a in nodes && b in nodes && SameNode(a, b) :: a == b
    ensures (forall a, b, i1, i2 | a in nodes && b in nodes && Base(a.name, i1) == Base(b.name, i2) ::
               a == b && i1 == i2)
            <==> (forall a, b | a in nodes && b in nodes && a != b :: !Clash(a.name, b.name))
  {
    forall a, b | a in nodes && b in nodes && a != b && Clash(a.name, b.name)
      ensures exists i1, i2 :: Base(a.name, i1) == Base(b.name, i2)
    {
      NodesCollideIff(a, b);
    }
    forall a, b, i1, i2 | a in nodes && b in nodes && Base(a.name, i1) == Base(b.name, i2)
      ensures (a == b && i1 == i2) || (a != b && Clash(a.name, b.name))
    {
      SharedMeansNested(':', a.name, i1, b.name, i2);
      OwnInterfacesCollideIff(a.name, i1, b.name, i2);
    }
  }

  /** With colon-free node names the joined names agree only if both parts do; what is left are
      nodes of the same name. */
  lemma ColonFreeNodesSeparate(n1: string, i1: string, n2: string, i2: string)
    requires ':' !in n1 && ':' !in n2
    ensures Base(n1, i1) == Base(n2, i2) <==> n1 == n2 && i1 == i2
    ensures Clash(n1, n2) <==> n1 == n2
  {
    NestedHasColon(n1, n2);
    NestedHasColon(n2, n1);
    if Base(n1, i1) == Base(n2, i2) { SharedMeansNested(':', n1, i1, n2, i2); }
  }

  lemma NestedHasColon(n1: string, n2: string)
    ensures n1 + [':'] <= n2 ==> ':' in n2
  {
    if n1 + [':'] <= n2 { assert n2[|n1|] == ':'; }
  }

  /** For instance, and the colon may also be in an interface name. */
  lemma ColonsCanCollide()
    ensures Base("a:b", "c") == Base("a", "b:c")
  {
    assert "a:b" + [':'] + "c" == "a:b:c";
  }

  /** And two nodes of one name, at different sites say, always share equally named interfaces. */
  lemma NamesakesShare(site1: string, id1: string, site2: string, id2: string, name: string, iface: string)
    requires site1 != site2 || id1 != id2
    ensures var a, b := Node(site1, id1, name), Node(site2, id2, name);
            && !SameNode(a, b)
            && RxKey(a.name, iface) == RxKey(b.name, iface) && TxKey(a.name, iface) == TxKey(b.name, iface)
  {
  }

  // ---- Runs ------------------------------------------------------------------------------

  /** A sample with the true number of bytes behind each counter reading. */
  datatype Reading = Reading(sample: Sample, trueRx: int, trueTx: int)

  function After(run: seq<Reading>): States {
    if run == [] then map[] else Recorded(After(run[..|run| - 1]), run[|run| - 1].sample)
  }

  /** About this node, by identity, and this interface of it. */
  predicate About(r: Reading, node: Node, iface: string) {
    SameNode(r.sample.node, node) && r.sample.iface == iface
  }

  /** The readings of one interface, in order. */
  function Own(run: seq<Reading>, node: Node, iface: string): seq<Reading> {
    if run == [] then []
    else
      var n := |run| - 1;
      Own(run[..n], node, iface) + if About(run[n], node, iface) then [run[n]] else []
  }

  /** The readings kept under one joined name, whosever they are. */
  function Filed(run: seq<Reading>, base: string): seq<Reading> {
    if run == [] then []
    else
      var n := |run| - 1;
      var s := run[n].sample;
      Filed(run[..n], base) + if Base(s.node.name, s.iface) == base then [run[n]] else []
  }

  /** The node is sampled under this name only, and no other node under a name that clashes. */
  ghost predicate Apart(run: seq<Reading>, node: Node) {
    forall r | r in run ::
      if SameNode(r.sample.node, node) then r.sample.node.name == node.name else !Clash(r.sample.node.name, node.name)
  }

  /** Rx and tx entries always come and go together, with equal times. */
  lemma {:induction false} EntriesPaired(run: seq<Reading>, base: string)
    ensures base + ":rx" in After(run) <==> base + ":tx" in After(run)
    ensures base + ":rx" in After(run) ==> After(run)[base + ":rx"].ts == After(run)[base + ":tx"].ts
  {
    if run != [] {
      var s := run[|run| - 1].sample;
      EntriesPaired(run[..|run| - 1], base);
      var b := Base(s.node.name, s.iface);
      SuffixesSeparate(base, b);
    }
  }

  lemma SuffixesSeparate(a: string, b: string)
    ensures a + ":rx" == b + ":rx" <==> a == b
    ensures a + ":tx" == b + ":tx" <==> a == b
    ensures a + ":rx" != b + ":tx" && a + ":tx" != b + ":rx"
  {
    assert forall x: string :: (a + x)[..|a|] == a && (b + x)[..|b|] == b;
    assert (a + ":rx")[|a| + 1] == 'r' && (b + ":tx")[|b| + 1] == 't';
    assert (a + ":tx")[|a| + 1] == 't' && (b + ":rx")[|b| + 1] == 'r';
  }

  /** The entries are the last reading filed under the joined name, in every run. */
  lemma {:induction false} EntryIsLastFiled(run: seq<Reading>, node: string, iface: string)
    ensures var filed := Filed(run, Base(node, iface));
            if filed == [] then RxKey(node, iface) !in After(run) && TxKey(node, iface) !in After(run)
            else
              var last := filed[|filed| - 1].sample;
              && RxKey(node, iface) in After(run) && After(run)[RxKey(node, iface)] == CounterState(last.rx, last.now)
              && TxKey(node, iface) in After(run) && After(run)[TxKey(node, iface)] == CounterState(last.tx, last.now)
  {
    if run != [] {
      var n := |run| - 1;
      EntryIsLastFiled(run[..n], node, iface);
      var s := run[n].sample;
      KeysCollideIff(node, iface, s.node.name, s.iface);
      KeysCollideIff(s.node.name, s.iface, node, iface);
    }
  }

  lemma FiledIffOwn(r: Reading, node: Node, iface: string)
    requires Apart([r], node)
    ensures Base(r.sample.node.name, r.sample.iface) == Base(node.name, iface) <==> About(r, node, iface)
  {
    var s := r.sample;
    assert r in [r];
    if Base(s.node.name, s.iface) == Base(node.name, iface) {
      SharedMeansNested(':', s.node.name, s.iface, node.name, iface);
      OwnInterfacesCollideIff(node.name, s.iface, node.name, iface);
    }
  }

  lemma {:induction false} FiledAreOwn(run: seq<Reading>, node: Node, iface: string)
    requires Apart(run, node)
    ensures Filed(run, Base(node.name, iface)) == Own(run, node, iface)
  {
    if run != [] {
      var n := |run| - 1;
      assert run[n] in run;
      FiledAreOwn(run[..n], node, iface);
      FiledIffOwn(run[n], node, iface);
    }
  }

  /** The stored entries of an interface are its own previous reading, whatever the other
      interfaces of this and of other nodes did in between and whether or not that reading produced
      a rate. */
  lemma EntryIsOwnLast(run: seq<Reading>, node: Node, iface: string)
    requires Apart(run, node)
    ensures var own := Own(run, node, iface);
            var rx, tx := RxKey(node.name, iface), TxKey(node.name, iface);
            if own == [] then rx !in After(run) && tx !in After(run)
            else
              var last := own[|own| - 1].sample;
              && rx in After(run) && After(run)[rx] == CounterState(last.rx, last.now)
              && tx in After(run) && After(run)[tx] == CounterState(last.tx, last.now)
  {
    EntryIsLastFiled(run, node.name, iface);
    FiledAreOwn(run, node, iface);
  }

  datatype Direction = Rx | Tx

  function Key(d: Direction, s: Sample): string {
    if d == Rx then RxKey(s.node.name, s.iface) else TxKey(s.node.name, s.iface)
  }

  function Counter(d: Direction, s: Sample): Uint64 { if d == Rx then s.rx else s.tx }

  function True(d: Direction, r: Reading): int { if d == Rx then r.trueRx else r.trueTx }

  function Bps(d: Direction, r: Rate): real { if d == Rx then r.rxBps else r.txBps }

  /** The counter of an interface reads a true total that grows by less than 2^64 between its
      samples. */
  ghost predicate Faithful(d: Direction, own: seq<Reading>) {
    own == [] ||
    var n := |own| - 1;
    && Counter(d, own[n].sample) == Wrap(True(d, own[n]))
    && (n > 0 ==> 0 <= True(d, own[n]) - True(d, own[n - 1]) < TWO64)
    && Faithful(d, own[..n])
  }

  /** The bytes a rate stands for over an interval. */
  function BytesIn(bps: real, elapsed: real): real { bps * elapsed / 8.0 }

  /** Bytes accounted for by one sample: what its rate stands for over the elapsed time, or else
      the delta it discards. */
  function BytesOf(d: Direction, st: States, s: Sample): real {
    if Key(d, s) !in st || Key(Rx, s) !in st then 0.0
    else match RateOf(st, s)
      case Some(r) => BytesIn(Bps(d, r), Seconds(s.now - st[Key(Rx, s)].ts))
      case None => Delta(st[Key(d, s)].value, Counter(d, s)) as real
  }

  /** Bytes accounted for over a run, for one interface and direction. */
  function Accounted(d: Direction, run: seq<Reading>, node: Node, iface: string): real {
    if run == [] then 0.0
    else
      var n := |run| - 1;
      Accounted(d, run[..n], node, iface) +
      if About(run[n], node, iface) then BytesOf(d, After(run[..n]), run[n].sample) else 0.0
  }

  lemma BackToBytes(delta: int, elapsed: real, bps: real)
    requires elapsed > 0.0 && bps == delta as real / elapsed * 8.0
    ensures BytesIn(bps, elapsed) == delta as real
  {
    RateBound(delta, elapsed);
    var q := delta as real / elapsed;
    assert bps * elapsed == q * elapsed * 8.0;
  }

  lemma RateParts(d: Direction, st: States, s: Sample)
    requires RateOf(st, s).Some?
    ensures Key(Rx, s) in st && Key(Tx, s) in st
    ensures var elapsed := Seconds(s.now - st[Key(Rx, s)].ts);
            && elapsed >= 10.0
            && Bps(d, RateOf(st, s).value) == Delta(st[Key(d, s)].value, Counter(d, s)) as real / elapsed * 8.0
  {
  }

  /** Bits per second times seconds over eight gives back the counter delta. */
  lemma RateMeansDelta(d: Direction, st: States, s: Sample)
    requires RateOf(st, s).Some?
    ensures Key(Rx, s) in st && Key(Tx, s) in st
    ensures BytesIn(Bps(d, RateOf(st, s).value), Seconds(s.now - st[Key(Rx, s)].ts))
            == Delta(st[Key(d, s)].value, Counter(d, s)) as real
  {
    RateParts(d, st, s);
    var delta: int := Delta(st[Key(d, s)].value, Counter(d, s));
    BackToBytes(delta, Seconds(s.now - st[Key(Rx, s)].ts), Bps(d, RateOf(st, s).value));
  }

  lemma SampleBytes(d: Direction, st: States, s: Sample)
    requires Key(Rx, s) in st && Key(Tx, s) in st
    ensures BytesOf(d, st, s) == Delta(st[Key(d, s)].value, Counter(d, s)) as real
  {
    if RateOf(st, s).Some? { RateMeansDelta(d, st, s); }
  }

  /** Byte conservation: whatever mix of interfaces is sampled, the bytes behind an interface's
      reported rates plus the deltas of its discarded intervals are exactly the bytes that truly
      passed between its first and its last sample, through any number of counter wraps. */
  lemma {:induction false} BytesConserved(d: Direction, run: seq<Reading>, node: Node, iface: string)
    requires Apart(run, node)
    requires Faithful(d, Own(run, node, iface)) && Own(run, node, iface) != []
    ensures var own := Own(run, node, iface);
            Accounted(d, run, node, iface) == (True(d, own[|own| - 1]) - True(d, own[0])) as real
  {
    var n := |run| - 1;
    var front := run[..n];
    var before := Own(front, node, iface);
    assert Apart(front, node);
    if !About(run[n], node, iface) {
      assert Own(run, node, iface) == before;
      BytesConserved(d, front, node, iface);
    } else {
      EntryIsOwnLast(front, node, iface);
      if before == [] {
        NothingYet(d, front, node, iface);
      } else {
        var m := |before| - 1;
        assert (before + [run[n]])[..m + 1] == before;
        BytesConserved(d, front, node, iface);
        DeltaRecovers(True(d, before[m]), True(d, run[n]));
        SampleBytes(d, After(front), run[n].sample);
      }
    }
  }

  lemma {:induction false} NothingYet(d: Direction, run: seq<Reading>, node: Node, iface: string)
    requires Own(run, node, iface) == []
    ensures Accounted(d, run, node, iface) == 0.0
  {
    if run != [] { NothingYet(d, run[..|run| - 1], node, iface); }
  }

  /** A rate covers exactly the interval since the interface's previous sample, also when that
      one was itself discarded, and it never spans a counter that went down. */
  lemma RateIsSincePreviousSample(run: seq<Reading>, s: Sample)
    requires Apart(run, s.node)
    requires forall r | r in Own(run, s.node, s.iface) :: FromInt64(r.sample.rx) && FromInt64(r.sample.tx)
    requires FromInt64(s.rx) && FromInt64(s.tx)
    requires RateOf(After(run), s).Some?
    ensures var own := Own(run, s.node, s.iface);
            && own != []
            && var prev := own[|own| - 1].sample;
               var elapsed := Seconds(s.now - prev.now);
               var r := RateOf(After(run), s).value;
               elapsed <= SAFE_SECONDS ==>
                 && prev.rx <= s.rx && prev.tx <= s.tx
                 && BytesIn(r.rxBps, elapsed) == (s.rx - prev.rx) as real
                 && BytesIn(r.txBps, elapsed) == (s.tx - prev.tx) as real
  {
    EntryIsOwnLast(run, s.node, s.iface);
    var own := Own(run, s.node, s.iface);
    var prev := own[|own| - 1];
    assert prev in own;
    RateMeansDelta(Rx, After(run), s);
    RateMeansDelta(Tx, After(run), s);
    if Seconds(s.now - prev.sample.now) <= SAFE_SECONDS {
      ReportedIff(After(run), s);
      DeltaIsModular(prev.sample.rx, s.rx);
      DeltaIsModular(prev.sample.tx, s.tx);
    }
  }
}
