/** The alert cooldown: check, query without the lock, re-check and claim, by any number of
    concurrent callers. */
module AlertCooldown {
  import opened Basics

  /** Three minutes, in nanoseconds. */
  const COOLDOWN: int := 180_000_000_000
  const WARN_THRESHOLD: real := 90.0

  type Cooldowns = map<string, int>

  function CanAlert(cooldown: Cooldowns, key: string, now: int): bool {
    key !in cooldown || now - cooldown[key] >= COOLDOWN
  }

  /** The aggregated rx and tx utilization; None when the query fails. */
  type Answer = Option<(real, real)>

  predicate IsSaturated(a: Answer) {
    a.Some? && (if a.value.1 > a.value.0 then a.value.1 else a.value.0) >= WARN_THRESHOLD
  }

  /** The two critical sections; each holds the mutex from start to end. */
  class Evaluator {
    var cooldown: Cooldowns

    constructor ()
      ensures cooldown == map[]
    {
      cooldown := map[];
    }

    method Check(key: string, now: int) returns (ok: bool)
      ensures ok == CanAlert(cooldown, key, now)
      ensures ok <==> key !in cooldown || now - cooldown[key] >= 180_000_000_000
    {
      ok := true;
      if key in cooldown {
        ok := now - cooldown[key] >= COOLDOWN;
      }
    }

    method RecheckAndClaim(key: string, now: int) returns (claimed: bool)
      modifies this
      ensures claimed == CanAlert(old(cooldown), key, now)
      ensures claimed <==> key !in old(cooldown) || now - old(cooldown)[key] >= 180_000_000_000
      ensures cooldown == if claimed then old(cooldown)[key := now] else old(cooldown)
    {
      claimed := Check(key, now);
      if claimed {
        cooldown := cooldown[key := now];
      }
    }
  }

  // ---- Interleavings ----------------------------------------------------------------

  /** Where a call of Evaluate stands. `now` is captured on entry and never refreshed. */
  datatype Phase =
    | Entered | Querying | Saturated
    | Suppressed   // refused by the first or the second check
    | Quiet        // query failed or below the threshold
    | Alerted

  datatype Call = Call(key: string, now: int, phase: Phase)

  datatype Claim = Claim(key: string, at: int)

  /** Callers are numbered by arrival; `claims` records every write to the map, in order. */
  datatype State = State(cooldown: Cooldowns, calls: seq<Call>, claims: seq<Claim>)

  const INIT: State := State(map[], [], [])

  datatype Label = Enter(key: string, now: int) | FirstCheck(c: nat) | Query(c: nat, a: Answer) | SecondCheck(c: nat)

  function Move(s: State, c: nat, p: Phase): State
    requires c < |s.calls|
  {
    s.(calls := s.calls[c := s.calls[c].(phase := p)])
  }

  ghost predicate Step(s: State, l: Label, s': State) {
    match l
    case Enter(key, now) =>
      s' == s.(calls := s.calls + [Call(key, now, Entered)])
    case FirstCheck(c) =>
      && c < |s.calls| && s.calls[c].phase == Entered
      && s' == Move(s, c, if CanAlert(s.cooldown, s.calls[c].key, s.calls[c].now) then Querying else Suppressed)
    case Query(c, a) =>
      && c < |s.calls| && s.calls[c].phase == Querying
      && s' == Move(s, c, if IsSaturated(a) then Saturated else Quiet)
    case SecondCheck(c) =>
      && c < |s.calls| && s.calls[c].phase == Saturated
      && var key, now := s.calls[c].key, s.calls[c].now;
         s' == if CanAlert(s.cooldown, key, now)
               then Move(s, c, Alerted).(cooldown := s.cooldown[key := now], claims := s.claims + [Claim(key, now)])
               else Move(s, c, Suppressed)
  }

  ghost predicate IsRun(run: seq<State>, labels: seq<Label>) {
    var n := |run| - 1;
    && |run| == |labels| + 1
    && if n == 0 then run[0] == INIT
       else IsRun(run[..n], labels[..n - 1]) && Step(run[n - 1], labels[n - 1], run[n])
  }

  /** The times at which `key` was claimed, in order. */
  function TimesOf(claims: seq<Claim>, key: string): seq<int> {
    if claims == [] then []
    else
      var n := |claims| - 1;
      TimesOf(claims[..n], key) + if claims[n].key == key then [claims[n].at] else []
  }

  ghost predicate Spaced(times: seq<int>) {
    forall i, j | 0 <= i < j < |times| :: times[j] - times[i] >= COOLDOWN
  }

  /** A claim of `key` less than one cooldown before `now` (or after it). */
  ghost predicate Recent(claims: seq<Claim>, key: string, now: int) {
    exists c :: c in claims && c.key == key && now - c.at < COOLDOWN
  }

  /** The map entry of `k` is its latest claim, and the claims of `k` are spaced. */
  ghost predicate KeyOk(cooldown: Cooldowns, claims: seq<Claim>, k: string) {
    var times := TimesOf(claims, k);
    Spaced(times) && (k in cooldown <==> times != []) && (times != [] ==> cooldown[k] == times[|times| - 1])
  }

  ghost predicate CallOk(claims: seq<Claim>, c: Call) {
    && (c.phase == Suppressed ==> Recent(claims, c.key, c.now))
    && (c.phase == Alerted ==> Claim(c.key, c.now) in claims)
  }

  ghost predicate Inv(s: State) {
    && (forall k :: KeyOk(s.cooldown, s.claims, k))
    && (forall i | 0 <= i < |s.calls| :: CallOk(s.claims, s.calls[i]))
  }

  lemma {:induction false} TimesAreClaims(claims: seq<Claim>, key: string)
    ensures forall t | t in TimesOf(claims, key) :: Claim(key, t) in claims
  {
    if claims != [] { TimesAreClaims(claims[..|claims| - 1], key); }
  }

  lemma RefusedIsRecent(s: State, key: string, now: int)
    requires Inv(s) && !CanAlert(s.cooldown, key, now)
    ensures Recent(s.claims, key, now)
  {
    assert KeyOk(s.cooldown, s.claims, key);
    var times := TimesOf(s.claims, key);
    TimesAreClaims(s.claims, key);
    assert times[|times| - 1] in times;
    assert Claim(key, s.cooldown[key]) in s.claims;
  }

  lemma ClaimKeepsKeys(s: State, key: string, now: int, k: string)
    requires KeyOk(s.cooldown, s.claims, k) && CanAlert(s.cooldown, key, now)
    ensures KeyOk(s.cooldown[key := now], s.claims + [Claim(key, now)], k)
  {
    var more := s.claims + [Claim(key, now)];
    assert more[..|s.claims|] == s.claims;
    var times := TimesOf(s.claims, k);
    if k == key && times != [] {
      forall i | 0 <= i < |times| ensures now - times[i] >= COOLDOWN {
        assert now - times[|times| - 1] >= COOLDOWN;
        if i < |times| - 1 { assert times[|times| - 1] - times[i] >= COOLDOWN; }
      }
    }
  }

  lemma ClaimKeepsCall(claims: seq<Claim>, more: Claim, c: Call)
    requires CallOk(claims, c)
    ensures CallOk(claims + [more], c)
  {
    if c.phase == Suppressed {
      var x :| x in claims && x.key == c.key && c.now - x.at < COOLDOWN;
      assert x in claims + [more];
    }
  }

  lemma SecondCheckKeepsInv(s: State, c: nat, s': State)
    requires Inv(s) && Step(s, SecondCheck(c), s')
    ensures Inv(s')
  {
    var call := s.calls[c];
    if CanAlert(s.cooldown, call.key, call.now) {
      forall k ensures KeyOk(s'.cooldown, s'.claims, k) {
        ClaimKeepsKeys(s, call.key, call.now, k);
      }
      assert s'.claims[|s.claims|] == Claim(call.key, call.now);
      forall i | 0 <= i < |s'.calls| ensures CallOk(s'.claims, s'.calls[i]) {
        if i != c { ClaimKeepsCall(s.claims, Claim(call.key, call.now), s.calls[i]); }
      }
    } else {
      RefusedIsRecent(s, call.key, call.now);
    }
  }

  lemma StepKeepsInv(s: State, l: Label, s': State)
    requires Inv(s) && Step(s, l, s')
    ensures Inv(s')
  {
    match l
    case SecondCheck(c) => SecondCheckKeepsInv(s, c, s');
    case FirstCheck(c) =>
      if s'.calls[c].phase == Suppressed { RefusedIsRecent(s, s.calls[c].key, s.calls[c].now); }
    case _ =>
  }

  lemma {:induction false} RunKeepsInv(run: seq<State>, labels: seq<Label>)
    requires IsRun(run, labels)
    ensures Inv(run[|run| - 1])
  {
    var n := |run| - 1;
    if n > 0 {
      RunKeepsInv(run[..n], labels[..n - 1]);
      StepKeepsInv(run[n - 1], labels[n - 1], run[n]);
    }
  }

  // ---- Results -------------------------------------------------------------------------

  /** Under every interleaving of any number of callers, and although each works with a time
      captured before its query, the claims of one key are at least one cooldown apart, in
      strictly increasing order. */
  lemma ClaimsAreSpaced(run: seq<State>, labels: seq<Label>, key: string)
    requires IsRun(run, labels)
    ensures var times := TimesOf(run[|run| - 1].claims, key);
            Spaced(times) && forall i, j | 0 <= i < j < |times| :: times[j] - times[i] >= 180_000_000_000
  {
    RunKeepsInv(run, labels);
    assert KeyOk(run[|run| - 1].cooldown, run[|run| - 1].claims, key);
  }

  function CountWithin(times: seq<int>, from: int, to: int): nat {
    if times == [] then 0
    else
      var n := |times| - 1;
      CountWithin(times[..n], from, to) + if from <= times[n] <= to then 1 else 0
  }

  lemma {:induction false} LaterBoundIrrelevant(times: seq<int>, from: int, to1: int, to2: int)
    requires forall t | t in times :: t <= to1 && t <= to2
    ensures CountWithin(times, from, to1) == CountWithin(times, from, to2)
  {
    if times != [] {
      var front := times[..|times| - 1];
      assert times[|times| - 1] in times;
      forall t | t in front ensures t <= to1 && t <= to2 {
        assert t in times;
      }
      LaterBoundIrrelevant(front, from, to1, to2);
    }
  }

  lemma {:induction false} SpacedCount(times: seq<int>, from: int, to: int)
    requires Spaced(times)
    ensures CountWithin(times, from, to) <= if to < from then 0 else (to - from) / COOLDOWN + 1
  {
    if times != [] {
      var n := |times| - 1;
      var front, last := times[..n], times[n];
      SpacedCount(front, from, to);
      if from <= last <= to {
        assert forall t | t in front :: t <= last - COOLDOWN;
        LaterBoundIrrelevant(front, from, to, last - COOLDOWN);
        SpacedCount(front, from, last - COOLDOWN);
        assert (last - COOLDOWN - from) / COOLDOWN == (last - from) / COOLDOWN - 1;
      }
    }
  }

  /** Any window of length `width` holds at most floor(width / cooldown) + 1 alerts per key. */
  lemma AlertsPerWindow(run: seq<State>, labels: seq<Label>, key: string, from: int, width: nat)
    requires IsRun(run, labels)
    ensures CountWithin(TimesOf(run[|run| - 1].claims, key), from, from + width) <= width / 180_000_000_000 + 1
  {
    ClaimsAreSpaced(run, labels, key);
    SpacedCount(TimesOf(run[|run| - 1].claims, key), from, from + width);
  }

  /** No alert is lost for nothing: a call is suppressed only if its key was claimed less than one
      cooldown before the call's own time, and a call that got through is on record. */
  lemma SuppressedOnlyWhenRecent(run: seq<State>, labels: seq<Label>, c: nat)
    requires IsRun(run, labels) && c < |run[|run| - 1].calls|
    ensures var s := run[|run| - 1]; var call := s.calls[c];
            && (call.phase == Suppressed ==>
                  exists x :: x in s.claims && x.key == call.key && call.now - x.at < 180_000_000_000)
            && (call.phase == Alerted ==> Claim(call.key, call.now) in s.claims)
  {
    RunKeepsInv(run, labels);
    assert CallOk(run[|run| - 1].claims, run[|run| - 1].calls[c]);
  }

  /** `now` is at least three minutes after every claim of `key`. */
  ghost predicate Due(claims: seq<Claim>, key: string, now: int) {
    forall x | x in claims && x.key == key :: now - x.at >= 180_000_000_000
  }

  lemma {:induction false} ClaimsAreTimes(claims: seq<Claim>, key: string)
    ensures forall x | x in claims && x.key == key :: x.at in TimesOf(claims, key)
  {
    if claims != [] {
      var n := |claims| - 1;
      ClaimsAreTimes(claims[..n], key);
      assert claims == claims[..n] + [claims[n]];
    }
  }

  lemma CanAlertIffDue(s: State, key: string, now: int)
    requires Inv(s)
    ensures CanAlert(s.cooldown, key, now) <==> Due(s.claims, key, now)
  {
    if CanAlert(s.cooldown, key, now) {
      assert KeyOk(s.cooldown, s.claims, key);
      ClaimsAreTimes(s.claims, key);
      var times := TimesOf(s.claims, key);
      forall x | x in s.claims && x.key == key ensures now - x.at >= 180_000_000_000 {
        var i :| 0 <= i < |times| && times[i] == x.at;
        if i < |times| - 1 { assert times[|times| - 1] - times[i] >= COOLDOWN; }
      }
    } else {
      RefusedIsRecent(s, key, now);
    }
  }

  /** Both checks, exactly: a call goes on to query, and after a high answer alerts, if and only if at
      that moment its time is at least one cooldown after every claim of its key; otherwise it is
      suppressed. */
  lemma ChecksPassIffDue(run: seq<State>, labels: seq<Label>, c: nat)
    requires IsRun(run, labels) && labels != []
    requires labels[|labels| - 1] == FirstCheck(c) || labels[|labels| - 1] == SecondCheck(c)
    ensures var n := |run| - 1;
            && c < |run[n - 1].calls| && c < |run[n].calls|
            && var call := run[n - 1].calls[c];
               var passed := if labels[n - 1] == FirstCheck(c) then Querying else Alerted;
               run[n].calls[c].phase == if Due(run[n - 1].claims, call.key, call.now) then passed else Suppressed
  {
    var n := |run| - 1;
    RunKeepsInv(run[..n], labels[..n - 1]);
    CanAlertIffDue(run[n - 1], run[n - 1].calls[c].key, run[n - 1].calls[c].now);
  }

  // ---- Alerts and saturation -------------------------------------------------------------

  /** The query of call `c` has been answered, with rx or tx at 90 % or more. */
  ghost predicate AnsweredHigh(labels: seq<Label>, c: nat) {
    exists a: Answer :: Query(c, a) in labels && a.Some? && (a.value.0 >= 90.0 || a.value.1 >= 90.0)
  }

  /** It failed, or was answered with both below 90 %. */
  ghost predicate AnsweredLow(labels: seq<Label>, c: nat) {
    exists a: Answer :: Query(c, a) in labels && (a.None? || (a.value.0 < 90.0 && a.value.1 < 90.0))
  }

  lemma AnswersStay(labels: seq<Label>, l: Label, c: nat)
    ensures AnsweredHigh(labels, c) ==> AnsweredHigh(labels + [l], c)
    ensures AnsweredLow(labels, c) ==> AnsweredLow(labels + [l], c)
  {
    forall a: Answer | Query(c, a) in labels ensures Query(c, a) in labels + [l] {}
  }

  lemma QueryDecides(s: State, c: nat, a: Answer, s': State)
    requires Step(s, Query(c, a), s')
    ensures s'.calls[c].phase == Quiet <==> a.None? || (a.value.0 < 90.0 && a.value.1 < 90.0)
    ensures s'.calls[c].phase == Saturated <==> a.Some? && (a.value.0 >= 90.0 || a.value.1 >= 90.0)
  {
  }

  lemma StepKeepsAnswers(s: State, labels: seq<Label>, l: Label, s': State, c: nat)
    requires Step(s, l, s') && c < |s'.calls|
    requires c < |s.calls| && (s.calls[c].phase == Saturated || s.calls[c].phase == Alerted) ==> AnsweredHigh(labels, c)
    requires c < |s.calls| && s.calls[c].phase == Quiet ==> AnsweredLow(labels, c)
    ensures s'.calls[c].phase == Saturated || s'.calls[c].phase == Alerted ==> AnsweredHigh(labels + [l], c)
    ensures s'.calls[c].phase == Quiet ==> AnsweredLow(labels + [l], c)
  {
    AnswersStay(labels, l, c);
    if l.Query? && l.c == c {
      QueryDecides(s, c, l.a, s');
      assert Query(c, l.a) in labels + [l];
    }
  }

  /** An alert means saturation, and silence the lack of it: whoever alerted had an answer with rx or
      tx at 90 % or more, and whoever went quiet a failed query or both below. */
  lemma {:induction false} AlertsMeanSaturation(run: seq<State>, labels: seq<Label>, c: nat)
    requires IsRun(run, labels) && c < |run[|run| - 1].calls|
    ensures var phase := run[|run| - 1].calls[c].phase;
            && (phase == Saturated || phase == Alerted ==> AnsweredHigh(labels, c))
            && (phase == Quiet ==> AnsweredLow(labels, c))
  {
    var n := |run| - 1;
    if n > 0 {
      var front := labels[..n - 1];
      if c < |run[n - 1].calls| { AlertsMeanSaturation(run[..n], front, c); }
      StepKeepsAnswers(run[n - 1], front, labels[n - 1], run[n], c);
      assert front + [labels[n - 1]] == labels;
    }
  }
}
