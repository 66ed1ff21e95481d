/** The life of a request goroutine behind a semaphore, for any kind of request. */
module Goroutines {

  /** Where a goroutine stands: waiting for a slot, request in flight, answer in hand, answer
      recorded (slot still held), returned. */
  datatype Phase = Waiting | Requesting | Answered | Recorded | Returned

  ghost function At<K>(phase: map<K, Phase>, p: Phase): set<K> {
    set k | k in phase && phase[k] == p
  }

  /** Goroutines that hold a slot. */
  ghost function Holding<K>(phase: map<K, Phase>): set<K> {
    set k | k in phase && phase[k] != Waiting && phase[k] != Returned
  }

  /** Goroutines whose result has been recorded. */
  ghost function Done<K>(phase: map<K, Phase>): set<K> {
    set k | k in phase && (phase[k] == Recorded || phase[k] == Returned)
  }

  /** Steps still to be taken before everyone has returned. */
  ghost function Work<K>(phase: map<K, Phase>): nat {
    4 * |At(phase, Waiting)| + 3 * |At(phase, Requesting)| + 2 * |At(phase, Answered)| + |At(phase, Recorded)|
  }

  ghost predicate Successors(p: Phase, q: Phase) {
    || (p == Waiting && q == Requesting)
    || (p == Requesting && q == Answered)
    || (p == Answered && q == Recorded)
    || (p == Recorded && q == Returned)
  }

  lemma OneMoved<K>(before: set<K>, after: set<K>, k: K)
    requires forall i | i != k :: i in after <==> i in before
    ensures |after| == |before| + (if k in after then 1 else 0) - if k in before then 1 else 0
  {
    assert after - {k} == before - {k};
    assert |after| == |after - {k}| + if k in after then 1 else 0;
    assert |before| == |before - {k}| + if k in before then 1 else 0;
  }

  lemma AtAfter<K>(phase: map<K, Phase>, k: K, q: Phase, o: Phase)
    ensures |At(phase[k := q], o)| == |At(phase, o)| + (if q == o then 1 else 0) - if k in At(phase, o) then 1 else 0
  {
    OneMoved(At(phase, o), At(phase[k := q], o), k);
  }

  lemma StepSpendsWork<K>(phase: map<K, Phase>, k: K, q: Phase)
    requires k in phase && Successors(phase[k], q)
    ensures Work(phase[k := q]) == Work(phase) - 1
  {
    WorkAfter(phase, k, q);
  }

  lemma LaunchAddsWork<K>(phase: map<K, Phase>, k: K)
    requires k !in phase
    ensures Work(phase[k := Waiting]) == Work(phase) + 4
  {
    WorkAfter(phase, k, Waiting);
  }

  function Steps(p: Phase): nat {
    match p
    case Waiting => 4
    case Requesting => 3
    case Answered => 2
    case Recorded => 1
    case Returned => 0
  }

  lemma WorkAfter<K>(phase: map<K, Phase>, k: K, q: Phase)
    ensures Work(phase[k := q]) == Work(phase) + Steps(q) - if k in phase then Steps(phase[k]) else 0
  {
    AtAfter(phase, k, q, Waiting);
    AtAfter(phase, k, q, Requesting);
    AtAfter(phase, k, q, Answered);
    AtAfter(phase, k, q, Recorded);
  }

  lemma NoWorkIffReturned<K>(phase: map<K, Phase>)
    ensures Work(phase) == 0 <==> forall k | k in phase :: phase[k] == Returned
  {
    if Work(phase) == 0 {
      forall k | k in phase ensures phase[k] == Returned {
        assert k !in At(phase, Waiting) && k !in At(phase, Requesting);
        assert k !in At(phase, Answered) && k !in At(phase, Recorded);
      }
    }
  }

  lemma HoldingAfter<K>(phase: map<K, Phase>, k: K, q: Phase)
    ensures var was := k in Holding(phase);
            var now := q != Waiting && q != Returned;
            |Holding(phase[k := q])| == |Holding(phase)| + (if now then 1 else 0) - if was then 1 else 0
  {
    OneMoved(Holding(phase), Holding(phase[k := q]), k);
  }
}
