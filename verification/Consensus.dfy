/** The consensus step of the HA cycle: which transport node is ACTIVE for most observed T1s. */
module Consensus {
  import opened Basics

  /** T1 id -> transport node seen ACTIVE; "" when the reply named no ACTIVE node. */
  type Actives = map<string, string>

  /** The T1s whose ACTIVE is `node`. */
  function Votes(seen: Actives, node: string): set<string> {
    set t | t in seen && seen[t] == node
  }

  /** The T1s that returned some ACTIVE node. */
  function Voters(seen: Actives): set<string> {
    set t | t in seen && seen[t] != ""
  }

  /** `counts` tallies, for every node named by some T1, exactly the T1s that name it. */
  ghost predicate IsTally(seen: Actives, counts: map<string, int>) {
    && (forall n :: n in counts <==> n != "" && Votes(seen, n) != {})
    && (forall n | n in counts :: counts[n] == |Votes(seen, n)|)
  }

  lemma VotesGrow(seen: Actives, t: string, tn: string, n: string)
    requires t !in seen
    ensures Votes(seen[t := tn], n) == if n == tn then Votes(seen, n) + {t} else Votes(seen, n)
    ensures t !in Votes(seen, n)
  {
  }

  lemma TallyGrows(seen: Actives, counts: map<string, int>, t: string, tn: string)
    requires IsTally(seen, counts) && t !in seen
    ensures IsTally(seen[t := tn],
                    if tn == "" then counts else counts[tn := (if tn in counts then counts[tn] else 0) + 1])
  {
    var more := if tn == "" then counts else counts[tn := (if tn in counts then counts[tn] else 0) + 1];
    VotesGrow(seen, t, tn, tn);
    forall n ensures n in more <==> n != "" && Votes(seen[t := tn], n) != {}
             ensures n in more ==> more[n] == |Votes(seen[t := tn], n)|
    {
      VotesGrow(seen, t, tn, n);
    }
  }

  method CountNodes(seen: Actives) returns (counts: map<string, int>)
    ensures IsTally(seen, counts)
  {
    counts := map[];
    var todo := seen.Keys;
    ghost var part: Actives := map[];
    while todo != {}
      invariant todo <= seen.Keys
      invariant part == map t | t in seen && t !in todo :: seen[t]
      invariant IsTally(part, counts)
    {
      var t :| t in todo;
      var tn := seen[t];
      TallyGrows(part, counts, t, tn);
      if tn != "" {
        counts := counts[tn := (if tn in counts then counts[tn] else 0) + 1];
      }
      todo := todo - {t};
      part := part[t := tn];
    }
    assert part == seen;
  }

  /** The largest count and, among the keys holding it, the lexically smallest;
      ("", 0) when nothing has a positive count. */
  ghost predicate IsMode(counts: map<string, int>, key: string, cnt: int) {
    if exists k :: k in counts && counts[k] > 0 then
      && key in counts && counts[key] == cnt
      && (forall k | k in counts :: counts[k] <= cnt)
      && (forall k | k in counts && counts[k] == cnt && k != key :: Less(key, k))
    else
      key == "" && cnt == 0
  }

  /** Scans the map in an arbitrary order, as Go does. */
  method MostFrequent(counts: map<string, int>) returns (key: string, cnt: int)
    ensures IsMode(counts, key, cnt)
  {
    key, cnt := "", 0;
    var todo := counts.Keys;
    ghost var part: map<string, int> := map[];
    while todo != {}
      invariant todo <= counts.Keys
      invariant part == map k | k in counts && k !in todo :: counts[k]
      invariant IsMode(part, key, cnt)
      invariant cnt >= 0
    {
      var k :| k in todo;
      var v := counts[k];
      ghost var next := part[k := v];
      assert forall x | x in part :: x in next && next[x] == part[x];
      if key in part { LessTotal(k, key); }
      if v > cnt {
        assert next[k] > 0;
        key, cnt := k, v;
      } else if v == cnt && Less(k, key) {
        forall x | x in part && part[x] == cnt && x != k ensures Less(k, x) {
          if x != key { LessTransitive(k, key, x); }
        }
        key := k;
      }
      todo := todo - {k};
      part := next;
    }
    assert part == counts;
  }

  /** Whatever order the map is scanned in, the answer is the same. */
  lemma ModeUnique(counts: map<string, int>, k1: string, n1: int, k2: string, n2: int)
    requires IsMode(counts, k1, n1) && IsMode(counts, k2, n2)
    ensures k1 == k2 && n1 == n2
  {
    LessTotal(k1, k2);
  }

  /** The tally loses nothing: the counts add up to the T1s that returned an ACTIVE. */
  lemma {:induction false} TallyConserved(seen: Actives, counts: map<string, int>)
    requires IsTally(seen, counts)
    ensures Sum(counts, counts.Keys) == |Voters(seen)|
  {
    SumIsVotes(seen, counts, counts.Keys);
    assert Voters(seen) == VotersFor(seen, counts.Keys) by {
      forall t | t in seen && seen[t] != "" ensures seen[t] in counts {
        assert t in Votes(seen, seen[t]);
      }
    }
  }

  function VotersFor(seen: Actives, nodes: set<string>): set<string> {
    set t | t in seen && seen[t] in nodes
  }

  lemma {:induction false} SumIsVotes(seen: Actives, counts: map<string, int>, keys: set<string>)
    requires IsTally(seen, counts) && keys <= counts.Keys
    ensures Sum(counts, keys) == |VotersFor(seen, keys)|
    decreases keys
  {
    if keys == {} {
      assert VotersFor(seen, keys) == {};
    } else {
      var k :| k in keys;
      SumSplits(counts, keys, k);
      SumIsVotes(seen, counts, keys - {k});
      VotersSplit(seen, keys, k);
    }
  }

  lemma VotersSplit(seen: Actives, keys: set<string>, k: string)
    requires k in keys
    ensures |VotersFor(seen, keys)| == |VotersFor(seen, keys - {k})| + |Votes(seen, k)|
  {
    assert VotersFor(seen, keys) == VotersFor(seen, keys - {k}) + Votes(seen, k);
    assert VotersFor(seen, keys - {k}) !! Votes(seen, k);
  }

  /** The consensus never counts more T1s than were seen, so the number of outliers
      `observed - consensus` is never negative and its clamp to zero is dead code. */
  lemma ConsensusWithinObserved(seen: Actives, counts: map<string, int>, key: string, cnt: int)
    requires IsTally(seen, counts) && IsMode(counts, key, cnt)
    ensures 0 <= cnt <= |seen|
    ensures key != "" <==> Voters(seen) != {}
    ensures key != "" ==> cnt == |Votes(seen, key)|
    ensures forall n | n != "" :: |Votes(seen, n)| <= cnt
  {
    if n :| n in counts && counts[n] > 0 {
      SubsetCardinality(Votes(seen, key), seen.Keys);
      var t :| t in Votes(seen, key);
      assert t in Voters(seen);
    }
    if t :| t in Voters(seen) {
      assert t in Votes(seen, seen[t]);
      assert counts[seen[t]] > 0;
    }
  }
}
