/** Small shared vocabulary: options, Go's string order, and cardinality facts about sets. */
module Basics {

  datatype Option<+T> = None | Some(value: T)

  /** Go's `<` on strings: lexicographic by code point. */
  predicate Less(a: string, b: string) {
    b != [] && (a == [] || a[0] < b[0] || (a[0] == b[0] && Less(a[1..], b[1..])))
  }

  lemma {:induction false} LessTotal(a: string, b: string)
    ensures Less(a, b) || Less(b, a) || a == b
    ensures !(Less(a, b) && Less(b, a))
    ensures a == b ==> !Less(a, b)
  {
    if a != [] && b != [] && a[0] == b[0] {
      LessTotal(a[1..], b[1..]);
      assert a == [a[0]] + a[1..] && b == [b[0]] + b[1..];
    }
  }

  lemma {:induction false} LessTransitive(a: string, b: string, c: string)
    requires Less(a, b) && Less(b, c)
    ensures Less(a, c)
  {
    if a != [] && a[0] == b[0] && b[0] == c[0] {
      LessTransitive(a[1..], b[1..], c[1..]);
    }
  }

  /** Which is: `a` is a proper prefix of `b`, or has the smaller code point where they first differ. */
  lemma {:induction false} LessIsLexicographic(a: string, b: string)
    ensures Less(a, b) <==> exists k :: AgreeUpTo(a, b, k) && k < |b| && (k == |a| || (k < |a| && a[k] < b[k]))
  {
    if a == [] || b == [] || a[0] != b[0] {
      assert AgreeUpTo(a, b, 0);
      assert forall k | AgreeUpTo(a, b, k) :: k == 0;
    } else {
      LessIsLexicographic(a[1..], b[1..]);
      forall k | AgreeUpTo(a, b, k) && k > 0 ensures AgreeUpTo(a[1..], b[1..], k - 1) {}
      forall k | AgreeUpTo(a[1..], b[1..], k) ensures AgreeUpTo(a, b, k + 1) {}
    }
  }

  ghost predicate AgreeUpTo(a: string, b: string, k: int) {
    0 <= k <= |a| && k <= |b| && forall i | 0 <= i < k :: a[i] == b[i]
  }

  /** Ascending by `key`, with equal keys in any order: what Go's sort package promises. */
  ghost predicate SortedBy<T>(s: seq<T>, key: T -> string) {
    forall i, j | 0 <= i < j < |s| :: !Less(key(s[j]), key(s[i]))
  }

  /** Insert `x` before the first element whose key is larger. */
  function Insert<T>(s: seq<T>, x: T, key: T -> string): seq<T> {
    if s == [] then [x]
    else if Less(key(x), key(s[0])) then [x] + s
    else [s[0]] + Insert(s[1..], x, key)
  }

  function Sort<T>(s: seq<T>, key: T -> string): seq<T> {
    if s == [] then [] else Insert(Sort(s[..|s| - 1], key), s[|s| - 1], key)
  }

  lemma {:induction false} InsertAdds<T>(s: seq<T>, x: T, key: T -> string)
    ensures multiset(Insert(s, x, key)) == multiset(s) + multiset{x}
  {
    if s != [] {
      assert s == [s[0]] + s[1..];
      if !Less(key(x), key(s[0])) { InsertAdds(s[1..], x, key); }
    }
  }

  lemma {:induction false} InsertKeepsOrder<T>(s: seq<T>, x: T, key: T -> string)
    requires SortedBy(s, key)
    ensures SortedBy(Insert(s, x, key), key)
  {
    if s == [] {
    } else if Less(key(x), key(s[0])) {
      forall j | 0 <= j < |s| ensures !Less(key(s[j]), key(x)) {
        LessTotal(key(x), key(s[0]));
        if Less(key(s[j]), key(x)) { LessTransitive(key(s[j]), key(x), key(s[0])); }
      }
    } else {
      var r := Insert(s[1..], x, key);
      InsertKeepsOrder(s[1..], x, key);
      InsertAdds(s[1..], x, key);
      forall j | 0 <= j < |r| ensures !Less(key(r[j]), key(s[0])) {
        assert r[j] in multiset(r);
        assert r[j] == x || r[j] in s[1..];
      }
    }
  }

  lemma {:induction false} SortSorts<T>(s: seq<T>, key: T -> string)
    ensures SortedBy(Sort(s, key), key)
    ensures multiset(Sort(s, key)) == multiset(s)
  {
    if s != [] {
      SortSorts(s[..|s| - 1], key);
      InsertKeepsOrder(Sort(s[..|s| - 1], key), s[|s| - 1], key);
      InsertAdds(Sort(s[..|s| - 1], key), s[|s| - 1], key);
      assert s == s[..|s| - 1] + [s[|s| - 1]];
    }
  }

  lemma {:induction false} SubsetCardinality<T>(a: set<T>, b: set<T>)
    requires a <= b
    ensures |a| <= |b|
    ensures |a| == |b| ==> a == b
  {
    if a != {} {
      var x :| x in a;
      SubsetCardinality(a - {x}, b - {x});
    }
  }

  function Last<T>(s: seq<T>): T
    requires s != []
  {
    s[|s| - 1]
  }

  /** No element occurs twice. */
  ghost predicate Distinct<T>(s: seq<T>) {
    forall i, j | 0 <= i < j < |s| :: s[i] != s[j]
  }

  function Elements<T>(s: seq<T>): set<T> {
    set x | x in s
  }

  lemma {:induction false} DistinctCardinality<T>(s: seq<T>)
    requires Distinct(s)
    ensures |Elements(s)| == |s|
  {
    if s != [] {
      var n := |s| - 1;
      DistinctCardinality(s[..n]);
      assert Elements(s) == Elements(s[..n]) + {s[n]};
    }
  }

  /** Where `p` holds in `s`. */
  ghost function Positions<T>(s: seq<T>, p: T -> bool): set<int> {
    set i | 0 <= i < |s| && p(s[i])
  }

  lemma PositionsGrow<T>(s: seq<T>, p: T -> bool)
    requires s != []
    ensures var n := |s| - 1;
            |Positions(s, p)| == |Positions(s[..n], p)| + if p(s[n]) then 1 else 0
  {
    var n := |s| - 1;
    if p(s[n]) {
      assert Positions(s, p) == Positions(s[..n], p) + {n};
    } else {
      assert Positions(s, p) == Positions(s[..n], p);
    }
  }

  /** Sum of the values at `keys`. */
  ghost function Sum(counts: map<string, int>, keys: set<string>): int
    requires keys <= counts.Keys
  {
    if keys == {} then 0
    else
      var k :| k in keys;
      counts[k] + Sum(counts, keys - {k})
  }

  /** Any key may be taken out first. */
  lemma {:induction false} SumSplits(counts: map<string, int>, keys: set<string>, k: string)
    requires keys <= counts.Keys && k in keys
    ensures Sum(counts, keys) == counts[k] + Sum(counts, keys - {k})
    decreases keys
  {
    var j :| j in keys && Sum(counts, keys) == counts[j] + Sum(counts, keys - {j});
    if j != k {
      SumSplits(counts, keys - {j}, k);
      SumSplits(counts, keys - {k}, j);
      assert keys - {j} - {k} == keys - {k} - {j};
    }
  }

  lemma {:induction false} SumAgrees(a: map<string, int>, b: map<string, int>, keys: set<string>)
    requires keys <= a.Keys && keys <= b.Keys && forall k | k in keys :: a[k] == b[k]
    ensures Sum(a, keys) == Sum(b, keys)
    decreases keys
  {
    if keys != {} {
      var k :| k in keys;
      SumSplits(a, keys, k);
      SumSplits(b, keys, k);
      SumAgrees(a, b, keys - {k});
    }
  }

  /** Adding `v` to one entry, created when missing, adds `v` to the sum. */
  lemma SumAdds(counts: map<string, int>, k: string, v: int)
    ensures var more := counts[k := (if k in counts then counts[k] else 0) + v];
            Sum(more, more.Keys) == Sum(counts, counts.Keys) + v
  {
    var more := counts[k := (if k in counts then counts[k] else 0) + v];
    SumSplits(more, more.Keys, k);
    assert more.Keys - {k} == counts.Keys - {k};
    SumAgrees(more, counts, counts.Keys - {k});
    if k in counts {
      SumSplits(counts, counts.Keys, k);
    } else {
      assert counts.Keys - {k} == counts.Keys;
    }
  }

  // ---- Joined names ------------------------------------------------------------------

  /** Two parts joined by a separator. */
  function Glued(a: string, sep: char, b: string): string { a + [sep] + b }

  /** One part goes on with the separator where the other one ends. */
  predicate Nested(sep: char, a: string, b: string) {
    a + [sep] <= b || b + [sep] <= a
  }

  lemma SharedMeansNested(sep: char, a: string, x: string, b: string, y: string)
    requires Glued(a, sep, x) == Glued(b, sep, y)
    ensures (a == b && x == y) || Nested(sep, a, b)
  {
    var s, t := Glued(a, sep, x), Glued(b, sep, y);
    assert s[..|a|] == a && s[|a|] == sep && s[|a| + 1..] == x;
    assert t[..|b|] == b && t[|b|] == sep && t[|b| + 1..] == y;
    if |a| < |b| {
      assert a + [sep] == t[..|a| + 1] == b[..|a| + 1];
    } else if |b| < |a| {
      assert b + [sep] == s[..|b| + 1] == a[..|b| + 1];
    }
  }

  lemma StarterShares(sep: char, a: string, b: string) returns (x: string, y: string)
    requires a + [sep] <= b
    ensures Glued(a, sep, x) == Glued(b, sep, y)
  {
    x, y := b[|a| + 1..] + [sep], "";
    assert b == a + [sep] + b[|a| + 1..];
    assert Glued(a, sep, x) == b + [sep] == Glued(b, sep, y);
  }

  /** Different pairs can be joined to the same name exactly when their first parts nest. */
  lemma GlueCollidesIff(sep: char, a: string, b: string)
    ensures (exists x, y :: Glued(a, sep, x) == Glued(b, sep, y) && (a != b || x != y)) <==> Nested(sep, a, b)
  {
    if x, y :| Glued(a, sep, x) == Glued(b, sep, y) && (a != b || x != y) {
      SharedMeansNested(sep, a, x, b, y);
    }
    if a + [sep] <= b {
      var x, y := StarterShares(sep, a, b);
    } else if b + [sep] <= a {
      var y, x := StarterShares(sep, b, a);
    }
  }
}
