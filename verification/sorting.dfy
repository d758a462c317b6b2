/** Python's `sorted` on `(distance, key)` tuples, as the near stage uses it:
    ascending distance, ties broken by the key's string order. */
module Sorting {
  import opened GeoStore

  /** Python's string comparison `a <= b`: lexicographic on characters, a proper prefix first. */
  predicate StrLeq(a: string, b: string)
    decreases |a|
  {
    |a| == 0 || (|b| > 0 && (a[0] < b[0] || (a[0] == b[0] && StrLeq(a[1..], b[1..]))))
  }

  lemma {:induction false} StrLeqTotal(a: string, b: string)
    ensures StrLeq(a, b) || StrLeq(b, a)
    decreases |a|
  {
    if |a| > 0 && |b| > 0 && a[0] == b[0] {
      StrLeqTotal(a[1..], b[1..]);
    }
  }

  lemma {:induction false} StrLeqTransitive(a: string, b: string, c: string)
    requires StrLeq(a, b) && StrLeq(b, c)
    ensures StrLeq(a, c)
    decreases |a|
  {
    if |a| > 0 && a[0] == b[0] && b[0] == c[0] {
      StrLeqTransitive(a[1..], b[1..], c[1..]);
    }
  }

  lemma {:induction false} StrLeqAntisymmetric(a: string, b: string)
    requires StrLeq(a, b) && StrLeq(b, a)
    ensures a == b
    decreases |a|
  {
    if |a| > 0 {
      StrLeqAntisymmetric(a[1..], b[1..]);
      assert a == [a[0]] + a[1..];
      assert b == [b[0]] + b[1..];
    }
  }

  /** Python's tuple comparison `x <= y` on `(score, key)`. */
  predicate Leq(x: ScoredKey, y: ScoredKey) {
    x.score < y.score || (x.score == y.score && StrLeq(x.key, y.key))
  }

  /** Ascending in the tuple order. */
  predicate Sorted(s: seq<ScoredKey>) {
    forall i, j :: 0 <= i < j < |s| ==> Leq(s[i], s[j])
  }

  lemma LeqTransitive(x: ScoredKey, y: ScoredKey, z: ScoredKey)
    requires Leq(x, y) && Leq(y, z)
    ensures Leq(x, z)
  {
    if x.score == y.score && y.score == z.score {
      StrLeqTransitive(x.key, y.key, z.key);
    }
  }

  lemma LeqTotal(x: ScoredKey, y: ScoredKey)
    ensures Leq(x, y) || Leq(y, x)
  {
    StrLeqTotal(x.key, y.key);
  }

  function Insert(x: ScoredKey, s: seq<ScoredKey>): seq<ScoredKey> {
    if |s| == 0 then [x]
    else if Leq(x, s[0]) then [x] + s
    else [s[0]] + Insert(x, s[1..])
  }

  lemma {:induction false} InsertPermutes(x: ScoredKey, s: seq<ScoredKey>)
    ensures multiset(Insert(x, s)) == multiset(s) + multiset{x}
  {
    if |s| > 0 && !Leq(x, s[0]) {
      InsertPermutes(x, s[1..]);
      assert s == [s[0]] + s[1..];
    }
  }

  /** A sorted sequence that every element of `s` follows stays sorted with `y` in front. */
  lemma SortedCons(y: ScoredKey, s: seq<ScoredKey>)
    requires Sorted(s)
    requires forall j :: 0 <= j < |s| ==> Leq(y, s[j])
    ensures Sorted([y] + s)
  {
    var r := [y] + s;
    forall i, j | 0 <= i < j < |r|
      ensures Leq(r[i], r[j])
    {
      assert r[j] == s[j - 1];
      if i > 0 {
        assert r[i] == s[i - 1];
      }
    }
  }

  lemma {:induction false} InsertSorted(x: ScoredKey, s: seq<ScoredKey>)
    requires Sorted(s)
    ensures Sorted(Insert(x, s))
  {
    if |s| == 0 {
    } else if Leq(x, s[0]) {
      forall j | 0 <= j < |s|
        ensures Leq(x, s[j])
      {
        if j > 0 {
          LeqTransitive(x, s[0], s[j]);
        }
      }
      SortedCons(x, s);
    } else {
      LeqTotal(x, s[0]);
      var rest := Insert(x, s[1..]);
      InsertSorted(x, s[1..]);
      InsertPermutes(x, s[1..]);
      forall k | 0 <= k < |rest|
        ensures Leq(s[0], rest[k])
      {
        assert rest[k] in multiset(rest);
        if rest[k] != x {
          assert rest[k] in multiset(s[1..]);
          var j :| 0 <= j < |s[1..]| && s[1..][j] == rest[k];
          assert s[j + 1] == rest[k];
        }
      }
      SortedCons(s[0], rest);
    }
  }

  /** Python's `sorted(xs)` on scored keys: a sorted permutation of the input. */
  function Sort(xs: seq<ScoredKey>): (r: seq<ScoredKey>)
    ensures Sorted(r)
    ensures multiset(r) == multiset(xs)
  {
    if |xs| == 0 then []
    else
      var rest := Sort(xs[1..]);
      InsertSorted(xs[0], rest);
      InsertPermutes(xs[0], rest);
      assert xs == [xs[0]] + xs[1..];
      Insert(xs[0], rest)
  }

  /** Two ascending arrangements of the same multiset start with the same pair. */
  lemma SortedHeads(a: seq<ScoredKey>, b: seq<ScoredKey>)
    requires Sorted(a) && Sorted(b)
    requires multiset(a) == multiset(b)
    requires |a| > 0 && |b| > 0
    ensures a[0] == b[0]
  {
    assert a[0] in multiset(b);
    var k :| 0 <= k < |b| && b[k] == a[0];
    assert b[0] in multiset(a);
    var m :| 0 <= m < |a| && a[m] == b[0];
    if a[0] != b[0] {
      assert Leq(b[0], a[0]) && Leq(a[0], b[0]);
      StrLeqAntisymmetric(a[0].key, b[0].key);
    }
  }

  lemma MultisetTail(s: seq<ScoredKey>)
    requires |s| > 0
    ensures multiset(s[1..]) == multiset(s) - multiset{s[0]}
  {
    assert s == [s[0]] + s[1..];
  }

  /** The tuple order is antisymmetric, so there is exactly one ascending arrangement
      of a multiset of pairs: any sorting algorithm gives Python's result. */
  lemma {:induction false} SortedUnique(a: seq<ScoredKey>, b: seq<ScoredKey>)
    requires Sorted(a) && Sorted(b)
    requires multiset(a) == multiset(b)
    ensures a == b
  {
    assert |a| == |multiset(a)| == |multiset(b)| == |b|;
    if |a| > 0 {
      SortedHeads(a, b);
      MultisetTail(a);
      MultisetTail(b);
      SortedUnique(a[1..], b[1..]);
      assert a == [a[0]] + a[1..];
      assert b == [b[0]] + b[1..];
    }
  }
}
