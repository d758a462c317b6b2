/** Generic sequence helpers: order-preserving filtering, flattening and Python slicing. */
module Seqs {

  function Min(a: int, b: int): int { if a <= b then a else b }

  function Max(a: int, b: int): int { if a >= b then a else b }

  /** The predicate "not a member of `d`", shared so that every use names the same function. */
  function NotIn<T>(d: set<T>): T -> bool {
    x => x !in d
  }

  /** The elements of `s` that satisfy `p`, in their original order. */
  function Filter<T>(s: seq<T>, p: T -> bool): (r: seq<T>)
    ensures |r| <= |s|
    ensures forall i :: 0 <= i < |r| ==> p(r[i])
    ensures forall i :: 0 <= i < |r| ==> r[i] in s
    ensures forall i :: 0 <= i < |s| && p(s[i]) ==> s[i] in r
  {
    if |s| == 0 then []
    else if p(s[0]) then [s[0]] + Filter(s[1..], p)
    else Filter(s[1..], p)
  }

  /** Filtering distributes over concatenation: the relative order of kept elements never changes. */
  lemma {:induction false} FilterAppend<T>(a: seq<T>, b: seq<T>, p: T -> bool)
    ensures Filter(a + b, p) == Filter(a, p) + Filter(b, p)
  {
    if |a| == 0 {
      assert a + b == b;
    } else {
      assert (a + b)[0] == a[0];
      assert (a + b)[1..] == a[1..] + b;
      FilterAppend(a[1..], b, p);
    }
  }

  /** Filtering keeps everything exactly when everything passes. */
  lemma {:induction false} FilterAll<T>(s: seq<T>, p: T -> bool)
    ensures Filter(s, p) == s <==> forall i :: 0 <= i < |s| ==> p(s[i])
  {
    if |s| > 0 {
      FilterAll(s[1..], p);
      if p(s[0]) {
        assert forall i :: 0 <= i < |s[1..]| ==> s[1..][i] == s[i + 1];
      } else {
        assert |Filter(s, p)| < |s|;
      }
    }
  }

  /** Filtering a prefix gives a prefix of the filtered whole. */
  lemma FilterPrefix<T>(s: seq<T>, n: nat, p: T -> bool)
    requires n <= |s|
    ensures Filter(s[..n], p) <= Filter(s, p)
  {
    assert s == s[..n] + s[n..];
    FilterAppend(s[..n], s[n..], p);
  }

  /** The concatenation of all the pieces, in order. */
  function Flatten<T>(xs: seq<seq<T>>): seq<T> {
    if |xs| == 0 then [] else xs[0] + Flatten(xs[1..])
  }

  /** Python's slice `s[:n]`: a non-negative bound keeps at most `n` elements,
      a negative one drops the last `-n` elements. */
  function SliceTo<T>(s: seq<T>, n: int): (r: seq<T>)
    ensures r <= s
    ensures n >= 0 ==> |r| == Min(n, |s|)
    ensures n < 0 ==> |r| == Max(0, |s| + n)
  {
    if n >= 0 then (if n <= |s| then s[..n] else s)
    else if |s| + n >= 0 then s[..|s| + n]
    else []
  }
}
