/** Character-level string operations the launcher borrows from Python's `str`:
    `split`, `join`, `strip` and `'%-Ns'` left justification. Strings are
    sequences of decoded characters, so every length here counts characters. */
module Text {
  import opened Seqs

  /** No character of `w` belongs to `d`. */
  predicate Avoids(w: string, d: set<char>) {
    forall i :: 0 <= i < |w| ==> w[i] !in d
  }

  /** Python's `s.split(sep)` generalised to a set of one-character separators:
      the pieces between consecutive separators, empty pieces included. */
  function SplitOn(s: string, delims: set<char>): (r: seq<string>)
    ensures |r| >= 1
    ensures forall i :: 0 <= i < |r| ==> Avoids(r[i], delims)
    decreases |s|
  {
    if |s| == 0 then [""]
    else
      var rest := SplitOn(s[1..], delims);
      if s[0] in delims then [""] + rest
      else [[s[0]] + rest[0]] + rest[1..]
  }

  /** Python's `sep.join(xs)`. */
  function Join(xs: seq<string>, sep: char): (r: string)
    ensures (forall i :: 0 <= i < |xs| ==> sep !in xs[i]) ==> multiset(r)[sep] == Max(0, |xs| - 1)
  {
    if |xs| == 0 then ""
    else if |xs| == 1 then xs[0]
    else xs[0] + [sep] + Join(xs[1..], sep)
  }

  /** Splitting counts separators: one more piece than separators. */
  lemma {:induction false} SplitCount(s: string, sep: char)
    ensures |SplitOn(s, {sep})| == multiset(s)[sep] + 1
  {
    if |s| > 0 {
      SplitCount(s[1..], sep);
      assert s == [s[0]] + s[1..];
    }
  }

  /** Joining a piece in front adds one separator. */
  lemma JoinCons(x: string, ys: seq<string>, sep: char)
    requires |ys| >= 1
    ensures Join([x] + ys, sep) == x + [sep] + Join(ys, sep)
  {
    assert ([x] + ys)[1..] == ys;
  }

  /** Extending the first piece by one character extends the join by that character. */
  lemma JoinExtendFirst(c: char, ys: seq<string>, sep: char)
    requires |ys| >= 1
    ensures Join([[c] + ys[0]] + ys[1..], sep) == [c] + Join(ys, sep)
  {
    if |ys| == 1 {
      assert [[c] + ys[0]] + ys[1..] == [[c] + ys[0]];
    } else {
      JoinCons([c] + ys[0], ys[1..], sep);
      JoinCons(ys[0], ys[1..], sep);
      assert [ys[0]] + ys[1..] == ys;
    }
  }

  /** Joining the pieces of a split with the same separator gives back the input. */
  lemma {:induction false} JoinSplit(s: string, sep: char)
    ensures Join(SplitOn(s, {sep}), sep) == s
  {
    if |s| > 0 {
      var rest := SplitOn(s[1..], {sep});
      JoinSplit(s[1..], sep);
      assert s == [s[0]] + s[1..];
      if s[0] == sep {
        assert SplitOn(s, {sep}) == [""] + rest;
        JoinCons("", rest, sep);
      } else {
        assert SplitOn(s, {sep}) == [[s[0]] + rest[0]] + rest[1..];
        JoinExtendFirst(s[0], rest, sep);
      }
    }
  }

  /** A separator-free string splits into itself. */
  lemma {:induction false} SplitWithoutSeparator(w: string, sep: char)
    requires sep !in w
    ensures SplitOn(w, {sep}) == [w]
  {
    if |w| > 0 {
      SplitWithoutSeparator(w[1..], sep);
      assert w == [w[0]] + w[1..];
    }
  }

  /** The first separator ends the first piece. */
  lemma {:induction false} SplitAtFirst(a: string, b: string, sep: char)
    requires sep !in a
    ensures SplitOn(a + [sep] + b, {sep}) == [a] + SplitOn(b, {sep})
  {
    var s := a + [sep] + b;
    if |a| == 0 {
      assert s == [sep] + b;
      assert s[1..] == b;
    } else {
      assert s[0] == a[0];
      assert s[1..] == a[1..] + [sep] + b;
      SplitAtFirst(a[1..], b, sep);
      assert [a[0]] + a[1..] == a;
    }
  }

  /** Splitting a join of separator-free pieces gives back the pieces. */
  lemma {:induction false} SplitJoin(xs: seq<string>, sep: char)
    requires |xs| >= 1
    requires forall i :: 0 <= i < |xs| ==> sep !in xs[i]
    ensures SplitOn(Join(xs, sep), {sep}) == xs
  {
    if |xs| == 1 {
      SplitWithoutSeparator(xs[0], sep);
    } else {
      SplitJoin(xs[1..], sep);
      SplitAtFirst(xs[0], Join(xs[1..], sep), sep);
      assert xs == [xs[0]] + xs[1..];
    }
  }

  /** Python's `s.lstrip(chars)`. */
  function StripLeft(s: string, cs: set<char>): (r: string)
    ensures |r| <= |s| && r == s[|s| - |r|..]
    ensures |r| > 0 ==> r[0] !in cs
    ensures forall i :: 0 <= i < |s| - |r| ==> s[i] in cs
  {
    if |s| > 0 && s[0] in cs then StripLeft(s[1..], cs) else s
  }

  /** Python's `s.rstrip(chars)`. */
  function StripRight(s: string, cs: set<char>): (r: string)
    ensures |r| <= |s| && r == s[..|r|]
    ensures |r| > 0 ==> r[|r| - 1] !in cs
    ensures forall i :: |r| <= i < |s| ==> s[i] in cs
  {
    if |s| > 0 && s[|s| - 1] in cs then StripRight(s[..|s| - 1], cs) else s
  }

  /** Python's `s.strip(chars)`: drop every leading and trailing member of `cs`. */
  function Strip(s: string, cs: set<char>): (r: string)
    ensures |r| > 0 ==> r[0] !in cs && r[|r| - 1] !in cs
    ensures |r| <= |s|
    ensures exists a, b :: 0 <= a <= b <= |s| && r == s[a..b]
              && (forall i :: 0 <= i < a ==> s[i] in cs)
              && (forall i :: b <= i < |s| ==> s[i] in cs)
  {
    StripSlice(s, cs);
    StripRight(StripLeft(s, cs), cs)
  }

  /** Stripping keeps the slice between a run of `cs` at the front and one at the back. */
  lemma StripSlice(s: string, cs: set<char>)
    ensures var r := StripRight(StripLeft(s, cs), cs);
            var a := |s| - |StripLeft(s, cs)|;
            && a + |r| <= |s| && r == s[a..a + |r|]
            && (forall i :: 0 <= i < a ==> s[i] in cs)
            && (forall i :: a + |r| <= i < |s| ==> s[i] in cs)
  {
    var l := StripLeft(s, cs);
    var r := StripRight(l, cs);
    var a := |s| - |l|;
    SuffixPrefix(s, a, |r|);
  }

  /** The first `n` characters of the suffix from `a` are the slice `[a, a + n)`, and the
      suffix's `j`-th character is the string's `a + j`-th. */
  lemma SuffixPrefix(s: string, a: nat, n: nat)
    requires a + n <= |s|
    ensures s[a..][..n] == s[a..a + n]
    ensures forall i :: a <= i < |s| ==> s[i] == s[a..][i - a]
  {
  }

  /** Stripping a string whose ends are already outside `cs` changes nothing,
      so stripping twice is stripping once. */
  lemma StripUnchanged(s: string, cs: set<char>)
    requires |s| == 0 || (s[0] !in cs && s[|s| - 1] !in cs)
    ensures Strip(s, cs) == s
    ensures Strip(Strip(s, cs), cs) == Strip(s, cs)
  {
  }

  /** The characters Python 2's `str.split()` and `str.strip()` treat as whitespace. */
  const Whitespace: set<char> := {' ', '\t', '\n', '\r', '\U{B}', '\U{C}'}

  const NonEmpty: string -> bool := w => |w| > 0

  /** Python's argument-less `s.split()`: the maximal runs of non-whitespace characters. */
  function Words(s: string): (r: seq<string>)
    ensures forall i :: 0 <= i < |r| ==> |r[i]| > 0 && Avoids(r[i], Whitespace)
  {
    var pieces := SplitOn(s, Whitespace);
    var r := Filter(pieces, NonEmpty);
    assert forall i :: 0 <= i < |r| ==> r[i] in pieces;
    r
  }

  /** Dropping empty pieces does not change their concatenation. */
  lemma {:induction false} FlattenDropsEmpty(xs: seq<string>)
    ensures Flatten(Filter(xs, NonEmpty)) == Flatten(xs)
  {
    if |xs| > 0 {
      FlattenDropsEmpty(xs[1..]);
    }
  }

  /** The pieces of a split, concatenated, are the input without its separators. */
  lemma {:induction false} FlattenSplit(s: string, d: set<char>)
    ensures Flatten(SplitOn(s, d)) == Filter(s, NotIn(d))
  {
    if |s| > 0 {
      var rest := SplitOn(s[1..], d);
      FlattenSplit(s[1..], d);
      if s[0] in d {
        assert ([""] + rest)[1..] == rest;
      } else {
        var ys := [[s[0]] + rest[0]] + rest[1..];
        assert ys[1..] == rest[1..];
        assert Flatten(rest) == rest[0] + Flatten(rest[1..]);
      }
    }
  }

  /** Whitespace tokenisation keeps every non-whitespace character, in order, and nothing else. */
  lemma WordsKeepText(s: string)
    ensures Flatten(Words(s)) == Filter(s, NotIn(Whitespace))
  {
    FlattenDropsEmpty(SplitOn(s, Whitespace));
    FlattenSplit(s, Whitespace);
  }

  /** One step of `SplitOn` at a leading delimiter: an empty piece, then the rest's pieces. */
  lemma SplitStepDelim(x: string, d: set<char>)
    requires |x| > 0 && x[0] in d
    ensures SplitOn(x, d) == [""] + SplitOn(x[1..], d)
  {
  }

  /** One step of `SplitOn` at a leading non-delimiter: it joins the rest's first piece. */
  lemma SplitStepOther(x: string, d: set<char>)
    requires |x| > 0 && x[0] !in d
    ensures SplitOn(x, d) == [[x[0]] + SplitOn(x[1..], d)[0]] + SplitOn(x[1..], d)[1..]
  {
  }

  /** A delimiter ends the pieces on its left and starts those on its right. */
  lemma {:induction false} SplitConcat(s: string, c: char, t: string, d: set<char>)
    requires c in d
    ensures SplitOn(s + [c] + t, d) == SplitOn(s, d) + SplitOn(t, d)
    decreases |s|
  {
    var u := s + [c] + t;
    var right := SplitOn(t, d);
    if |s| == 0 {
      assert u == [c] + t;
      assert u[1..] == t;
      SplitStepDelim(u, d);
    } else {
      assert u[0] == s[0];
      assert u[1..] == s[1..] + [c] + t;
      SplitConcat(s[1..], c, t, d);
      var left := SplitOn(s[1..], d);
      if s[0] in d {
        SplitStepDelim(u, d);
        SplitStepDelim(s, d);
      } else {
        SplitStepOther(u, d);
        SplitStepOther(s, d);
        var whole := left + right;
        assert whole[0] == left[0];
        assert whole[1..] == left[1..] + right;
      }
    }
  }

  /** A string with no delimiter is a single piece. */
  lemma {:induction false} SplitAvoiding(w: string, d: set<char>)
    requires Avoids(w, d)
    ensures SplitOn(w, d) == [w]
  {
    if |w| > 0 {
      SplitAvoiding(w[1..], d);
      assert w == [w[0]] + w[1..];
    }
  }

  /** Whitespace separates words: the words of `s`, a whitespace character and `t`
      are the words of `s` followed by those of `t`. */
  lemma WordsSplitAt(s: string, c: char, t: string)
    requires c in Whitespace
    ensures Words(s + [c] + t) == Words(s) + Words(t)
  {
    SplitConcat(s, c, t, Whitespace);
    FilterAppend(SplitOn(s, Whitespace), SplitOn(t, Whitespace), NonEmpty);
  }

  /** A non-empty run without whitespace is one word, and the empty string has none. */
  lemma WordsOfWord(w: string)
    requires Avoids(w, Whitespace)
    ensures |w| > 0 ==> Words(w) == [w]
    ensures |w| == 0 ==> Words(w) == []
  {
    SplitAvoiding(w, Whitespace);
  }

  /** Leading and trailing whitespace make no words: `s.strip().split() == s.split()`. */
  lemma {:induction false} WordsStrip(s: string)
    ensures Words(Strip(s, Whitespace)) == Words(s)
  {
    WordsStripLeft(s);
    WordsStripRight(StripLeft(s, Whitespace));
  }

  /** One step of `lstrip`: a leading member of `cs` goes, anything else stops it. */
  lemma StripLeftStep(s: string, cs: set<char>)
    ensures |s| > 0 && s[0] in cs ==> StripLeft(s, cs) == StripLeft(s[1..], cs)
    ensures !(|s| > 0 && s[0] in cs) ==> StripLeft(s, cs) == s
  {
  }

  /** A leading whitespace character makes no word. */
  lemma WordsDropFirst(c: char, t: string)
    requires c in Whitespace
    ensures Words([c] + t) == Words(t)
  {
    assert "" + [c] + t == [c] + t;
    WordsSplitAt("", c, t);
    WordsOfWord("");
  }

  /** One step of `rstrip`: a trailing member of `cs` goes, anything else stops it. */
  lemma StripRightStep(s: string, cs: set<char>)
    ensures |s| > 0 && s[|s| - 1] in cs ==> StripRight(s, cs) == StripRight(s[..|s| - 1], cs)
    ensures !(|s| > 0 && s[|s| - 1] in cs) ==> StripRight(s, cs) == s
  {
  }

  /** A trailing whitespace character makes no word. */
  lemma WordsDropLast(t: string, c: char)
    requires c in Whitespace
    ensures Words(t + [c]) == Words(t)
  {
    assert t + [c] + "" == t + [c];
    WordsSplitAt(t, c, "");
    WordsOfWord("");
  }

  lemma {:induction false} WordsStripLeft(s: string)
    ensures Words(StripLeft(s, Whitespace)) == Words(s)
    decreases |s|
  {
    StripLeftStep(s, Whitespace);
    if |s| > 0 && s[0] in Whitespace {
      var t := s[1..];
      WordsStripLeft(t);
      WordsDropFirst(s[0], t);
      assert [s[0]] + t == s;
    }
  }

  lemma {:induction false} WordsStripRight(s: string)
    ensures Words(StripRight(s, Whitespace)) == Words(s)
    decreases |s|
  {
    StripRightStep(s, Whitespace);
    if |s| > 0 && s[|s| - 1] in Whitespace {
      var init := s[..|s| - 1];
      WordsStripRight(init);
      WordsDropLast(init, s[|s| - 1]);
      assert init + [s[|s| - 1]] == s;
    }
  }

  /** Python's `'%-Ns' % s`: pad on the right with spaces up to `width`, never cut. */
  function LeftJustify(s: string, width: nat): (r: string)
    ensures |r| == Max(width, |s|)
    ensures r[..|s|] == s
    ensures forall i :: |s| <= i < |r| ==> r[i] == ' '
  {
    if |s| >= width then s else s + seq(width - |s|, _ => ' ')
  }
}
