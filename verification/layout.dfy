/** Column layout of the terminal renderers: the width clamp, the character-based
    truncation of `fixed_width`, and the two-column listing of `display_on_two_cols`. */
module Layout {
  import opened Wrappers
  import opened Seqs
  import opened Text
  import opened Colors

  /** Narrowest and widest table column. */
  const MinColumn: nat := 25
  const MaxColumn: nat := 40

  /** Terminal width assumed when `stty` reports nothing. */
  const FallbackTermWidth: nat := 160

  /** The cut applied when no truncation is asked for. */
  const NoTruncation: nat := 1000

  /** A coloured piece of text (the value `colored(s, *col)` builds). */
  datatype Cell = Cell(text: string, style: Style)

  /** The terminal width: the probed column count, or the fallback. */
  function TermWidth(probe: Option<nat>): (w: nat)
    ensures probe.None? ==> w == FallbackTermWidth
    ensures probe.Some? ==> w == probe.value
  {
    probe.GetOr(FallbackTermWidth)
  }

  /** The width given to each column for `n` results: the terminal's share per column
      (one extra column for the labels), clamped to [MinColumn, MaxColumn]. */
  function ColumnWidth(termWidth: nat, n: nat): (lim: nat)
    ensures MinColumn <= lim <= MaxColumn
    ensures MinColumn < lim < MaxColumn ==> lim == termWidth / (n + 1)
    ensures lim == MinColumn ==> termWidth / (n + 1) <= MinColumn
    ensures lim == MaxColumn ==> termWidth / (n + 1) >= MaxColumn
  {
    Min(MaxColumn, Max(MinColumn, termWidth / (n + 1)))
  }

  lemma {:induction false} MulMonotone(q: nat, a: nat, b: nat)
    requires a <= b
    ensures q * a <= q * b
    decreases q
  {
    if q > 0 {
      MulMonotone(q - 1, a, b);
      assert q * a == (q - 1) * a + a;
      assert q * b == (q - 1) * b + b;
    }
  }

  lemma DivLowerBound(q: nat, w: nat, a: nat)
    requires a > 0 && q * a <= w
    ensures q <= w / a
  {
    var d := w / a;
    assert w == d * a + w % a;
    if q > d {
      MulMonotone(a, d + 1, q);
    }
  }

  lemma DivAntitone(w: nat, a: nat, b: nat)
    requires 0 < a <= b
    ensures w / b <= w / a
  {
    var q := w / b;
    assert w == q * b + w % b;
    MulMonotone(q, a, b);
    DivLowerBound(q, w, a);
  }

  lemma DivMonotone(w1: nat, w2: nat, a: nat)
    requires a > 0 && w1 <= w2
    ensures w1 / a <= w2 / a
  {
    var q := w1 / a;
    assert w1 == q * a + w1 % a;
    DivLowerBound(q, w2, a);
  }

  /** More results never widen the columns; a wider terminal never narrows them. */
  lemma ColumnWidthMonotone(w1: nat, w2: nat, n1: nat, n2: nat)
    requires w1 <= w2 && n2 <= n1
    ensures ColumnWidth(w1, n1) <= ColumnWidth(w2, n2)
  {
    DivAntitone(w1, n2 + 1, n1 + 1);
    DivMonotone(w1, w2, n2 + 1);
  }

  /** The truncation bound of the table: none for a single result, the column width otherwise. */
  function Truncation(n: nat, lim: nat): (t: Option<nat>)
    ensures t.None? <==> n == 1
    ensures t.Some? ==> t.value == lim
  {
    if n == 1 then None else Some(lim)
  }

  /** `fixed_width`: keep the first `truncate` characters (1000 when unset), then
      left-justify to `lim` columns. */
  function FixedWidth(s: string, style: Style, lim: nat, truncate: Option<nat>): (c: Cell)
    ensures c.style == style
    ensures var kept := Min(|s|, truncate.GetOr(NoTruncation));
            && |c.text| == Max(lim, kept)
            && c.text[..kept] == s[..kept]
            && (forall i :: kept <= i < |c.text| ==> c.text[i] == ' ')
    ensures truncate == Some(lim) ==> |c.text| == lim
    ensures truncate.None? && |s| <= NoTruncation ==> c.text[..|s|] == s
  {
    var cut := s[..Min(|s|, truncate.GetOr(NoTruncation))];
    Cell(LeftJustify(cut, lim), style)
  }

  /** Width of each column of the help listing (`'%-15s'`). */
  const HelpColumn: nat := 15

  function PairLine(a: string, b: string): string {
    "\t" + LeftJustify(a, HelpColumn) + "\t" + LeftJustify(b, HelpColumn)
  }

  function SingleLine(a: string): string {
    "\t" + LeftJustify(a, HelpColumn)
  }

  /** `display_on_two_cols`: consecutive items paired on one line; an odd last item alone. */
  method DisplayOnTwoCols(items: seq<string>) returns (lines: seq<string>)
    ensures |lines| == (|items| + 1) / 2
    ensures forall i :: 0 <= i < |items| / 2 ==> lines[i] == PairLine(items[2 * i], items[2 * i + 1])
    ensures |items| % 2 == 1 ==> lines[|lines| - 1] == SingleLine(items[|items| - 1])
  {
    lines := [];
    var i := 0;
    while i + 1 < |items|
      invariant 0 <= i <= |items| && i % 2 == 0
      invariant |lines| == i / 2
      invariant forall j :: 0 <= j < i / 2 ==> lines[j] == PairLine(items[2 * j], items[2 * j + 1])
    {
      lines := lines + [PairLine(items[i], items[i + 1])];
      i := i + 2;
    }
    if |items| % 2 != 0 {
      lines := lines + [SingleLine(items[|items| - 1])];
    }
  }
}
