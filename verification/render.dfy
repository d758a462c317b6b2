/** The two renderers as planning functions: `display` (a transposed, coloured table)
    and `display_quiet` (one `^`-joined line per result). Nothing is written; the
    functions return the cells and lines that would be. */
module Render {
  import opened Wrappers
  import opened Seqs
  import opened Text
  import opened Colors
  import opened GeoStore
  import opened Layout

  /** The pseudo-field standing for the score. */
  const RefField: Field := "__ref__"

  /** The separator of quiet output. */
  const QuietSeparator: char := '^'

  /** The requested fields, or the score followed by every store field when none are requested. */
  function EffectiveShow(store: Store, show: seq<Field>): (r: seq<Field>)
    ensures |show| > 0 ==> r == show
    ensures |show| == 0 ==> r == [RefField] + store.fields
  {
    if |show| == 0 then [RefField] + store.fields else show
  }

  /** The fields that produce output: those of `show` not omitted, in `show` order. */
  function Displayed(show: seq<Field>, omit: set<Field>): seq<Field> {
    Filter(show, NotIn(omit))
  }

  /** The text of field `f` for one result: its formatted score for the pseudo-field, its value otherwise. */
  function CellText(store: Store, fmt: real -> string, f: Field, row: ScoredKey): string {
    if f == RefField then fmt(row.score) else store.get(row.key, f)
  }

  /** The style a displayed field must get when it is the `cycle`-th displayed field. */
  function ExpectedStyle(f: Field, important: set<Field>, cycle: nat): Style {
    if f == RefField then Header
    else if f in important then Emph
    else Palette[cycle % |Palette|]
  }

  /** The texts of one table line: the field name, then one value per result. */
  function LineTexts(store: Store, fmt: real -> string, f: Field, rows: seq<ScoredKey>): (r: seq<string>)
    ensures |r| == |rows| + 1 && r[0] == f
    ensures forall j :: 0 <= j < |rows| ==> r[j + 1] == CellText(store, fmt, f, rows[j])
  {
    [f] + seq(|rows|, j requires 0 <= j < |rows| => CellText(store, fmt, f, rows[j]))
  }

  /** Every text of a line cut and padded by `fixed_width` in the line's style. */
  function RenderLine(texts: seq<string>, style: Style, lim: nat, truncate: Option<nat>): (r: seq<Cell>)
    ensures |r| == |texts|
    ensures forall j :: 0 <= j < |r| ==> r[j] == FixedWidth(texts[j], style, lim, truncate)
  {
    seq(|texts|, j requires 0 <= j < |texts| => FixedWidth(texts[j], style, lim, truncate))
  }

  /** A displayed field with the style chosen for its line. */
  datatype Styled = Styled(field: Field, style: Style)

  /** The field loop of `display`, from rotator state `rot`: each field not omitted gets
      the header style if it is the score, the emphasis style if it is important, the
      rotator's current style otherwise; the rotator then steps once. Returns the chosen
      styles and the final rotator. */
  function StylePlan(show: seq<Field>, omit: set<Field>, important: set<Field>, rot: Rotator): (seq<Styled>, Rotator)
    requires rot.Valid()
    decreases |show|
  {
    if |show| == 0 then ([], rot)
    else if show[0] in omit then StylePlan(show[1..], omit, important, rot)
    else
      var f := show[0];
      var col := if f in important then Emph else rot.Get();
      var style := if f == RefField then Header else col;
      var rest := StylePlan(show[1..], omit, important, rot.Next());
      ([Styled(f, style)] + rest.0, rest.1)
  }

  lemma DisplayedCons(show: seq<Field>, omit: set<Field>)
    requires |show| > 0
    ensures show[0] in omit ==> Displayed(show, omit) == Displayed(show[1..], omit)
    ensures show[0] !in omit ==> Displayed(show, omit) == [show[0]] + Displayed(show[1..], omit)
  {
  }

  /** Starting one step later and counting one field less lands on the same palette entry. */
  lemma ExpectedStyleShift(f: Field, important: set<Field>, rot: Rotator, k: nat)
    requires rot.Valid()
    ensures ExpectedStyle(f, important, rot.Next().current + k) == ExpectedStyle(f, important, rot.current + k + 1)
  {
    assert (rot.Next().current + k) % 2 == (rot.current + k + 1) % 2;
  }

  /** One styled line per displayed field; the rotator ends one step per line further on,
      so omitted fields never move it. */
  lemma {:induction false} StylePlanSteps(show: seq<Field>, omit: set<Field>, important: set<Field>, rot: Rotator)
    requires rot.Valid()
    ensures var out := StylePlan(show, omit, important, rot);
            && |out.0| == |Displayed(show, omit)|
            && out.1.Valid() && out.1.current == (rot.current + |out.0|) % |Palette|
    decreases |show|
  {
    if |show| > 0 {
      DisplayedCons(show, omit);
      if show[0] in omit {
        StylePlanSteps(show[1..], omit, important, rot);
      } else {
        StylePlanSteps(show[1..], omit, important, rot.Next());
      }
    }
  }

  /** The `i`-th styled line is the `i`-th displayed field, in the header style for the
      score, the emphasis style for an important field and palette entry `i` (counted from
      the rotator's start) otherwise. */
  lemma {:induction false} StylePlanCycles(show: seq<Field>, omit: set<Field>, important: set<Field>, rot: Rotator)
    requires rot.Valid()
    ensures var out := StylePlan(show, omit, important, rot);
            && |out.0| == |Displayed(show, omit)|
            && forall i :: 0 <= i < |out.0| ==>
                 out.0[i] == Styled(Displayed(show, omit)[i], ExpectedStyle(Displayed(show, omit)[i], important, rot.current + i))
    decreases |show|
  {
    StylePlanSteps(show, omit, important, rot);
    if |show| > 0 {
      DisplayedCons(show, omit);
      if show[0] in omit {
        StylePlanCycles(show[1..], omit, important, rot);
      } else {
        StylePlanHead(show, omit, important, rot);
      }
    }
  }

  lemma {:induction false} StylePlanHead(show: seq<Field>, omit: set<Field>, important: set<Field>, rot: Rotator)
    requires rot.Valid()
    requires |show| > 0 && show[0] !in omit
    ensures var out := StylePlan(show, omit, important, rot);
            forall i :: 0 <= i < |out.0| && i < |Displayed(show, omit)| ==>
              out.0[i] == Styled(Displayed(show, omit)[i], ExpectedStyle(Displayed(show, omit)[i], important, rot.current + i))
    decreases |show|, 0
  {
    var out := StylePlan(show, omit, important, rot);
    var rest := StylePlan(show[1..], omit, important, rot.Next());
    var d := Displayed(show, omit);
    var d' := Displayed(show[1..], omit);
    DisplayedCons(show, omit);
    StylePlanCycles(show[1..], omit, important, rot.Next());
    assert out.0 == [out.0[0]] + rest.0;
    forall i | 0 <= i < |out.0| && i < |d|
      ensures out.0[i] == Styled(d[i], ExpectedStyle(d[i], important, rot.current + i))
    {
      if i > 0 {
        var k := i - 1;
        assert out.0[i] == rest.0[k];
        assert d[i] == d'[k];
        ExpectedStyleShift(d'[k], important, rot, k);
      }
    }
  }

  /** The cells of the table: for each styled field, its label and one value per result,
      each passed through `fixed_width` in the line's style. */
  function TableLines(store: Store, fmt: real -> string, rows: seq<ScoredKey>, plan: seq<Styled>,
                      lim: nat, truncate: Option<nat>): (lines: seq<seq<Cell>>)
    ensures |lines| == |plan|
    ensures forall i :: 0 <= i < |plan| ==> lines[i] == RenderLine(LineTexts(store, fmt, plan[i].field, rows), plan[i].style, lim, truncate)
  {
    seq(|plan|, i requires 0 <= i < |plan| => RenderLine(LineTexts(store, fmt, plan[i].field, rows), plan[i].style, lim, truncate))
  }

  /** The text in column `j` of field `f`'s line: the field name, then each result's value. */
  function ColumnText(store: Store, fmt: real -> string, f: Field, rows: seq<ScoredKey>, j: nat): string
    requires j <= |rows|
  {
    if j == 0 then f else CellText(store, fmt, f, rows[j - 1])
  }

  /** One cell of the table: its column's text through `fixed_width` in its line's style. */
  lemma TableCell(store: Store, fmt: real -> string, rows: seq<ScoredKey>, plan: seq<Styled>,
                  lim: nat, truncate: Option<nat>, i: nat, j: nat)
    requires i < |plan| && j <= |rows|
    ensures |TableLines(store, fmt, rows, plan, lim, truncate)[i]| == |rows| + 1
    ensures TableLines(store, fmt, rows, plan, lim, truncate)[i][j]
            == FixedWidth(ColumnText(store, fmt, plan[i].field, rows, j), plan[i].style, lim, truncate)
  {
    var texts := LineTexts(store, fmt, plan[i].field, rows);
    assert texts[j] == ColumnText(store, fmt, plan[i].field, rows, j);
  }

  /** What `display` puts on the screen. */
  datatype Screen = NoElements | Table(lines: seq<seq<Cell>>)

  /** `display`: nothing but a notice for no results; otherwise one line per displayed
      field, holding its label and one column per result. */
  function Display(store: Store, fmt: real -> string, rows: seq<ScoredKey>, omit: set<Field>,
                   show: seq<Field>, important: set<Field>, termWidth: nat): (r: Screen)
    ensures r.NoElements? <==> |rows| == 0
    ensures r.Table? ==> |r.lines| == |Displayed(EffectiveShow(store, show), omit)|
    ensures r.Table? ==> forall i :: 0 <= i < |r.lines| ==> |r.lines[i]| == |rows| + 1
  {
    if |rows| == 0 then NoElements
    else
      var lim := ColumnWidth(termWidth, |rows|);
      var truncate := Truncation(|rows|, lim);
      var plan := StylePlan(EffectiveShow(store, show), omit, important, Start()).0;
      StylePlanSteps(EffectiveShow(store, show), omit, important, Start());
      Table(TableLines(store, fmt, rows, plan, lim, truncate))
  }

  /** Every cell of the table is `fixed_width` of its label or value, at the column width,
      truncated unless there is a single result, in the style of the `i`-th displayed
      field: header for the score, emphasis if important, palette entry `i` otherwise. */
  lemma DisplayCells(store: Store, fmt: real -> string, rows: seq<ScoredKey>, omit: set<Field>,
                     show: seq<Field>, important: set<Field>, termWidth: nat)
    ensures var r := Display(store, fmt, rows, omit, show, important, termWidth);
            var d := Displayed(EffectiveShow(store, show), omit);
            var lim := ColumnWidth(termWidth, |rows|);
            r.Table? ==> forall i, j :: 0 <= i < |r.lines| && 0 <= j < |r.lines[i]| ==>
              r.lines[i][j] == FixedWidth(ColumnText(store, fmt, d[i], rows, j), ExpectedStyle(d[i], important, i),
                                          lim, Truncation(|rows|, lim))
  {
    if |rows| > 0 {
      var d := Displayed(EffectiveShow(store, show), omit);
      var lim := ColumnWidth(termWidth, |rows|);
      var plan := StylePlan(EffectiveShow(store, show), omit, important, Start()).0;
      StylePlanCycles(EffectiveShow(store, show), omit, important, Start());
      assert Start().current == 0;
      TableCellsStyled(store, fmt, rows, plan, d, important, lim, Truncation(|rows|, lim));
    }
  }

  /** A table drawn from a plan that styles field `i` as `ExpectedStyle` has those cells. */
  lemma TableCellsStyled(store: Store, fmt: real -> string, rows: seq<ScoredKey>, plan: seq<Styled>,
                         d: seq<Field>, important: set<Field>, lim: nat, truncate: Option<nat>)
    requires |plan| == |d|
    requires forall i :: 0 <= i < |plan| ==> plan[i] == Styled(d[i], ExpectedStyle(d[i], important, i))
    ensures var lines := TableLines(store, fmt, rows, plan, lim, truncate);
            forall i, j :: 0 <= i < |lines| && 0 <= j < |lines[i]| ==>
              lines[i][j] == FixedWidth(ColumnText(store, fmt, d[i], rows, j), ExpectedStyle(d[i], important, i),
                                        lim, truncate)
  {
    var lines := TableLines(store, fmt, rows, plan, lim, truncate);
    forall i, j | 0 <= i < |lines| && 0 <= j < |lines[i]|
      ensures lines[i][j] == FixedWidth(ColumnText(store, fmt, d[i], rows, j), ExpectedStyle(d[i], important, i),
                                        lim, truncate)
    {
      TableCell(store, fmt, rows, plan, lim, truncate, i, j);
      assert plan[i] == Styled(d[i], ExpectedStyle(d[i], important, i));
    }
  }

  /** With two or more results every cell is exactly the column width: the first
      `min(len, width)` characters of its text, then spaces. */
  lemma DisplayWideCells(store: Store, fmt: real -> string, rows: seq<ScoredKey>, omit: set<Field>,
                         show: seq<Field>, important: set<Field>, termWidth: nat)
    requires |rows| >= 2
    ensures var r := Display(store, fmt, rows, omit, show, important, termWidth);
            var d := Displayed(EffectiveShow(store, show), omit);
            var lim := ColumnWidth(termWidth, |rows|);
            r.Table? && forall i, j :: 0 <= i < |r.lines| && 0 <= j < |r.lines[i]| ==>
              var t := ColumnText(store, fmt, d[i], rows, j);
              var m := Min(|t|, lim);
              && |r.lines[i][j].text| == lim
              && r.lines[i][j].text[..m] == t[..m]
              && (forall k :: m <= k < lim ==> r.lines[i][j].text[k] == ' ')
  {
    DisplayCells(store, fmt, rows, omit, show, important, termWidth);
  }

  /** With a single result nothing is cut: a text of at most 1000 characters is shown
      in full, padded with spaces to at least the column width. */
  lemma DisplaySingleCells(store: Store, fmt: real -> string, rows: seq<ScoredKey>, omit: set<Field>,
                           show: seq<Field>, important: set<Field>, termWidth: nat)
    requires |rows| == 1
    ensures var r := Display(store, fmt, rows, omit, show, important, termWidth);
            var d := Displayed(EffectiveShow(store, show), omit);
            var lim := ColumnWidth(termWidth, |rows|);
            r.Table? && forall i, j :: 0 <= i < |r.lines| && 0 <= j < |r.lines[i]| ==>
              var t := ColumnText(store, fmt, d[i], rows, j);
              |t| <= NoTruncation ==>
                && |r.lines[i][j].text| == Max(lim, |t|)
                && r.lines[i][j].text[..|t|] == t
                && (forall k :: |t| <= k < |r.lines[i][j].text| ==> r.lines[i][j].text[k] == ' ')
  {
    DisplayCells(store, fmt, rows, omit, show, important, termWidth);
  }

  /** The values of one quiet line: every displayed field, in `show` order. */
  function QuietFields(store: Store, fmt: real -> string, row: ScoredKey, show: seq<Field>, omit: set<Field>): (r: seq<string>)
    ensures |r| == |Displayed(show, omit)|
    ensures forall i :: 0 <= i < |r| ==> r[i] == CellText(store, fmt, Displayed(show, omit)[i], row)
    decreases |show|
  {
    if |show| == 0 then []
    else if show[0] in omit then QuietFields(store, fmt, row, show[1..], omit)
    else [CellText(store, fmt, show[0], row)] + QuietFields(store, fmt, row, show[1..], omit)
  }

  /** The result loop of `display_quiet`, on an already defaulted field list. */
  function QuietLines(store: Store, fmt: real -> string, rows: seq<ScoredKey>, omit: set<Field>, show: seq<Field>): (lines: seq<string>)
    ensures |lines| == |Present(store.keys, rows)|
    ensures forall i :: 0 <= i < |lines| ==>
              lines[i] == Join(QuietFields(store, fmt, Present(store.keys, rows)[i], show, omit), QuietSeparator)
  {
    if |rows| == 0 then []
    else if rows[0].key !in store.keys then QuietLines(store, fmt, rows[1..], omit, show)
    else [Join(QuietFields(store, fmt, rows[0], show, omit), QuietSeparator)] + QuietLines(store, fmt, rows[1..], omit, show)
  }

  /** `display_quiet`: one line per result whose key the store holds, in stream order,
      joining that result's displayed fields with `^`. */
  function DisplayQuiet(store: Store, fmt: real -> string, rows: seq<ScoredKey>, omit: set<Field>, show: seq<Field>): (lines: seq<string>)
    ensures |lines| == |Present(store.keys, rows)|
    ensures forall i :: 0 <= i < |lines| ==>
              lines[i] == Join(QuietFields(store, fmt, Present(store.keys, rows)[i], EffectiveShow(store, show), omit), QuietSeparator)
  {
    QuietLines(store, fmt, rows, omit, EffectiveShow(store, show))
  }

  /** A quiet line splits back into its values when no value contains the separator. */
  lemma QuietLineSplits(store: Store, fmt: real -> string, row: ScoredKey, show: seq<Field>, omit: set<Field>)
    requires |Displayed(show, omit)| > 0
    requires forall f :: f in Displayed(show, omit) ==> QuietSeparator !in CellText(store, fmt, f, row)
    ensures SplitOn(Join(QuietFields(store, fmt, row, show, omit), QuietSeparator), {QuietSeparator})
            == QuietFields(store, fmt, row, show, omit)
  {
    var vs := QuietFields(store, fmt, row, show, omit);
    assert forall i :: 0 <= i < |vs| ==> QuietSeparator !in vs[i] by {
      forall i | 0 <= i < |vs|
        ensures QuietSeparator !in vs[i]
      {
        assert Displayed(show, omit)[i] in Displayed(show, omit);
      }
    }
    SplitJoin(vs, QuietSeparator);
  }
}
