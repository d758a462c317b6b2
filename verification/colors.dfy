/** Terminal styles and the two-colour rotator of the table renderer (`RotatingColors`). */
module Colors {
  import opened Wrappers

  /** A termcolor style: foreground colour, optional background, attributes. */
  datatype Style = Style(color: string, onColor: Option<string>, attrs: seq<string>)

  /** The two alternating column styles, in rotation order. */
  const Palette: seq<Style> := [Style("cyan", None, []), Style("white", Some("on_grey"), [])]

  /** The reserved style of important fields. */
  const Emph: Style := Style("white", Some("on_blue"), [])

  /** The reserved style of the score row. */
  const Header: Style := Style("red", None, [])

  /** The rotator's state: an index into `Palette`. */
  datatype Rotator = Rotator(current: nat) {

    /** The index points into the palette. */
    predicate Valid() {
      current < |Palette|
    }

    /** Step to the next palette entry, wrapping from the last back to the first. */
    function Next(): (r: Rotator)
      ensures Valid() ==> r.Valid() && r.current == (current + 1) % |Palette|
      ensures current == 0 ==> r.current == 1
      ensures current == 1 ==> r.current == 0
    {
      if current + 1 == |Palette| then Rotator(0) else Rotator(current + 1)
    }

    /** The style at the current index. */
    function Get(): (s: Style)
      requires Valid()
      ensures s in Palette && s != Emph && s != Header
    {
      Palette[current]
    }
  }

  /** A fresh rotator, on the first palette entry. */
  function Start(): (r: Rotator)
    ensures r.Valid() && r.Get() == Palette[0]
  {
    Rotator(0)
  }

  /** The rotator after `k` steps. */
  function Advance(r: Rotator, k: nat): Rotator
    decreases k
  {
    if k == 0 then r else Advance(r.Next(), k - 1)
  }

  /** After `k` steps the rotator shows palette entry `k` modulo the palette size,
      counted from where it started; it never leaves the palette. */
  lemma {:induction false} AdvanceCycles(r: Rotator, k: nat)
    requires r.Valid()
    ensures Advance(r, k).Valid()
    ensures Advance(r, k).current == (r.current + k) % |Palette|
    ensures Advance(r, k).Get() == Palette[(r.current + k) % |Palette|]
    decreases k
  {
    if k > 0 {
      AdvanceCycles(r.Next(), k - 1);
    }
  }
}
