/** `scan_coords`: read a `--near`/`--closest` argument as a literal coordinate pair
    or as a key whose location the store knows. */
module Geocode {
  import opened Wrappers
  import opened Text
  import opened GeoStore

  /** The outcome of reading a geocode argument. */
  datatype Geocode =
    | Coords(point: Coord)  // a literal pair, or the location of a known key
    | NotAKey               // not numeric, and not a key of the store
    | UnknownGeocode        // a key of the store with no location
    | BadFormat             // numeric, but not exactly two numbers

  /** The brackets removed from both ends of the argument. */
  const Parens: set<char> := {'(', ')'}

  const Comma: char := ','

  /** The comma-separated tokens of the argument, brackets stripped. */
  function Tokens(u: string): seq<string> {
    SplitOn(Strip(u, Parens), {Comma})
  }

  /** Every token parses as a float (Python's `float` does not raise). */
  predicate AllNumeric(toks: seq<string>, isNumeric: string -> bool) {
    forall i :: 0 <= i < |toks| ==> isNumeric(toks[i])
  }

  /** Classify `u`: all-numeric tokens must be exactly two; anything else is a key. */
  function ScanCoords(u: string, store: Store, isNumeric: string -> bool, parse: string -> real): (r: Geocode)
    ensures var numeric := AllNumeric(Tokens(u), isNumeric);
            && (r.BadFormat? <==> numeric && multiset(Strip(u, Parens))[Comma] != 1)
            && (r.NotAKey? <==> !numeric && u !in store.keys)
            && (r.UnknownGeocode? <==> !numeric && u in store.keys && store.location(u).None?)
            && (!numeric && r.Coords? ==> store.location(u) == Some(r.point))
  {
    var toks := Tokens(u);
    SplitCount(Strip(u, Parens), Comma);
    if AllNumeric(toks, isNumeric) then
      if |toks| == 2 then Coords(Coord(parse(toks[0]), parse(toks[1]))) else BadFormat
    else if u !in store.keys then NotAKey
    else
      match store.location(u)
      case None => UnknownGeocode
      case Some(c) => Coords(c)
  }

  /** A bracketed or bare `lat,lng` whose two halves parse is read as that pair, in that order. */
  lemma ScanCoordsPair(u: string, lat: string, lng: string, store: Store, isNumeric: string -> bool, parse: string -> real)
    requires Strip(u, Parens) == lat + [Comma] + lng
    requires Comma !in lat && Comma !in lng
    requires isNumeric(lat) && isNumeric(lng)
    ensures ScanCoords(u, store, isNumeric, parse) == Coords(Coord(parse(lat), parse(lng)))
  {
    SplitAtFirst(lat, lng, Comma);
    SplitWithoutSeparator(lng, Comma);
    assert Tokens(u) == [lat, lng];
  }

  /** Three comma-separated numbers are a format error, whatever the store holds. */
  lemma ScanCoordsTriple(u: string, x: string, y: string, z: string, store: Store, isNumeric: string -> bool, parse: string -> real)
    requires Strip(u, Parens) == x + [Comma] + (y + [Comma] + z)
    requires Comma !in x && Comma !in y && Comma !in z
    requires isNumeric(x) && isNumeric(y) && isNumeric(z)
    ensures ScanCoords(u, store, isNumeric, parse) == BadFormat
  {
    SplitAtFirst(x, y + [Comma] + z, Comma);
    SplitAtFirst(y, z, Comma);
    SplitWithoutSeparator(z, Comma);
    assert Tokens(u) == [x, y, z];
  }

  lemma StripThreeNumbers(u: string)
    requires u == "48.85,2.35,1"
    ensures Strip(u, Parens) == "48.85" + [Comma] + ("2.35" + [Comma] + "1")
  {
    assert u == "48.85" + [Comma] + ("2.35" + [Comma] + "1");
    StripUnchanged(u, Parens);
  }

  /** The argument `48.85,2.35,1` is rejected as badly formatted. */
  lemma ThreeNumbersRejected(u: string, store: Store, isNumeric: string -> bool, parse: string -> real)
    requires u == "48.85,2.35,1"
    requires isNumeric("48.85") && isNumeric("2.35") && isNumeric("1")
    ensures ScanCoords(u, store, isNumeric, parse) == BadFormat
  {
    StripThreeNumbers(u);
    ScanCoordsTriple(u, "48.85", "2.35", "1", store, isNumeric, parse);
  }

  lemma StripBracketedPair(u: string)
    requires u == "(48.8566, 2.3522)"
    ensures Strip(u, Parens) == "48.8566" + [Comma] + " 2.3522"
  {
    var v := u[1..];
    var inner := v[..|v| - 1];
    assert u[0] in Parens && v[0] !in Parens;
    assert StripLeft(v, Parens) == v;
    assert StripLeft(u, Parens) == v;
    assert v[|v| - 1] in Parens && inner[|inner| - 1] !in Parens;
    assert StripRight(inner, Parens) == inner;
    assert StripRight(v, Parens) == inner;
    assert inner == "48.8566" + [Comma] + " 2.3522";
  }

  /** The argument `(48.8566, 2.3522)` is read as a pair; the space stays with the second number. */
  lemma BracketedPairAccepted(u: string, store: Store, isNumeric: string -> bool, parse: string -> real)
    requires u == "(48.8566, 2.3522)"
    requires isNumeric("48.8566") && isNumeric(" 2.3522")
    ensures ScanCoords(u, store, isNumeric, parse) == Coords(Coord(parse("48.8566"), parse(" 2.3522")))
  {
    var lat, lng := "48.8566", " 2.3522";
    StripBracketedPair(u);
    assert Comma !in lat && Comma !in lng;
    ScanCoordsPair(u, lat, lng, store, isNumeric, parse);
  }
}
