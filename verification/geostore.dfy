/** The geographic store as the launcher sees it, and the scored-key stream that flows
    between the filter stages. The store is an oracle: every search it offers is a
    function-valued field about which the launcher assumes nothing. */
module GeoStore {
  import opened Wrappers
  import opened Seqs

  /** A record identifier, such as an airport code. */
  type Key = string

  /** A record attribute name. */
  type Field = string

  /** A latitude/longitude pair in degrees. */
  datatype Coord = Coord(lat: real, lng: real)

  /** One element of a result stream: Python's `(score, key)` tuple. */
  datatype ScoredKey = ScoredKey(score: real, key: Key)

  /** The data store behind `GeoBase`. `keys` is its iteration order and also decides
      membership (`key in geob`); the searches take the keys they may consider. */
  datatype Store = Store(
    keys: seq<Key>,
    fields: seq<Field>,
    get: (Key, Field) -> string,
    location: Key -> Option<Coord>,
    hasTrepSupport: bool,
    hasGeoSupport: bool,
    keysWhere: (Field, string, seq<Key>) -> seq<Key>,
    findNearPoint: (Coord, real, bool, seq<Key>) -> seq<ScoredKey>,
    findClosestFromPoint: (Coord, int, bool, seq<Key>) -> seq<ScoredKey>,
    fuzzyGet: (string, Field, real, seq<Key>) -> seq<ScoredKey>,
    trepGet: (string, string, seq<Key>) -> seq<ScoredKey>)

  /** The keys of a stream, scores dropped (`ex_keys`). */
  function KeysOf(res: seq<ScoredKey>): (ks: seq<Key>)
    ensures |ks| == |res|
    ensures forall i :: 0 <= i < |res| ==> ks[i] == res[i].key
  {
    seq(|res|, i requires 0 <= i < |res| => res[i].key)
  }

  /** Python's `enumerate(ks)`: every key scored with its 0-based position. */
  function Enumerate(ks: seq<Key>): (r: seq<ScoredKey>)
    ensures KeysOf(r) == ks
    ensures forall i :: 0 <= i < |r| ==> r[i].score == i as real
  {
    seq(|ks|, i requires 0 <= i < |ks| => ScoredKey(i as real, ks[i]))
  }

  /** The predicate "the key of this pair is among `keys`". */
  function KeyIn(keys: seq<Key>): ScoredKey -> bool {
    (p: ScoredKey) => p.key in keys
  }

  /** The pairs whose key the store holds, in stream order. */
  function Present(keys: seq<Key>, res: seq<ScoredKey>): seq<ScoredKey> {
    Filter(res, KeyIn(keys))
  }

  /** The predicate "the key of this pair is not among `keys`". */
  function KeyOut(keys: seq<Key>): ScoredKey -> bool {
    (p: ScoredKey) => p.key !in keys
  }

  /** The keys the store does not hold, in stream order: one warning each. */
  function MissingKeys(keys: seq<Key>, res: seq<ScoredKey>): (r: seq<Key>)
    ensures r == KeysOf(Filter(res, KeyOut(keys)))
    ensures forall i :: 0 <= i < |r| ==> r[i] !in keys
    ensures |r| + |Present(keys, res)| == |res|
  {
    if |res| == 0 then []
    else
      var rest := MissingKeys(keys, res[1..]);
      if res[0].key in keys then rest
      else
        KeysOfCons(res[0], Filter(res[1..], KeyOut(keys)));
        [res[0].key] + rest
  }

  /** The keys of a stream with one more pair in front. */
  lemma KeysOfCons(x: ScoredKey, xs: seq<ScoredKey>)
    ensures KeysOf([x] + xs) == [x.key] + KeysOf(xs)
  {
    var l := KeysOf([x] + xs);
    var r := [x.key] + KeysOf(xs);
    assert |l| == |r|;
    forall i | 0 <= i < |l|
      ensures l[i] == r[i]
    {
      if i > 0 {
        assert ([x] + xs)[i] == xs[i - 1];
      }
    }
  }
}
