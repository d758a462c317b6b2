/** The decision logic of `main`: argument defaults and validation, the key source,
    the fixed-order chain of filter stages, the result limit and the important fields. */
module Pipeline {
  import opened Wrappers
  import opened Seqs
  import opened Text
  import opened GeoStore
  import opened Sorting
  import opened Geocode
  import Render

  /** The fatal errors of the launcher (each ends the run before any output). */
  datatype Error =
    | UnknownBase(base: string, bases: set<string>)
    | NoTrepSupport
    | NoGeocodeSupport(base: string)
    | UnknownProperty(property: Field, base: string, available: seq<Field>)
    | UnknownField(field: Field, base: string, available: seq<Field>)
    | GeocodeFormat(input: string)
    | GeocodeUnknown(input: string)
    | UnknownKey(key: string)

  /** The parsed command line (`--update` is not modelled). */
  datatype Args = Args(
    keys: seq<string>,
    base: string,
    fuzzy: Option<string>,
    fuzzyProperty: Field,
    fuzzyLimit: real,
    exact: Option<string>,
    exactProperty: Field,
    near: Option<string>,
    nearLimit: real,
    closest: Option<string>,
    closestLimit: int,
    trep: Option<seq<string>>,
    trepFormat: string,
    withoutGrid: bool,
    quiet: bool,
    verbose: bool,
    omit: seq<Field>,
    show: seq<Field>,
    limit: Option<int>)

  /** The command line with no option given. */
  function DefaultArgs(keys: seq<string>): (a: Args)
    ensures a.keys == keys && a.base == "ori_por"
    ensures a.fuzzy.None? && a.exact.None? && a.near.None? && a.closest.None? && a.trep.None?
    ensures a.fuzzyProperty == "name" && a.exactProperty == IdField
    ensures a.fuzzyLimit == 0.85 && a.nearLimit == 50.0 && a.closestLimit == 10 && a.trepFormat == "S"
    ensures a.limit.None? && a.show == [] && a.omit == [] && !a.quiet && !a.verbose && !a.withoutGrid
  {
    Args(keys, "ori_por", None, "name", 0.85, None, IdField, None, 50.0, None, 10, None, "S",
         false, false, false, [], [], None)
  }

  /** The record identifier field, always emphasised. */
  const IdField: Field := "__id__"

  /** Result limit when the user sets none and the output is interactive. */
  const DefaultInteractiveLimit: int := 4

  /** The limit in force: an explicit one always; otherwise 4 interactively, none when quiet. */
  function EffectiveLimit(limit: Option<int>, quiet: bool): (r: Option<int>)
    ensures limit.Some? ==> r == limit
    ensures limit.None? ==> (r.None? <==> quiet)
    ensures limit.None? && r.Some? ==> r.value == DefaultInteractiveLimit
  {
    match limit
    case Some(n) => Some(n)
    case None => if quiet then None else Some(DefaultInteractiveLimit)
  }

  /** The first of `fs` that is not in `valid`, if any. */
  function FirstUnknown(fs: seq<Field>, valid: seq<Field>): (r: Option<Field>)
    ensures r.None? <==> forall i :: 0 <= i < |fs| ==> fs[i] in valid
    ensures r.Some? ==> exists i :: 0 <= i < |fs| && fs[i] == r.value && fs[i] !in valid &&
                                   forall j :: 0 <= j < i ==> fs[j] in valid
  {
    if |fs| == 0 then None
    else if fs[0] !in valid then Some(fs[0])
    else
      var r := FirstUnknown(fs[1..], valid);
      if r.Some? then
        var i :| 0 <= i < |fs[1..]| && fs[1..][i] == r.value && fs[1..][i] !in valid &&
                 forall j :: 0 <= j < i ==> fs[1..][j] in valid;
        assert fs[i + 1] == r.value;
        r
      else r
  }

  /** The fields `--show` and `--omit` may name: the score pseudo-field and the store's fields. */
  function ValidFields(store: Store): seq<Field> {
    [Render.RefField] + store.fields
  }

  /** Opentrep is only needed for `--trep`. */
  predicate TrepOk(store: Store, args: Args) {
    args.trep.Some? ==> store.hasTrepSupport
  }

  /** Geocoding is only needed for `--near` and `--closest`. */
  predicate GeoOk(store: Store, args: Args) {
    args.near.Some? || args.closest.Some? ==> store.hasGeoSupport
  }

  /** The exact-match property must be a store field when `--exact` is given. */
  predicate ExactOk(store: Store, args: Args) {
    args.exact.Some? ==> args.exactProperty in store.fields
  }

  /** The fuzzy-match property must be a store field when `--fuzzy` is given. */
  predicate FuzzyOk(store: Store, args: Args) {
    args.fuzzy.Some? ==> args.fuzzyProperty in store.fields
  }

  /** Every shown or omitted field is the score or a store field. */
  predicate FieldsOk(store: Store, args: Args) {
    forall f :: f in args.show + args.omit ==> f in ValidFields(store)
  }

  /** The checks `main` makes before any stage runs, in its order; the first failure wins. */
  function Validate(store: Store, args: Args): (e: Option<Error>)
    ensures e.None? <==>
              TrepOk(store, args) && GeoOk(store, args) && ExactOk(store, args) && FuzzyOk(store, args) && FieldsOk(store, args)
    ensures !TrepOk(store, args) ==> e == Some(NoTrepSupport)
    ensures TrepOk(store, args) && !GeoOk(store, args) ==> e == Some(NoGeocodeSupport(args.base))
    ensures TrepOk(store, args) && GeoOk(store, args) && !ExactOk(store, args) ==>
              e == Some(UnknownProperty(args.exactProperty, args.base, store.fields))
    ensures TrepOk(store, args) && GeoOk(store, args) && ExactOk(store, args) && !FuzzyOk(store, args) ==>
              e == Some(UnknownProperty(args.fuzzyProperty, args.base, store.fields))
    ensures TrepOk(store, args) && GeoOk(store, args) && ExactOk(store, args) && FuzzyOk(store, args) && !FieldsOk(store, args) ==>
              && FirstUnknown(args.show + args.omit, ValidFields(store)).Some?
              && e == Some(UnknownField(FirstUnknown(args.show + args.omit, ValidFields(store)).value, args.base, ValidFields(store)))
  {
    if args.trep.Some? && !store.hasTrepSupport then Some(NoTrepSupport)
    else if (args.near.Some? || args.closest.Some?) && !store.hasGeoSupport then Some(NoGeocodeSupport(args.base))
    else if args.exact.Some? && args.exactProperty !in store.fields then
      Some(UnknownProperty(args.exactProperty, args.base, store.fields))
    else if args.fuzzy.Some? && args.fuzzyProperty !in store.fields then
      Some(UnknownProperty(args.fuzzyProperty, args.base, store.fields))
    else
      var fs := args.show + args.omit;
      assert (forall i :: 0 <= i < |fs| ==> fs[i] in ValidFields(store)) <==> FieldsOk(store, args);
      match FirstUnknown(fs, ValidFields(store))
      case Some(f) => Some(UnknownField(f, args.base, ValidFields(store)))
      case None => None
  }

  /** The keys of the piped input: every whitespace-separated token of every line, in order. */
  function StdinKeys(lines: seq<string>): (r: seq<Key>)
    ensures forall i :: 0 <= i < |r| ==> |r[i]| > 0 && Avoids(r[i], Whitespace)
  {
    if |lines| == 0 then [] else Words(Strip(lines[0], Whitespace)) + StdinKeys(lines[1..])
  }

  /** The piped keys are the words of the whole input, lines joined by newlines: a key
      never spans two lines, and every maximal non-whitespace run is one key. */
  lemma {:induction false} StdinKeysAreWords(lines: seq<string>)
    ensures StdinKeys(lines) == Words(Join(lines, '\n'))
  {
    if |lines| > 0 {
      var head := lines[0];
      var tail := lines[1..];
      assert StdinKeys(lines) == Words(Strip(head, Whitespace)) + StdinKeys(tail);
      WordsStrip(head);
      StdinKeysAreWords(tail);
      if |tail| == 0 {
        assert Join(lines, '\n') == head;
        WordsOfWord("");
      } else {
        var rest := Join(tail, '\n');
        assert Join(lines, '\n') == head + ['\n'] + rest;
        WordsSplitAt(head, '\n', rest);
      }
    }
  }


  /** Where the keys come from: the piped input when stdin is not a terminal (`stdin` holds
      its lines), else the keys on the command line, else every key of the store. */
  function InitialKeys(store: Store, args: Args, stdin: Option<seq<string>>): (r: seq<Key>)
    ensures stdin.Some? ==> r == Words(Join(stdin.value, '\n'))
    ensures stdin.None? && |args.keys| > 0 ==> r == args.keys
    ensures stdin.None? && |args.keys| == 0 ==> r == store.keys
  {
    if stdin.Some? then StdinKeysAreWords(stdin.value); StdinKeys(stdin.value)
    else if |args.keys| > 0 then args.keys
    else store.keys
  }

  /** One filter stage, its geocode already resolved. */
  datatype Stage =
    | TrepStage(query: string, format: string)
    | ExactStage(property: Field, value: string)
    | NearStage(point: Coord, radius: real, grid: bool)
    | ClosestStage(point: Coord, count: int, grid: bool)
    | FuzzyStage(query: string, property: Field, minMatch: real)

  /** The position of a stage kind in the fixed chain. */
  function Rank(st: Stage): nat {
    match st
    case TrepStage(_, _) => 0
    case ExactStage(_, _) => 1
    case NearStage(_, _, _) => 2
    case ClosestStage(_, _, _) => 3
    case FuzzyStage(_, _, _) => 4
  }

  /** Run one stage over the keys it may consider. */
  function ApplyStage(store: Store, st: Stage, from: seq<Key>): (r: seq<ScoredKey>)
    ensures st.ExactStage? ==> KeysOf(r) == store.keysWhere(st.property, st.value, from)
    ensures st.ExactStage? ==> forall i :: 0 <= i < |r| ==> r[i].score == i as real
    ensures st.NearStage? ==> Sorted(r)
    ensures st.NearStage? ==> multiset(r) == multiset(store.findNearPoint(st.point, st.radius, st.grid, from))
    ensures st.TrepStage? ==> r == store.trepGet(st.query, st.format, from)
    ensures st.ClosestStage? ==> r == store.findClosestFromPoint(st.point, st.count, st.grid, from)
    ensures st.FuzzyStage? ==> r == store.fuzzyGet(st.query, st.property, st.minMatch, from)
  {
    match st
    case TrepStage(q, f) => store.trepGet(q, f, from)
    case ExactStage(p, v) => Enumerate(store.keysWhere(p, v, from))
    case NearStage(c, radius, grid) => Sort(store.findNearPoint(c, radius, grid, from))
    case ClosestStage(c, n, grid) => store.findClosestFromPoint(c, n, grid, from)
    case FuzzyStage(q, p, m) => store.fuzzyGet(q, p, m, from)
  }

  /** Chain the stages: each one sees only the keys of the previous result. */
  function Compose(store: Store, stages: seq<Stage>, res: seq<ScoredKey>): seq<ScoredKey>
    decreases |stages|
  {
    if |stages| == 0 then res
    else Compose(store, stages[1..], ApplyStage(store, stages[0], KeysOf(res)))
  }

  /** Adding a stage at the end feeds it the keys, and only the keys, of the chain so far. */
  lemma {:induction false} ComposeSnoc(store: Store, stages: seq<Stage>, st: Stage, res: seq<ScoredKey>)
    ensures Compose(store, stages + [st], res) == ApplyStage(store, st, KeysOf(Compose(store, stages, res)))
    decreases |stages|
  {
    if |stages| > 0 {
      assert (stages + [st])[0] == stages[0];
      assert (stages + [st])[1..] == stages[1..] + [st];
      ComposeSnoc(store, stages[1..], st, ApplyStage(store, stages[0], KeysOf(res)));
    } else {
      assert stages + [st] == [st];
    }
  }

  /** Read a geocode argument, turning `scan_coords`' failures into errors. */
  function ResolveGeocode(u: string, store: Store, isNumeric: string -> bool, parse: string -> real): (r: Result<Coord, Error>)
    ensures r.Err? ==> r.error in {UnknownKey(u), GeocodeUnknown(u), GeocodeFormat(u)}
    ensures r.Ok? <==> ScanCoords(u, store, isNumeric, parse).Coords?
    ensures r.Ok? ==> r.value == ScanCoords(u, store, isNumeric, parse).point
    ensures ScanCoords(u, store, isNumeric, parse).NotAKey? <==> r == Err(UnknownKey(u))
    ensures ScanCoords(u, store, isNumeric, parse).UnknownGeocode? <==> r == Err(GeocodeUnknown(u))
    ensures ScanCoords(u, store, isNumeric, parse).BadFormat? <==> r == Err(GeocodeFormat(u))
  {
    match ScanCoords(u, store, isNumeric, parse)
    case Coords(c) => Ok(c)
    case NotAKey => Err(UnknownKey(u))
    case UnknownGeocode => Err(GeocodeUnknown(u))
    case BadFormat => Err(GeocodeFormat(u))
  }

  function ResolveOption(u: Option<string>, store: Store, isNumeric: string -> bool, parse: string -> real): (r: Result<Option<Coord>, Error>)
    ensures r.Ok? ==> (r.value.Some? <==> u.Some?)
  {
    match u
    case None => Ok(None)
    case Some(s) =>
      match ResolveGeocode(s, store, isNumeric, parse)
      case Ok(c) => Ok(Some(c))
      case Err(e) => Err(e)
  }

  /** Stages strictly in chain order. */
  predicate Ranked(stages: seq<Stage>) {
    forall i, j :: 0 <= i < j < |stages| ==> Rank(stages[i]) < Rank(stages[j])
  }

  /** In a ranked chain the stages after the first are the others. */
  lemma RankedTail(a: seq<Stage>)
    requires Ranked(a) && |a| > 0
    ensures forall s :: s in a[1..] <==> s in a && s != a[0]
  {
    forall s | s in a[1..]
      ensures s != a[0]
    {
      var i :| 0 <= i < |a[1..]| && a[1..][i] == s;
      assert Rank(a[0]) < Rank(a[i + 1]);
    }
    forall s | s in a && s != a[0]
      ensures s in a[1..]
    {
      var j :| 0 <= j < |a| && a[j] == s;
      assert a[1..][j - 1] == s;
    }
  }

  /** A non-empty chain holds its first stage. */
  lemma HeadIn(a: seq<Stage>)
    ensures |a| > 0 ==> a[0] in a
  {
  }

  /** Two ranked chains with the same stages are the same chain. */
  lemma {:induction false} RankedUnique(a: seq<Stage>, b: seq<Stage>)
    requires Ranked(a) && Ranked(b)
    requires forall s :: s in a <==> s in b
    ensures a == b
    decreases |a|
  {
    if |a| > 0 {
      assert a[0] in b;
      var k :| 0 <= k < |b| && b[k] == a[0];
      assert b[0] in a;
      var m :| 0 <= m < |a| && a[m] == b[0];
      assert Rank(a[0]) <= Rank(a[m]);
      assert Rank(b[0]) <= Rank(b[k]);
      assert m == 0;
      RankedTail(a);
      RankedTail(b);
      RankedUnique(a[1..], b[1..]);
      assert a == [a[0]] + a[1..] && b == [b[0]] + b[1..];
    } else {
      HeadIn(b);
    }
  }

  /** The stages present in `slots`, in slot order. */
  function Somes(slots: seq<Option<Stage>>): (r: seq<Stage>)
    ensures forall s :: s in r <==> Some(s) in slots
    ensures (forall i, j :: 0 <= i < j < |slots| && slots[i].Some? && slots[j].Some? ==>
               Rank(slots[i].value) < Rank(slots[j].value)) ==> Ranked(r)
  {
    if |slots| == 0 then []
    else
      var rest := Somes(slots[1..]);
      assert forall s :: Some(s) in slots <==> Some(s) == slots[0] || Some(s) in slots[1..];
      match slots[0]
      case None => rest
      case Some(st) =>
        assert (forall i, j :: 0 <= i < j < |slots| && slots[i].Some? && slots[j].Some? ==>
                  Rank(slots[i].value) < Rank(slots[j].value))
               ==> forall k :: 0 <= k < |rest| ==> Rank(st) < Rank(rest[k]) by {
          if forall i, j :: 0 <= i < j < |slots| && slots[i].Some? && slots[j].Some? ==>
               Rank(slots[i].value) < Rank(slots[j].value) {
            forall k | 0 <= k < |rest|
              ensures Rank(st) < Rank(rest[k])
            {
              assert rest[k] in rest;
              var j :| 0 <= j < |slots[1..]| && slots[1..][j] == Some(rest[k]);
              assert slots[j + 1] == Some(rest[k]);
            }
          }
        }
        [st] + rest
  }

  /** The slot of each stage kind, its position in the chain; empty when not requested. */
  function Slots(args: Args, nearPoint: Option<Coord>, closestPoint: Option<Coord>): (slots: seq<Option<Stage>>)
    ensures |slots| == 5
    ensures forall i :: 0 <= i < 5 && slots[i].Some? ==> Rank(slots[i].value) == i
  {
    var grid := !args.withoutGrid;
    [ if args.trep.Some? then Some(TrepStage(Join(args.trep.value, ' '), args.trepFormat)) else None,
      if args.exact.Some? then Some(ExactStage(args.exactProperty, args.exact.value)) else None,
      if nearPoint.Some? then Some(NearStage(nearPoint.value, args.nearLimit, grid)) else None,
      if closestPoint.Some? then Some(ClosestStage(closestPoint.value, args.closestLimit, grid)) else None,
      if args.fuzzy.Some? then Some(FuzzyStage(args.fuzzy.value, args.fuzzyProperty, args.fuzzyLimit)) else None ]
  }

  /** A stage of rank `k` is planned exactly when slot `k` is filled. */
  lemma KindPresent(slots: seq<Option<Stage>>, k: nat)
    requires k < |slots|
    requires forall i :: 0 <= i < |slots| && slots[i].Some? ==> Rank(slots[i].value) == i
    ensures slots[k].Some? <==> exists s :: s in Somes(slots) && Rank(s) == k
  {
    if slots[k].Some? {
      assert Some(slots[k].value) in slots;
    }
    if s :| s in Somes(slots) && Rank(s) == k {
      assert Some(s) in slots;
      var i :| 0 <= i < |slots| && slots[i] == Some(s);
    }
  }

  /** The enabled stages, in the fixed order trep, exact, near, closest, fuzzy, whatever
      the order of the options, with the near and closest geocodes resolved (near first). */
  function PlanStages(store: Store, args: Args, isNumeric: string -> bool, parse: string -> real): (r: Result<seq<Stage>, Error>)
    ensures r.Ok? <==> (args.near.None? || ResolveGeocode(args.near.value, store, isNumeric, parse).Ok?)
                       && (args.closest.None? || ResolveGeocode(args.closest.value, store, isNumeric, parse).Ok?)
    ensures args.near.Some? && ResolveGeocode(args.near.value, store, isNumeric, parse).Err? ==>
              r == Err(ResolveGeocode(args.near.value, store, isNumeric, parse).error)
    ensures (args.near.None? || ResolveGeocode(args.near.value, store, isNumeric, parse).Ok?)
            && args.closest.Some? && ResolveGeocode(args.closest.value, store, isNumeric, parse).Err? ==>
              r == Err(ResolveGeocode(args.closest.value, store, isNumeric, parse).error)
    ensures r.Ok? ==> Ranked(r.value)
  {
    match ResolveOption(args.near, store, isNumeric, parse)
    case Err(e) => Err(e)
    case Ok(nearPoint) =>
      match ResolveOption(args.closest, store, isNumeric, parse)
      case Err(e) => Err(e)
      case Ok(closestPoint) =>
        var slots := Slots(args, nearPoint, closestPoint);
        Ok(Somes(slots))
  }

  /** The stages in the slots, with the parameters each kind carries. */
  lemma SlotsParams(args: Args, nearPoint: Option<Coord>, closestPoint: Option<Coord>)
    ensures forall s :: Some(s) in Slots(args, nearPoint, closestPoint) <==>
              || (args.trep.Some? && s == TrepStage(Join(args.trep.value, ' '), args.trepFormat))
              || (args.exact.Some? && s == ExactStage(args.exactProperty, args.exact.value))
              || (nearPoint.Some? && s == NearStage(nearPoint.value, args.nearLimit, !args.withoutGrid))
              || (closestPoint.Some? && s == ClosestStage(closestPoint.value, args.closestLimit, !args.withoutGrid))
              || (args.fuzzy.Some? && s == FuzzyStage(args.fuzzy.value, args.fuzzyProperty, args.fuzzyLimit))
  {
    var slots := Slots(args, nearPoint, closestPoint);
    forall s
      ensures Some(s) in slots <==> Some(s) == slots[0] || Some(s) == slots[1] || Some(s) == slots[2]
                                    || Some(s) == slots[3] || Some(s) == slots[4]
    {
      if Some(s) in slots {
        var k :| 0 <= k < |slots| && slots[k] == Some(s);
      }
    }
  }

  /** A successful plan holds exactly the requested stages, each with the parameters `main`
      hands the store: the space-joined trep query and its format; the exact property and
      value; the resolved near point, `near_limit` and the grid flag; the resolved closest
      point, `closest_limit` as N and the grid flag; the fuzzy query, property and
      `fuzzy_limit` as the minimum match. With `Ranked`, this fixes the plan. */
  lemma PlanParams(store: Store, args: Args, isNumeric: string -> bool, parse: string -> real)
    ensures var r := PlanStages(store, args, isNumeric, parse);
            r.Ok? ==> forall s :: s in r.value <==>
              || (args.trep.Some? && s == TrepStage(Join(args.trep.value, ' '), args.trepFormat))
              || (args.exact.Some? && s == ExactStage(args.exactProperty, args.exact.value))
              || (args.near.Some? && s == NearStage(ResolveGeocode(args.near.value, store, isNumeric, parse).value,
                                                    args.nearLimit, !args.withoutGrid))
              || (args.closest.Some? && s == ClosestStage(ResolveGeocode(args.closest.value, store, isNumeric, parse).value,
                                                          args.closestLimit, !args.withoutGrid))
              || (args.fuzzy.Some? && s == FuzzyStage(args.fuzzy.value, args.fuzzyProperty, args.fuzzyLimit))
  {
    match ResolveOption(args.near, store, isNumeric, parse)
    case Err(_) =>
    case Ok(nearPoint) =>
      match ResolveOption(args.closest, store, isNumeric, parse)
      case Err(_) =>
      case Ok(closestPoint) =>
        assert nearPoint.Some? ==> nearPoint.value == ResolveGeocode(args.near.value, store, isNumeric, parse).value;
        assert closestPoint.Some? ==> closestPoint.value == ResolveGeocode(args.closest.value, store, isNumeric, parse).value;
        SlotsParams(args, nearPoint, closestPoint);
        assert PlanStages(store, args, isNumeric, parse) == Ok(Somes(Slots(args, nearPoint, closestPoint)));
  }

  /** Closest and fuzzy requested, the closest geocode resolving to `c`: the plan is the
      `closest_limit` nearest points with the grid flag, then the fuzzy match at `fuzzy_limit`. */
  lemma PlanClosestFuzzy(store: Store, args: Args, isNumeric: string -> bool, parse: string -> real, c: Coord)
    requires args.trep.None? && args.exact.None? && args.near.None? && args.closest.Some? && args.fuzzy.Some?
    requires ScanCoords(args.closest.value, store, isNumeric, parse) == Coords(c)
    ensures PlanStages(store, args, isNumeric, parse)
            == Ok([ClosestStage(c, args.closestLimit, !args.withoutGrid),
                   FuzzyStage(args.fuzzy.value, args.fuzzyProperty, args.fuzzyLimit)])
  {
    var expected := [ClosestStage(c, args.closestLimit, !args.withoutGrid),
                     FuzzyStage(args.fuzzy.value, args.fuzzyProperty, args.fuzzyLimit)];
    var r := PlanStages(store, args, isNumeric, parse);
    assert r.Ok?;
    PlanParams(store, args, isNumeric, parse);
    assert forall s :: s in r.value <==> s in expected;
    assert Ranked(expected);
    RankedUnique(r.value, expected);
  }

  /** Whether the options ask for a stage of rank `k`. */
  function Requested(args: Args, k: nat): bool {
    match k
    case 0 => args.trep.Some?
    case 1 => args.exact.Some?
    case 2 => args.near.Some?
    case 3 => args.closest.Some?
    case _ => args.fuzzy.Some?
  }

  /** A planned chain holds a stage of each kind exactly when its option was given. */
  lemma PlanKinds(store: Store, args: Args, isNumeric: string -> bool, parse: string -> real, k: nat)
    requires k < 5
    ensures PlanStages(store, args, isNumeric, parse).Ok? ==>
              (Requested(args, k) <==> exists s :: s in PlanStages(store, args, isNumeric, parse).value && Rank(s) == k)
  {
    match ResolveOption(args.near, store, isNumeric, parse)
    case Err(_) =>
    case Ok(nearPoint) =>
      match ResolveOption(args.closest, store, isNumeric, parse)
      case Err(_) =>
      case Ok(closestPoint) =>
        KindPresent(Slots(args, nearPoint, closestPoint), k);
  }

  /** The result stream of the chain: the enumerated key source, then every enabled stage. */
  function Results(store: Store, args: Args, stdin: Option<seq<string>>, isNumeric: string -> bool, parse: string -> real): (r: Result<seq<ScoredKey>, Error>)
    ensures r.Ok? <==> PlanStages(store, args, isNumeric, parse).Ok?
    ensures r.Err? ==> r.error == PlanStages(store, args, isNumeric, parse).error
  {
    match PlanStages(store, args, isNumeric, parse)
    case Err(e) => Err(e)
    case Ok(stages) => Ok(Compose(store, stages, Enumerate(InitialKeys(store, args, stdin))))
  }

  /** With no stage requested the chain is the key source, each key scored by its position. */
  lemma NoStageEnumerates(store: Store, args: Args, stdin: Option<seq<string>>, isNumeric: string -> bool, parse: string -> real)
    requires args.trep.None? && args.exact.None? && args.near.None? && args.closest.None? && args.fuzzy.None?
    ensures var r := Results(store, args, stdin, isNumeric, parse);
            && r == Ok(Enumerate(InitialKeys(store, args, stdin)))
            && KeysOf(r.value) == InitialKeys(store, args, stdin)
            && forall i :: 0 <= i < |r.value| ==> r.value[i].score == i as real
  {
    var slots := Slots(args, None, None);
    assert slots == [None, None, None, None, None];
    assert Somes(slots[4..]) == [];
    assert Somes(slots[3..]) == [];
    assert Somes(slots[2..]) == [];
    assert Somes(slots[1..]) == [];
    assert PlanStages(store, args, isNumeric, parse) == Ok([]);
  }

  /** The plan reads the options, never the positional keys. */
  lemma PlanIgnoresKeys(store: Store, args: Args, keys: seq<string>, isNumeric: string -> bool, parse: string -> real)
    ensures PlanStages(store, args.(keys := keys), isNumeric, parse) == PlanStages(store, args, isNumeric, parse)
  {
    var other := args.(keys := keys);
    assert ResolveOption(other.near, store, isNumeric, parse) == ResolveOption(args.near, store, isNumeric, parse);
    assert ResolveOption(other.closest, store, isNumeric, parse) == ResolveOption(args.closest, store, isNumeric, parse);
    forall nearPoint, closestPoint
      ensures Slots(other, nearPoint, closestPoint) == Slots(args, nearPoint, closestPoint)
    {
    }
  }

  /** Piped input wins: when stdin is not a terminal the keys on the command line are ignored. */
  lemma PipedInputWins(store: Store, args: Args, keys: seq<string>, lines: seq<string>,
                       isNumeric: string -> bool, parse: string -> real)
    ensures Results(store, args.(keys := keys), Some(lines), isNumeric, parse)
            == Results(store, args, Some(lines), isNumeric, parse)
  {
    PlanIgnoresKeys(store, args, keys, isNumeric, parse);
    assert InitialKeys(store, args.(keys := keys), Some(lines)) == InitialKeys(store, args, Some(lines));
  }

  /** With no piped input, no keys and no stage, the results are every key of the store,
      numbered from zero. */
  lemma AllKeysWhenNoneGiven(store: Store, args: Args, isNumeric: string -> bool, parse: string -> real)
    requires args.keys == []
    requires args.trep.None? && args.exact.None? && args.near.None? && args.closest.None? && args.fuzzy.None?
    ensures Results(store, args, None, isNumeric, parse) == Ok(Enumerate(store.keys))
  {
    NoStageEnumerates(store, args, None, isNumeric, parse);
  }

  /** With no piped input, keys on the command line replace the store's: with no stage they
      are the results, numbered from zero. */
  lemma CommandLineKeysWin(store: Store, args: Args, isNumeric: string -> bool, parse: string -> real)
    requires |args.keys| > 0
    requires args.trep.None? && args.exact.None? && args.near.None? && args.closest.None? && args.fuzzy.None?
    ensures Results(store, args, None, isNumeric, parse) == Ok(Enumerate(args.keys))
  {
    NoStageEnumerates(store, args, None, isNumeric, parse);
  }

  /** Asking for an exact match and a radius search applies the exact match first, and
      the radius search sees only the matching keys; its result is sorted by (distance, key). */
  lemma ExactBeforeNear(store: Store, args: Args, stdin: Option<seq<string>>, isNumeric: string -> bool, parse: string -> real, c: Coord)
    requires args.trep.None? && args.exact.Some? && args.near.Some? && args.closest.None? && args.fuzzy.None?
    requires ScanCoords(args.near.value, store, isNumeric, parse) == Coords(c)
    ensures var matched := store.keysWhere(args.exactProperty, args.exact.value, InitialKeys(store, args, stdin));
            Results(store, args, stdin, isNumeric, parse)
              == Ok(Sort(store.findNearPoint(c, args.nearLimit, !args.withoutGrid, matched)))
  {
    var ex := ExactStage(args.exactProperty, args.exact.value);
    var nr := NearStage(c, args.nearLimit, !args.withoutGrid);
    PlanExactNear(store, args, isNumeric, parse, c);
    var res0 := Enumerate(InitialKeys(store, args, stdin));
    ComposeSnoc(store, [ex], nr, res0);
    assert [ex] + [nr] == [ex, nr];
    var afterExact := ApplyStage(store, ex, KeysOf(res0));
    assert Compose(store, [ex], res0) == afterExact;
    assert KeysOf(afterExact) == store.keysWhere(args.exactProperty, args.exact.value, InitialKeys(store, args, stdin));
  }

  /** Exact and near requested, near resolved to `c`: the plan is those two stages, exact first. */
  lemma PlanExactNear(store: Store, args: Args, isNumeric: string -> bool, parse: string -> real, c: Coord)
    requires args.trep.None? && args.exact.Some? && args.near.Some? && args.closest.None? && args.fuzzy.None?
    requires ScanCoords(args.near.value, store, isNumeric, parse) == Coords(c)
    ensures PlanStages(store, args, isNumeric, parse)
            == Ok([ExactStage(args.exactProperty, args.exact.value), NearStage(c, args.nearLimit, !args.withoutGrid)])
  {
    var expected := [ExactStage(args.exactProperty, args.exact.value), NearStage(c, args.nearLimit, !args.withoutGrid)];
    var r := PlanStages(store, args, isNumeric, parse);
    assert r.Ok?;
    PlanParams(store, args, isNumeric, parse);
    assert forall s :: s in r.value <==> s in expected;
    assert Ranked(expected);
    RankedUnique(r.value, expected);
  }


  /** The results rendered, and the keys warned about because the store lacks them. */
  datatype Selection = Selection(warned: seq<Key>, kept: seq<ScoredKey>)

  /** The stream cut to the limit (`res[:limit]`), when there is one. */
  function Truncate(res: seq<ScoredKey>, limit: Option<int>): seq<ScoredKey> {
    match limit
    case None => res
    case Some(n) => SliceTo(res, n)
  }

  /** Keep the first `limit` results, then drop (and warn about) keys the store lacks,
      without renumbering the scores of the rest. */
  function Select(store: Store, res: seq<ScoredKey>, limit: Option<int>): (r: Selection)
    ensures forall i :: 0 <= i < |r.kept| ==> r.kept[i].key in store.keys
    ensures forall i :: 0 <= i < |r.warned| ==> r.warned[i] !in store.keys
    ensures r.kept == Filter(Truncate(res, limit), KeyIn(store.keys))
    ensures r.warned == KeysOf(Filter(Truncate(res, limit), KeyOut(store.keys)))
    ensures r.kept <= Present(store.keys, res)
    ensures |r.kept| + |r.warned| == |Truncate(res, limit)|
    ensures limit.None? ==> r.kept == Present(store.keys, res)
    ensures limit.Some? && limit.value >= 0 ==> |r.kept| <= limit.value
  {
    var cut := Truncate(res, limit);
    assert cut == res[..|cut|];
    FilterPrefix(res, |cut|, KeyIn(store.keys));
    Selection(MissingKeys(store.keys, cut), Present(store.keys, cut))
  }

  /** The fields shown emphasised: the identifier, and the field of any exact or fuzzy search. */
  function Important(args: Args): (r: set<Field>)
    ensures IdField in r
    ensures args.exact.Some? ==> args.exactProperty in r
    ensures args.fuzzy.Some? ==> args.fuzzyProperty in r
    ensures forall f :: f in r ==> f == IdField || (args.exact.Some? && f == args.exactProperty)
                                   || (args.fuzzy.Some? && f == args.fuzzyProperty)
  {
    {IdField}
      + (if args.exact.Some? then {args.exactProperty} else {})
      + (if args.fuzzy.Some? then {args.fuzzyProperty} else {})
  }
}
