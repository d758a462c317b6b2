/** The whole run of the launcher as one function from the command line, the available
    stores and the environment to the lines that would be shown, or the fatal error. */
module Launcher {
  import opened Wrappers
  import opened Seqs
  import opened GeoStore
  import opened Layout
  import opened Pipeline
  import Render

  /** What the launcher takes from its surroundings: the host's number recognition and
      parsing, the score format (`'%.3f'`), and the terminal size probe (None when it fails). */
  datatype Host = Host(
    isNumeric: string -> bool,
    parse: string -> real,
    formatScore: real -> string,
    termSize: Option<nat>)

  /** The two outputs: the coloured table, or the `^`-separated lines of quiet mode. */
  datatype Rendering = Table(screen: Render.Screen) | Quiet(lines: seq<string>)

  /** A successful run: the keys warned about as unknown, the results shown, and how. */
  datatype Output = Output(warnings: seq<Key>, rows: seq<ScoredKey>, rendering: Rendering)

  /** The fields named by `--omit`, as the set `main` builds from them. */
  function Omitted(omit: seq<Field>): (s: set<Field>)
    ensures forall f :: f in s <==> f in omit
  {
    set f | f in omit
  }

  /** `main` after argument parsing: pick the store, validate, chain the stages, cut to the
      limit, drop unknown keys, then render quietly or as a table. */
  function Run(bases: map<string, Store>, args: Args, stdin: Option<seq<string>>, host: Host): (r: Result<Output, Error>)
    ensures args.base !in bases ==> r == Err(UnknownBase(args.base, bases.Keys))
    ensures args.base in bases && Validate(bases[args.base], args).Some? ==>
              r == Err(Validate(bases[args.base], args).value)
    ensures args.base in bases && Validate(bases[args.base], args).None? ==>
              (r.Ok? <==> PlanStages(bases[args.base], args, host.isNumeric, host.parse).Ok?)
    ensures args.base in bases && Validate(bases[args.base], args).None?
            && PlanStages(bases[args.base], args, host.isNumeric, host.parse).Err? ==>
              r == Err(PlanStages(bases[args.base], args, host.isNumeric, host.parse).error)
    ensures r.Ok? ==> args.base in bases && Validate(bases[args.base], args).None?
    ensures r.Ok? ==>
              var store := bases[args.base];
              var cut := Truncate(Results(store, args, stdin, host.isNumeric, host.parse).value,
                                  EffectiveLimit(args.limit, args.quiet));
              && r.value.rows == Filter(cut, KeyIn(store.keys))
              && r.value.warnings == KeysOf(Filter(cut, KeyOut(store.keys)))
    ensures r.Ok? && args.quiet ==>
              r.value.rendering == Quiet(Render.DisplayQuiet(bases[args.base], host.formatScore, r.value.rows,
                                                             Omitted(args.omit), args.show))
    ensures r.Ok? && !args.quiet ==>
              r.value.rendering == Table(Render.Display(bases[args.base], host.formatScore, r.value.rows,
                                                        Omitted(args.omit), args.show, Important(args),
                                                        TermWidth(host.termSize)))
    ensures r.Ok? ==> forall i :: 0 <= i < |r.value.rows| ==> r.value.rows[i].key in bases[args.base].keys
    ensures r.Ok? ==> forall i :: 0 <= i < |r.value.warnings| ==> r.value.warnings[i] !in bases[args.base].keys
    ensures r.Ok? ==> (r.value.rendering.Quiet? <==> args.quiet)
    ensures r.Ok? && args.limit.None? && !args.quiet ==> |r.value.rows| <= DefaultInteractiveLimit
    ensures r.Ok? && args.limit.Some? && args.limit.value >= 0 ==> |r.value.rows| <= args.limit.value
    ensures r.Ok? && r.value.rendering.Quiet? ==> |r.value.rendering.lines| == |r.value.rows|
    ensures r.Ok? && r.value.rendering.Table? ==> (r.value.rendering.screen.NoElements? <==> |r.value.rows| == 0)
  {
    if args.base !in bases then Err(UnknownBase(args.base, bases.Keys))
    else
      var store := bases[args.base];
      match Validate(store, args)
      case Some(e) => Err(e)
      case None =>
        match Results(store, args, stdin, host.isNumeric, host.parse)
        case Err(e) => Err(e)
        case Ok(res) =>
          var sel := Select(store, res, EffectiveLimit(args.limit, args.quiet));
          var rendering :=
            if args.quiet then
              FilterAll(sel.kept, KeyIn(store.keys));
              Quiet(Render.DisplayQuiet(store, host.formatScore, sel.kept, Omitted(args.omit), args.show))
            else
              Table(Render.Display(store, host.formatScore, sel.kept, Omitted(args.omit), args.show, Important(args),
                                   TermWidth(host.termSize)));
          Ok(Output(sel.warned, sel.kept, rendering))
  }

  /** With command-line keys and no stage, the results are those keys numbered from zero. */
  lemma KeysNumbered(store: Store, args: Args, host: Host, a: Key, b: Key)
    requires args.keys == [a, b]
    requires args.trep.None? && args.exact.None? && args.near.None? && args.closest.None? && args.fuzzy.None?
    ensures Results(store, args, None, host.isNumeric, host.parse) == Ok([ScoredKey(0.0, a), ScoredKey(1.0, b)])
  {
    NoStageEnumerates(store, args, None, host.isNumeric, host.parse);
    assert InitialKeys(store, args, None) == [a, b];
    var res := Results(store, args, None, host.isNumeric, host.parse).value;
    assert KeysOf(res) == [a, b];
    assert res[0].key == a && res[1].key == b;
    assert res[0].score == 0.0 && res[1].score == 1.0;
    assert res == [res[0], res[1]];
  }

  /** Quiet lines showing only the field `name`: each line is that field's value alone. */
  lemma NamesOnly(store: Store, fmt: real -> string, a: Key, b: Key)
    requires a in store.keys && b in store.keys
    ensures Render.DisplayQuiet(store, fmt, [ScoredKey(0.0, a), ScoredKey(1.0, b)], {}, ["name"])
            == [store.get(a, "name"), store.get(b, "name")]
  {
    var rows := [ScoredKey(0.0, a), ScoredKey(1.0, b)];
    FilterAll(rows, KeyIn(store.keys));
    assert Render.Displayed(["name"], {}) == ["name"];
    var lines := Render.DisplayQuiet(store, fmt, rows, {}, ["name"]);
    assert lines[0] == Text.Join([store.get(a, "name")], Render.QuietSeparator);
    assert lines[1] == Text.Join([store.get(b, "name")], Render.QuietSeparator);
  }

  /** Quiet mode with `--show name` prints each result's name alone, one per line, with
      neither the score nor the key: `ORY CDG --quiet --show name` gives the two names. */
  lemma QuietShowsOnlyRequested(bases: map<string, Store>, args: Args, host: Host, ory: Key, cdg: Key)
    requires ory == "ORY" && cdg == "CDG"
    requires args == DefaultArgs([ory, cdg]).(quiet := true, show := ["name"])
    requires args.base in bases
    requires ory in bases[args.base].keys && cdg in bases[args.base].keys
    requires "name" in bases[args.base].fields
    ensures var store := bases[args.base];
            Run(bases, args, None, host)
              == Ok(Output([], [ScoredKey(0.0, ory), ScoredKey(1.0, cdg)],
                           Quiet([store.get(ory, "name"), store.get(cdg, "name")])))
  {
    var store := bases[args.base];
    assert Validate(store, args).None? by {
      assert args.show + args.omit == ["name"];
    }
    var rows := [ScoredKey(0.0, ory), ScoredKey(1.0, cdg)];
    KeysNumbered(store, args, host, ory, cdg);
    FilterAll(rows, KeyIn(store.keys));
    var sel := Select(store, rows, EffectiveLimit(args.limit, args.quiet));
    assert sel.kept == rows;
    assert Omitted(args.omit) == {};
    NamesOnly(store, host.formatScore, ory, cdg);
  }
}
