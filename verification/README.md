# GeoBase launcher — a verified model

`GeoBaseMain.py` is the command-line front end of GeoBases. It looks up points of
reference (airports, stations, cities) in a `GeoBase` store. This project models its
decision logic as pure Dafny functions and proves properties of them:

- the rotating colour palette of the table renderer;
- the column width and `fixed_width` truncation and padding;
- which cells, in which styles, `display` would write, and which lines `display_quiet`
  would write;
- how `scan_coords` classifies a `--near` / `--closest` argument;
- `main`'s pipeline:
  - option defaults and the validation checks;
  - the initial key source (stdin, the command line, or the whole store);
  - the fixed chain trep → exact → near → closest → fuzzy, where each stage sees only
    the keys of the previous result;
  - the result limit and the removal of unknown keys;
  - the set of emphasised fields;
- `display_on_two_cols`, used to list choices in error messages.

The store is the datatype `GeoStore.Store`. Its keys and fields are data. Its field
lookup, location lookup and the four searches (`getKeysWhere`, `findNearPoint`,
`findClosestFromPoint`, `fuzzyGet`, plus `trepGet`) are function-valued fields, about
which nothing is assumed. The host is the record `Launcher.Host`. It supplies the
predicate "this string parses as a float", the float parser, the `'%.3f'` score
formatter and the result of the terminal-size probe. Printing becomes returning: the
renderers return cells and lines, and every `error(...)`/`exit(1)` becomes an `Err`
of `Pipeline.Error`.

Modules, in dependency order:

- `Wrappers`: `Option` and `Result`.
- `Seqs`: order-preserving filter, flatten, and Python's `s[:n]`.
- `Text`: Python's `split`, `join`, `strip`, `split()` and `'%-Ns'`.
- `Colors`: the palette and the rotator.
- `GeoStore`: the store and scored keys.
- `Layout`: widths, `fixed_width` and the two-column help.
- `Sorting`: the sort of the near stage.
- `Geocode`: `scan_coords`.
- `Render`: `display` and `display_quiet`.
- `Pipeline`: `main`'s logic.
- `Launcher`: one whole run.

Behaviour worth noting, modelled as the code does it:

- With no stage, and after the exact stage, scores are `enumerate` positions 0, 1, 2, …
  (`GeoStore.Enumerate`).
- The near stage sorts `(distance, key)` pairs, so equal distances are ordered by key
  (`Sorting.Sort`).
- Quiet mode with `--show name` prints the name alone. No score is prefixed
  (`Launcher.QuietShowsOnlyRequested`).
- `--limit -n` drops the last `n` results, as Python's `res[:-n]` does
  (`Seqs.SliceTo`).
- The help text of `--fuzzy-limit` (GeoBaseMain.py:322) says the default is 0.80. The
  default the code sets is 0.85 (`Pipeline.DefaultArgs`).

## Model

| member | source | states |
|---|---|---|
| Colors.Start | GeoBaseMain.py:43-50 | a fresh rotator is valid and shows the first palette entry, cyan |
| Colors.Rotator.Next | GeoBaseMain.py:53-61 | stepping stays in the palette and moves to `(current+1) mod 2`, so 0→1 and 1→0 |
| Colors.Rotator.Get | GeoBaseMain.py:64-81 | the current style is a palette entry, and never the emphasis or the header style |
| Colors.AdvanceCycles | GeoBaseMain.py:53-67 | after `k` steps the index is `(start+k) mod 2` and `get` returns that palette entry |
| Layout.TermWidth | GeoBaseMain.py:28-33 | the probed column count when the probe succeeds, 160 when it fails |
| Layout.ColumnWidth | GeoBaseMain.py:101-103 | the width is `termWidth div (n+1)` clamped to [25, 40], so it always lies in [25, 40] |
| Layout.ColumnWidthMonotone | GeoBaseMain.py:101-103 | a wider terminal or fewer results never gives narrower columns |
| Layout.Truncation | GeoBaseMain.py:105-109 | truncation is off exactly when there is one result, and is the column width otherwise |
| Layout.FixedWidth | GeoBaseMain.py:166-184 | keeps `min(len, truncate or 1000)` leading characters, pads with spaces to `max(lim, kept)`, is exactly `lim` long when `truncate = lim`, and shows an input of at most 1000 characters in full when truncation is off |
| Layout.DisplayOnTwoCols | GeoBaseMain.py:220-229 | `ceil(n/2)` lines: items `2i` and `2i+1` paired, each padded to 15, and an odd last item alone |
| Text.SplitOn | GeoBaseMain.py:195 | `split` yields at least one piece and no piece contains a separator |
| Text.SplitCount | GeoBaseMain.py:195 | splitting on one separator yields one piece more than the separators in the input |
| Text.Join | GeoBaseMain.py:163 | joining separator-free pieces inserts exactly one separator between neighbours |
| Text.JoinSplit | GeoBaseMain.py:163 | splitting a string and joining the pieces gives the string back |
| Text.SplitJoin | GeoBaseMain.py:163 | joining separator-free pieces and splitting again gives the pieces back |
| Text.Strip | GeoBaseMain.py:195 | the result is a contiguous slice `s[a:b]` of the input; everything before `a` and from `b` on is in the strip set, and the slice neither starts nor ends with a member of it |
| Text.StripLeft | GeoBaseMain.py:195 | the result is a suffix of the input, everything dropped is in the strip set, and it does not start with one |
| Text.StripRight | GeoBaseMain.py:195 | the result is a prefix of the input, everything dropped is in the strip set, and it does not end with one |
| Text.Words | GeoBaseMain.py:527 | `split()` yields non-empty tokens without whitespace |
| Text.WordsKeepText | GeoBaseMain.py:527 | the tokens, concatenated, are the input with its whitespace removed |
| Text.SplitConcat | GeoBaseMain.py:195 | a delimiter splits the input into the pieces of its left part followed by the pieces of its right part |
| Text.SplitAvoiding | GeoBaseMain.py:195 | a string without delimiters is a single piece |
| Text.WordsSplitAt | GeoBaseMain.py:527 | a whitespace character separates words: the words of `s c t` are those of `s` followed by those of `t` |
| Text.WordsOfWord | GeoBaseMain.py:527 | a non-empty run without whitespace is exactly one word, and the empty string has none |
| Text.WordsStrip | GeoBaseMain.py:527 | `s.strip().split()` equals `s.split()` |
| Text.LeftJustify | GeoBaseMain.py:176-182 | `'%-Ns'` keeps the string, pads with spaces to `N`, and never cuts |
| Seqs.Filter | GeoBaseMain.py:599 | the comprehension keeps exactly the passing elements, drawn from the input |
| Seqs.FilterAppend | GeoBaseMain.py:599 | filtering distributes over concatenation, so relative order is kept |
| Seqs.FilterAll | GeoBaseMain.py:148-151 | filtering returns its input exactly when every element passes |
| Seqs.SliceTo | GeoBaseMain.py:591-592 | `res[:n]` is a prefix holding `min(n, len)` elements for `n ≥ 0` and `max(0, len+n)` for `n < 0` |
| GeoStore.KeysOf | GeoBaseMain.py:537 | `ex_keys` keeps the key of every pair, in order |
| GeoStore.Enumerate | GeoBaseMain.py:529-534 | `enumerate` keeps the keys in order and scores the `i`-th with `i` |
| GeoStore.MissingKeys | GeoBaseMain.py:594-596 | one warning per pair whose key the store lacks, in stream order: the keys of the absent pairs; with the present pairs they account for the whole list |
| Sorting.Sort | GeoBaseMain.py:563 | `sorted` returns an arrangement of its input ascending by (distance, key) |
| Sorting.InsertSorted | GeoBaseMain.py:563 | inserting into a sorted list keeps it sorted |
| Sorting.SortedUnique | GeoBaseMain.py:563 | two sorted arrangements of the same pairs are equal, so the near result is fully determined |
| Sorting.StrLeqTotal | GeoBaseMain.py:563 | the string order used to break ties is total |
| Sorting.StrLeqTransitive | GeoBaseMain.py:563 | the string order used to break ties is transitive |
| Sorting.StrLeqAntisymmetric | GeoBaseMain.py:563 | the string order used to break ties is antisymmetric |
| Geocode.ScanCoords | GeoBaseMain.py:187-217 | an all-numeric argument is a bad format exactly when it does not hold exactly one comma; a non-numeric one is an unknown key exactly when the store lacks it, and a geocode-unknown error exactly when the key has no location; otherwise it is the key's location |
| Geocode.ScanCoordsPair | GeoBaseMain.py:194-217 | two numbers around one comma, bracketed or not, read as that (lat, lng) pair |
| Geocode.ScanCoordsTriple | GeoBaseMain.py:211-212 | three numbers are a format error |
| Geocode.ThreeNumbersRejected | GeoBaseMain.py:194-212 | `48.85,2.35,1` is a format error when its parts parse |
| Geocode.BracketedPairAccepted | GeoBaseMain.py:194-217 | `(48.8566, 2.3522)` reads as the pair of its two halves |
| Render.EffectiveShow | GeoBaseMain.py:145-146 | an empty field list means the score followed by every store field |
| Render.StylePlanSteps | GeoBaseMain.py:113-133 | the cycle steps exactly once per displayed field, whatever its style; omitted fields do not move it |
| Render.StylePlanCycles | GeoBaseMain.py:113-133 | the `i`-th displayed field is styled header if it is the score, emphasis if it is important, and palette entry `i mod 2` otherwise |
| Render.Display | GeoBaseMain.py:84-135 | no rows gives the "no elements" screen; otherwise one line per displayed field, each with the label cell and one cell per result |
| Render.DisplayCells | GeoBaseMain.py:101-133 | cell `j` of the `i`-th line is `fixed_width` of the field name (`j = 0`) or of the `j`-th result's score or value, at the column width, truncated unless there is one result, in the header style for the score, the emphasis style if important, palette entry `i mod 2` otherwise |
| Render.DisplayWideCells | GeoBaseMain.py:101-133 | with two or more results each cell is exactly the column width: the first `min(len, width)` characters of its text, then spaces |
| Render.DisplaySingleCells | GeoBaseMain.py:101-133 | with one result a text of at most 1000 characters appears in full, padded with spaces to at least the column width |
| Render.QuietFields | GeoBaseMain.py:153-161 | a quiet line's values are exactly the non-omitted fields, in `show` order |
| Render.QuietLines | GeoBaseMain.py:148-163 | one line per pair whose key the store holds, in input order |
| Render.DisplayQuiet | GeoBaseMain.py:138-163 | one `^`-joined line per present result, with the defaulted field list |
| Render.QuietLineSplits | GeoBaseMain.py:163 | a quiet line splits on `^` back into its values when no value contains `^` |
| Pipeline.DefaultArgs | GeoBaseMain.py:299-420 | base `ori_por`, fuzzy property `name` with limit 0.85, exact property `__id__`, near radius 50, closest count 10, trep format `S`, grid on, no stage, no limit, no fields shown or omitted, not quiet |
| Pipeline.EffectiveLimit | GeoBaseMain.py:445-453 | an explicit limit always applies; otherwise the limit is 4 when interactive and absent when quiet |
| Pipeline.FirstUnknown | GeoBaseMain.py:502-505 | none exactly when every field is valid; otherwise the first invalid field |
| Pipeline.Validate | GeoBaseMain.py:479-505 | the run passes exactly when all five checks pass; the first failing check, in the order trep support, geocode support, exact property, fuzzy property, fields, decides the error; a field error names the first invalid field and lists `__ref__` plus the store fields |
| Pipeline.StdinKeys | GeoBaseMain.py:524-527 | keys read from stdin are non-empty and contain no whitespace |
| Pipeline.InitialKeys | GeoBaseMain.py:522-534 | the key source in priority order: the words of the piped input when stdin is not a terminal, else the command-line keys when there are any, else every key of the store |
| Pipeline.StdinKeysAreWords | GeoBaseMain.py:524-527 | the piped keys are the words of the whole input, lines joined by newlines, in order |
| Pipeline.ApplyStage | GeoBaseMain.py:541-580 | the exact stage returns the matching keys numbered from 0; the near stage returns the store's answer sorted by (distance, key); trep, closest and fuzzy pass the store's answer on unchanged |
| Pipeline.ComposeSnoc | GeoBaseMain.py:537-580 | each stage of the chain receives exactly the keys of the chain so far |
| Pipeline.ResolveGeocode | GeoBaseMain.py:187-217 | coordinates resolve to themselves; a missing key, a key without location and a bad format give the unknown-key, geocode-unknown and geocode-format errors respectively |
| Pipeline.Somes | GeoBaseMain.py:541-580 | the enabled stages are exactly the filled slots, kept in chain order |
| Pipeline.KindPresent | GeoBaseMain.py:541-580 | a stage kind is in the chain exactly when its slot is filled |
| Pipeline.PlanStages | GeoBaseMain.py:541-580 | planning succeeds exactly when every given geocode resolves; a near error wins over a closest error; the planned stages are strictly in the order trep, exact, near, closest, fuzzy |
| Pipeline.RankedUnique | GeoBaseMain.py:541-580 | two chains in chain order holding the same stages are the same chain, so a plan is fixed by its stages |
| Pipeline.PlanParams | GeoBaseMain.py:541-580 | a successful plan holds exactly the requested stages, each with the values passed to the store: the space-joined trep query and `trep_format`; the exact property and value; the resolved near point, `near_limit` and the grid flag; the resolved closest point, `closest_limit` as N and the grid flag; the fuzzy query and property, with `fuzzy_limit` as `min_match` |
| Pipeline.PlanClosestFuzzy | GeoBaseMain.py:566-580 | closest and fuzzy requested: the plan is the closest search for `closest_limit` points with the grid flag, then the fuzzy match at `fuzzy_limit` |
| Pipeline.PlanKinds | GeoBaseMain.py:541-580 | a stage of each kind is in the chain exactly when its option was given |
| Pipeline.NoStageEnumerates | GeoBaseMain.py:524-534 | with no stage requested the results are the initial keys, the `i`-th scored `i` |
| Pipeline.PipedInputWins | GeoBaseMain.py:522-532 | with piped input the results do not depend on the command-line keys |
| Pipeline.AllKeysWhenNoneGiven | GeoBaseMain.py:522-534 | no piped input, no keys and no stage: the results are every key of the store, numbered from zero |
| Pipeline.CommandLineKeysWin | GeoBaseMain.py:522-534 | no piped input, keys given and no stage: the results are those keys, numbered from zero |
| Pipeline.Results | GeoBaseMain.py:524-580 | the chain fails exactly when planning fails, with the planning error |
| Pipeline.ExactBeforeNear | GeoBaseMain.py:549-563 | exact and near together: the radius search sees only the exact matches, and its answer is sorted |
| Pipeline.PlanExactNear | GeoBaseMain.py:549-563 | exact and near requested: the plan is those two stages, exact first |
| Pipeline.Select | GeoBaseMain.py:589-599 | the rendered list is exactly the store-present pairs of `res[:limit]`, in order; the warned keys are exactly the keys of its absent pairs, in order; no more than `limit` survive |
| Pipeline.Important | GeoBaseMain.py:603-609 | `__id__`, plus the exact and fuzzy properties when those searches are on, and nothing else |
| Launcher.Omitted | GeoBaseMain.py:613 | `set(args['omit'])` holds exactly the omitted fields |
| Launcher.Run | GeoBaseMain.py:438-618 | an unknown base or a failed check is that error; after validation the run succeeds exactly when planning does, and fails with the planning error otherwise; a successful run shows exactly the store-present pairs of the limited results, warns about exactly the absent ones, and renders them with `display_quiet` when quiet and `display` otherwise; hence at most 4 rows when interactive without a limit, at most the limit when one is set, one quiet line per row, and the "no elements" screen exactly when nothing is left |
| Launcher.KeysNumbered | GeoBaseMain.py:531-532 | command-line keys with no stage come out numbered 0, 1 |
| Launcher.NamesOnly | GeoBaseMain.py:145-163 | quiet lines with `show = [name]` are the bare names |
| Launcher.QuietShowsOnlyRequested | GeoBaseMain.py:612-618 | `ORY CDG --quiet --show name` prints the two names and nothing else |

## Left out

- `getTermSize` (GeoBaseMain.py:23-33) runs `stty` through `os.popen`. Its result is the
  `termSize` parameter. A failed probe gives the 160-column fallback.
- `termcolor.colored` and `colorama.init` are foreign libraries. A style is the plain
  triple `Colors.Style`, and a cell carries its style instead of escape codes.
- Writes to stdout and stderr, `print`, `exit`, the "Loading", "Applying", "Geocode
  recognized" and "Done in" messages, and `datetime` timing are I/O. The renderers
  return cells and lines, and errors are `Pipeline.Error` values.
- `argparse` (GeoBaseMain.py:290-434) is modelled by the record `Pipeline.Args`. Typing
  `--limit` as `int` is not modelled; `limit` is already an integer.
- Reading stdin and `isatty` are I/O. `stdin` is `Some(lines)` when input is piped, and
  only the tokenisation of those lines is modelled.
- The store's internals are not modelled: distances, the grid index, Levenshtein
  matching, opentrep, `getKeysWhere` and `getLocation`. They are function-valued fields
  of `GeoStore.Store`, and the model assumes nothing about their results.
- `GeoStore.Store`: `get` is total, so a `KeyError` from the store is not modelled.
  Only keys that pass `k in g` reach it anyway.
- `GeoBase.update()` and `--update` (GeoBaseMain.py:463-466) write to disk.
- Float parsing, `'%.3f'` formatting and NaN are host behaviour. They are the
  `isNumeric`, `parse` and `formatScore` parameters.
- Layout.ColumnWidth: uses integer division where the code uses
  `int(width / float(n+1))`. The two agree for non-negative operands up to
  floating-point rounding.
- Pipeline.PlanStages: resolves both geocode arguments, near first, before any stage
  runs. The code resolves each one just before its stage. The stages are pure and an
  error ends the run, so the outcome is the same; only the omitted verbose messages
  would differ.
- The `verbose` flag of `GeoBase` loading (`-v`) only affects messages, so it has no
  effect here.
- `Text.Words` splits on the ASCII whitespace that Python 2's `str.split()` uses on
  byte strings. Other Unicode spaces are not modelled.
