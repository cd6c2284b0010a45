# Benchmark log parser (Baseline v2.3), modelled in Dafny

`parse_benchmark_results.py` reads the simulation logs of a MIPS ALU
benchmark. Each command-line argument names a log file
`<variant>_<benchmark>_<optimization>.<ext>`. For each one, the script
does three things:

1. It creates the row `data[variant][benchmark][optimization]` of a nested
   dictionary.
2. It runs one of two parsing functions over the file's lines:
   - `parseResults` for the `full` testbench;
   - `parseFastResults` for every other variant.
3. It prints the pair the parsing function returns, `(numTests, totalTime)`.

A parsing function keeps a line only when all three of these hold:

- its second word is the testbench's marker;
- its last word reads as a base-16 test index;
- an elapsed time can be read from a fixed word.

It then stores `data[key][benchmark][optimization][index] = time`, where
`key` is `full` or `fast`.

The model is a set of pure functions. A caught exception (`except: continue`)
becomes one of the rejection reasons of `LineClassifier.LineOutcome`. An
uncaught one ends the run as the `Err` side of a `Result`:

- an `IndexError` on a file name with fewer than two `_` becomes
  `MalformedName`;
- a `KeyError` on a `fast` row that was never created becomes `MissingPath`.

Modules, in dependency order:

| module | file | content |
|---|---|---|
| `Options` | options.dfy | `Option` and `Result` |
| `Text` | text.dfy | `line.split()` as `Words`; `name.split(sep)` as `SplitOn`, with its inverse `JoinWith` |
| `Numerals` | numerals.dfy | `int(s, 16)`, `int(s)` and `float(s)` on stated subsets; the two integer readers each have a formatter as partner, and `float(s)` is specified by the value it reads from `[sign]a.b` and from integer text |
| `Aggregate` | aggregate.dfy | the nested table, `EnsurePath` (the three `if not ... in` statements) and `Write` (one assignment) |
| `Naming` | naming.dfy | the file-name descriptor |
| `LineClassifier` | line_classifier.dfy | the fate of one line under each parsing function |
| `LogParser` | log_parser.dfy | the loop over a file's lines, and reference definitions "the last line that ..." it is proved against |
| `Driver` | driver.dfy | dispatch, one argument, and the whole run |

The loop over lines is a fold. It handles the last line after all the
earlier ones, so lines are still processed in file order. The fold carries
three things: the table, `testnumber` and `nanoseconds`.

`LogParser.Summarizes` states what the loop computes, using only the fate
of each line:

- It fails exactly when some line is accepted and the row it writes is
  missing.
- `testnumber` is the index of the last line whose index was read, whether
  or not its time could be read.
- `nanoseconds` is the time of the last accepted line.
- Only the parsed row changes. Each entry in it is the time of the last
  accepted line with that index.

Two sample lines, as the code reads them:

- `x testbench.DUT.MIPS_CORE.ALU yN2.5 0x64` sets `testnumber` to 100 and
  stores nothing: `words[2][1:]` is `N2.5` and `words[3]` is `0x64`, and
  `float` rejects both (`LineClassifier.FullSampleSkipped`). With `y2.5` in
  the third word, the line stores 2.5 under index 100
  (`LineClassifier.FullSampleAccepted`).
- `x fast_testbench.MIPS_CORE.ALU y 120ns 0x10` sets `testnumber` to 16 and
  stores nothing: `words[3][:-1]` is `120n`, which `int` rejects. With
  `120s`, it stores 120 under index 16 (`LineClassifier.FastSamples`).

## Model

| member | source | states |
|---|---|---|
| `Text.Words` | Baseline_v2.3/results/parse_benchmark_results.py:15 | every word `line.split()` returns is non-empty and free of whitespace |
| `Text.WordsJoin` | Baseline_v2.3/results/parse_benchmark_results.py:44 | words joined with single spaces split back into exactly the same words |
| `Text.SplitOn` | Baseline_v2.3/results/parse_benchmark_results.py:68 | `name.split(sep)` yields at least one piece, no piece contains `sep`, and joining the pieces with `sep` gives back the name |
| `Text.SplitOnJoin` | Baseline_v2.3/results/parse_benchmark_results.py:70 | pieces without `sep`, joined with `sep`, split back into the same pieces |
| `Text.SplitOnCount` | Baseline_v2.3/results/parse_benchmark_results.py:72 | a string splits into one more piece than it has occurrences of `sep` |
| `Numerals.ParseHex` | Baseline_v2.3/results/parse_benchmark_results.py:21 | `int(s, 16)`; the set it accepts is stated by `Numerals.ParseHexAccepts`, and the value of zero-padded text with digits in either case, bare or behind either prefix, by `Numerals.PaddedHexRoundTrip` |
| `Numerals.ParseHexAccepts` | Baseline_v2.3/results/parse_benchmark_results.py:21 | `int(s, 16)` succeeds exactly on hex digit strings, bare or behind `0x`/`0X` |
| `Numerals.HexRoundTrip` | Baseline_v2.3/results/parse_benchmark_results.py:50 | the hex text of any `n`, bare or with either prefix, reads back as `n` |
| `Numerals.ValueOfDigits` | Baseline_v2.3/results/parse_benchmark_results.py:50 | reading the digits of `n` in base 10 or 16 gives `n` |
| `Numerals.LeadingZeros` | Baseline_v2.3/results/parse_benchmark_results.py:50 | leading `0` characters do not change the value of a digit string, in base 10 or 16 |
| `Numerals.SameDigitValues` | Baseline_v2.3/results/parse_benchmark_results.py:50 | digit strings whose digits have the same values, such as `ff` and `FF`, have the same value |
| `Numerals.PaddedHexRoundTrip` | Baseline_v2.3/results/parse_benchmark_results.py:50 | any run of zeros followed by the digits of `n` in any mix of cases, bare or behind `0x`/`0X`, reads back as `n` |
| `Numerals.PaddedHexSample` | Baseline_v2.3/results/parse_benchmark_results.py:21 | `0x00000064` reads as 100 |
| `Numerals.UpperHexSample` | Baseline_v2.3/results/parse_benchmark_results.py:21 | `0XFF` reads as 255 |
| `Numerals.ParseInt` | Baseline_v2.3/results/parse_benchmark_results.py:53 | `int(s)`; the set it accepts and its sign are stated by `Numerals.ParseIntAccepts`, and the value of zero-padded text, bare or behind `+` or `-`, by `Numerals.PaddedIntRoundTrip` |
| `Numerals.ParseIntAccepts` | Baseline_v2.3/results/parse_benchmark_results.py:53 | `int(s)` succeeds exactly on digit strings with at most one leading sign, and only `-` gives a negative value |
| `Numerals.IntRoundTrip` | Baseline_v2.3/results/parse_benchmark_results.py:53 | the decimal text of any integer reads back as that integer |
| `Numerals.PaddedIntRoundTrip` | Baseline_v2.3/results/parse_benchmark_results.py:53 | any run of zeros followed by the digits of `n` reads back as `n`, after `+` as `n` and after `-` as `-n` |
| `Numerals.SignedIntSamples` | Baseline_v2.3/results/parse_benchmark_results.py:53 | `+12` reads as 12 and `0120` as 120 |
| `Numerals.ParseFloat` | Baseline_v2.3/results/parse_benchmark_results.py:24-26 | `float(s)`; specified by `Numerals.ParseFloatAlphabet`, `Numerals.FloatOfFraction`, `Numerals.SignedFloatOfFraction` and `Numerals.FloatOfInt` |
| `Numerals.ParseFloatAlphabet` | Baseline_v2.3/results/parse_benchmark_results.py:24 | text `float` accepts holds only digits, `.` and a sign, and without `-` its value is not negative |
| `Numerals.FloatOfFraction` | Baseline_v2.3/results/parse_benchmark_results.py:24-26 | `a.b` reads as `a` plus `b` over ten to the length of `b` |
| `Numerals.SignedFloatOfFraction` | Baseline_v2.3/results/parse_benchmark_results.py:24-26 | `-a.b` reads as minus the value of `a.b`, and `+a.b` as that value |
| `Numerals.FloatOfInt` | Baseline_v2.3/results/parse_benchmark_results.py:26 | on integer text `float` and `int` agree |
| `Aggregate.EnsurePath` | Baseline_v2.3/results/parse_benchmark_results.py:75-82 | afterwards the row exists, exactly one row may be new, no entry changes, and an existing row leaves the table unchanged |
| `Aggregate.Write` | Baseline_v2.3/results/parse_benchmark_results.py:32 | the assignment succeeds exactly when the row exists (else `KeyError` on that path), sets exactly that entry (last write wins), changes no other entry and creates no row |
| `Naming.Describe` | Baseline_v2.3/results/parse_benchmark_results.py:68-72 | the three `file.split("_")` reads; when a descriptor exists and what it is are stated by `Naming.DescribeAccepts` and `Naming.Composed` |
| `Naming.DescribeAccepts` | Baseline_v2.3/results/parse_benchmark_results.py:68-72 | a descriptor exists exactly when the name has at least two `_`; its parts have no `_`, the optimization has no `.`, and `variant_benchmark_optimization` is a prefix of the name |
| `Naming.Composed` | Baseline_v2.3/results/parse_benchmark_results.py:68-72 | a name built as `v_b_o` followed by nothing, an extension or more `_`-segments yields exactly `(v, b, o)` |
| `Naming.ExampleName` | Baseline_v2.3/results/parse_benchmark_results.py:72 | `full_adder_O2.log` yields `("full", "adder", "O2")` |
| `Naming.ExampleShortName` | Baseline_v2.3/results/parse_benchmark_results.py:72 | `full_adder.log` has no descriptor (the script's `IndexError`) |
| `LineClassifier.ReadTime` | Baseline_v2.3/results/parse_benchmark_results.py:24-27 | the time field of either parsing function; the full parser's fallback is stated by `LineClassifier.FullTimeFallback` and the fast parser's field (lines 53-54) by `LineClassifier.FastTimeField` |
| `LineClassifier.Classify` | Baseline_v2.3/results/parse_benchmark_results.py:15-27 | a line is unmarked exactly when it lacks two words or the marker; its index fails exactly when the last word is not base 16; otherwise the index is the last word in base 16, and the time is read exactly when the time field parses |
| `LineClassifier.MarkersAreNotHex` | Baseline_v2.3/results/parse_benchmark_results.py:18-21 | neither the full marker of line 18 nor the fast marker of line 47 reads as base 16, so the index read after the marker check never takes the marker for an index |
| `LineClassifier.TwoWordsNeverIndexed` | Baseline_v2.3/results/parse_benchmark_results.py:17-22 | a line of exactly two words is never indexed |
| `LineClassifier.FullTimeFallback` | Baseline_v2.3/results/parse_benchmark_results.py:24-27 | the full parser takes `words[2][1:]` when it parses, `words[3]` only when that fails, and rejects the time only when both fail |
| `LineClassifier.FastTimeField` | Baseline_v2.3/results/parse_benchmark_results.py:53-54 | the fast parser reads only `words[3][:-1]` as an integer, and lines of fewer than four words get no time |
| `LineClassifier.FastTimeOneCharUnit` | Baseline_v2.3/results/parse_benchmark_results.py:53 | an integer followed by one unit character reads back as that integer |
| `LineClassifier.FastTimeTwoCharUnit` | Baseline_v2.3/results/parse_benchmark_results.py:54 | an integer followed by a two-character unit such as `ns` is rejected |
| `LineClassifier.IndexWord` | Baseline_v2.3/results/parse_benchmark_results.py:50 | the printed `0x...` index is a word that reads back as the index |
| `LineClassifier.FastLineRoundTrip` | Baseline_v2.3/results/parse_benchmark_results.py:44-54 | a printed fast line with a one-character unit reads back as its index and time |
| `LineClassifier.FastLineTwoCharUnit` | Baseline_v2.3/results/parse_benchmark_results.py:50-54 | a printed fast line with a two-character unit sets the index and stores nothing |
| `LineClassifier.FullLineRoundTrip` | Baseline_v2.3/results/parse_benchmark_results.py:15-25 | a printed full line with time `a.b` after one leading character reads back as its index and the time `a.b` |
| `LineClassifier.HexSample` | Baseline_v2.3/results/parse_benchmark_results.py:21 | `0x64` reads as 100 |
| `LineClassifier.FullSampleSkipped` | Baseline_v2.3/results/parse_benchmark_results.py:24-27 | `x testbench.DUT.MIPS_CORE.ALU yN2.5 0x64` sets index 100 and reads no time |
| `LineClassifier.FullSampleAccepted` | Baseline_v2.3/results/parse_benchmark_results.py:24-25 | `x testbench.DUT.MIPS_CORE.ALU y2.5 0x64` gives index 100 and time 2.5 |
| `LineClassifier.FastSamples` | Baseline_v2.3/results/parse_benchmark_results.py:50-54 | with the index `0x10`, `120ns` sets index 16 and reads no time, while `120s` gives time 120 |
| `LogParser.Step` | Baseline_v2.3/results/parse_benchmark_results.py:15-32 | one iteration of the loop body; a skipped line changing nothing is `LogParser.SkippedLineIgnored`, and its effect on the summary is part of `LogParser.ParseLinesSummarizes` |
| `LogParser.ParseLines` | Baseline_v2.3/results/parse_benchmark_results.py:13-34 | the loop of `parseResults` and `parseFastResults`; specified against the reference `Latest` by `LogParser.ParseLinesSummarizes` |
| `LogParser.ParseFile` | Baseline_v2.3/results/parse_benchmark_results.py:7-34 | a whole parsing function with its initial `testnumber` and `nanoseconds`; specified by `LogParser.ParseLinesSummarizes` and `LogParser.ParseFileDefaults` |
| `LogParser.LatestIsLast` | Baseline_v2.3/results/parse_benchmark_results.py:34 | the reference "last value" is `y` exactly when some line gives `y` and no later line gives anything |
| `LogParser.LatestIsNone` | Baseline_v2.3/results/parse_benchmark_results.py:58 | the reference "last value" is absent exactly when no line gives a value |
| `LogParser.ParseLinesSummarizes` | Baseline_v2.3/results/parse_benchmark_results.py:13-34 | the loop fails exactly when a line is accepted and its row is missing; otherwise it returns the last index read and the last time stored, changes only the parsed row, and leaves in each entry the time of the last accepted line with that index |
| `LogParser.SkippedLineIgnored` | Baseline_v2.3/results/parse_benchmark_results.py:46-51 | a line without the marker, or with an index that is not base 16, changes neither the table nor the returned pair |
| `LogParser.ParseFileDefaults` | Baseline_v2.3/results/parse_benchmark_results.py:9-10 | when no line gets as far as its index, the table is unchanged and the result is `(0, 0.0)` (full) or `(0, 0)` (fast) |
| `LogParser.IndexWithoutTime` | Baseline_v2.3/results/parse_benchmark_results.py:50-58 | after an accepted line and then a line whose time fails, the returned index comes from the second line and the time from the first |
| `LogParser.MixedFastLog` | Baseline_v2.3/results/parse_benchmark_results.py:50-56 | fast lines for test `0x32` in `50s` and test `0x35` in `53ns` return `(53, 50)` and store only test 50 |
| `Driver.Dispatch` | Baseline_v2.3/results/parse_benchmark_results.py:84 | the choice of parsing function; specified by `Driver.DispatchKey` and `Driver.DispatchFast` |
| `Driver.ProcessFile` | Baseline_v2.3/results/parse_benchmark_results.py:67-84 | one argument of the main loop; its failures are stated by `Driver.ProcessFileFails` and its effect by `Driver.ProcessFileEffect` |
| `Driver.Run` | Baseline_v2.3/results/parse_benchmark_results.py:62-87 | the main loop over the arguments; specified by `Driver.RunRows`, `Driver.RunFailureIsFinal`, `Driver.RunConventional`, `Driver.RunFailureCause` and `Driver.RunRowsFit` |
| `Driver.DispatchKey` | Baseline_v2.3/results/parse_benchmark_results.py:84 | the parsing function writes under the variant's own key exactly for `full` and `fast` |
| `Driver.DispatchFast` | Baseline_v2.3/results/parse_benchmark_results.py:56 | every variant other than `full` is parsed as a fast log and writes under `fast` |
| `Driver.ProcessFileFails` | Baseline_v2.3/results/parse_benchmark_results.py:68-84 | one argument fails on a name with fewer than two `_`, or when its variant is neither `full` nor `fast`, no `fast` row exists for it, and some line is accepted |
| `Driver.ProcessFileEffect` | Baseline_v2.3/results/parse_benchmark_results.py:75-84 | a successful argument adds only its own row, returns the last index and time read, and changes only the parsed row, keeping what earlier files with the same descriptor stored |
| `Driver.UnknownVariantFails` | Baseline_v2.3/results/parse_benchmark_results.py:78-84 | `foo_adder_O2.log` with an accepted fast line fails with a `KeyError` on `data['fast']['adder']['O2']` |
| `Driver.RunFailureIsFinal` | Baseline_v2.3/results/parse_benchmark_results.py:65 | once an argument has failed, later arguments change nothing |
| `Driver.RunRows` | Baseline_v2.3/results/parse_benchmark_results.py:65-87 | a successful run reports once per argument, report `k` being the pair `(numTests, totalTime)` the parsing function returned for argument `k` on the table the earlier arguments left, and its rows are exactly those the arguments' names describe |
| `Driver.RunConventional` | Baseline_v2.3/results/parse_benchmark_results.py:65-84 | conventional names with variants `full` and `fast` never fail, whatever the logs contain |
| `Driver.RunFailureCause` | Baseline_v2.3/results/parse_benchmark_results.py:68-84 | a failed run names a malformed argument, or a `fast` row that an argument with another variant needed and no earlier argument created |
| `Driver.RunRowsFit` | Baseline_v2.3/results/parse_benchmark_results.py:56 | `full` rows hold only floats, `fast` rows only integers, and rows of any other variant stay empty |

## Left out

- File I/O: opening and reading files, and `sys.argv`. Each argument is an
  `InputFile` of a name and its lines. An error on opening a missing file is
  not modelled.
- The progress and result `print`s (lines 67-73 and 86-87): they are output
  only. The pairs they print are kept as `RunState.reports`.
- The chart (lines 89-108), which calls the matplotlib plotting library.
- `int(s, 16)` is modelled on the subset of an optional `0x`/`0X` prefix
  followed by hex digits. Python also accepts a sign, `_` digit separators,
  surrounding whitespace and non-ASCII digits; those are out of scope.
- `int(s)` is modelled on the subset of an optional sign followed by ASCII
  digits. `_` separators and non-ASCII digits are out of scope.
- `float(s)` is modelled on an optional sign followed by `ddd`, `ddd.`,
  `.ddd` or `ddd.ddd` in ASCII digits, read as an exact `real`. Python also
  accepts exponents, `inf`, `nan`, `_` separators and non-ASCII decimal
  digits, and rounds to IEEE double. These are out of scope.
- The surrounding-whitespace leniency of `int` and `float` never applies,
  because `line.split()` returns words without whitespace.
- `line.split()` is modelled with Python's full set of whitespace
  characters. Encoding and newline handling of the file are not modelled.
  Each element of `lines` is one line's text.
- A file name is split as given, so a directory part containing `_` changes
  the descriptor exactly as it does in the script.
- Numerals.ParseFloat: the exact set of text it accepts is not stated as
  one property. Its value is stated for every accepted form: `a.b`, `+a.b`,
  `-a.b` and integer text.
- Numerals.ParseFloatAlphabet: states only which characters accepted text
  can hold and the sign of the value. It does not give an exact description
  of the accepted text. `Numerals.FloatOfFraction`,
  `Numerals.SignedFloatOfFraction` and `Numerals.FloatOfInt` give the values
  of the forms `a.b`, `+a.b`, `-a.b` and signed or unsigned integers.
- The order of `data`: Python dictionaries iterate in insertion order, and
  an overwritten test index keeps its first position. `Aggregate.Table` is
  a Dafny `map`, which has no order. Only the chart (lines 89-108) reads
  that order, and the chart is not modelled.
