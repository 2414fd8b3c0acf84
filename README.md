# frankenphp-benchmarks: a verified model of the report generators

The repository benchmarks PHP servers (nginx with PHP-FPM, FrankenPHP and a
FrankenPHP variant) and turns the raw results into HTML pages. Three
Python scripts hold the logic that is modelled here:

- `wrk/generate-dashboard.py` reads one JSON file per `wrk` run. It parses
  metric strings such as `"850us"` or `"2.05ms"` into milliseconds and
  groups the runs by script and server. It then writes a table with one row
  per script: best and worst marks per metric, and each metric's change
  against nginx.
- `vegeta/generate-all.py` reads one `vegeta` report per `<test>-<server>.bin`
  file. It writes a comparison table with one section per test and one
  column per server. The first server with data for a test is its
  baseline, and every other value carries its change against it.
- `generate-dashboard.py` reads the `vegeta` files named on the command line.
  It keys them by file stem and downsamples each file's records. The page's
  chart script estimates throughput over time from 100 ms windows of those
  samples.

The model is written in Dafny, one module per concern:

| file | module | scope |
|---|---|---|
| numeric.dfy | `Numeric` | `Num` (a real or NaN), `Option`, decimal digit values |
| text.dfy | `Text` | `str.strip`, `str.split`/`join`, `PurePosixPath.name`/`.stem` |
| ordering.dfy | `Ordering` | Python's string order, `sorted()` of a set |
| nesting.dfy | `Nesting` | a two-level dict filled entry by entry |
| ordered_dict.dfy | `OrderedDict` | a dict that keeps insertion order |
| unit_parse.dfy | `UnitParse` | `parse_number` |
| wrk_compare.dfy | `WrkCompare` | `delta_percent`, `color_for_delta`, `fmt_delta`, `fmt_val`, `best_worst_classes` |
| wrk_results.dfy | `WrkResults` | `load_results` and the rows of `generate_html` |
| vegeta_metrics.dfy | `VegetaMetrics` | the field mapping of `get_metrics` (both vegeta scripts) |
| vegeta_table.dfy | `VegetaTable` | `main` of `vegeta/generate-all.py` |
| sampling.dfy | `Sampling` | the sampling stride and the awk record filter |
| throughput.dfy | `Throughput` | the chart script's series |
| dashboard.dfy | `Dashboard` | `get_metrics` and `main` of `generate-dashboard.py` |

Modelling choices:

- Numbers are exact reals, with NaN as its own constructor.
- I/O becomes parameters:
  - whether a directory exists;
  - the list of files;
  - a file's parsed JSON;
  - a function from path to `vegeta report`;
  - a function from path to `vegeta encode`.
- Where a script dies (`sys.exit(1)`, an uncaught `ZeroDivisionError`, a
  TypeError in the chart script), the model returns a constructor of its
  outcome type naming what happened.
- Loops in the source are `while` loops in methods. Each method is proved
  equal to a specification function, and the properties are proved about
  that function.

## Model

| member | source | states |
|---|---|---|
| UnitParse.ParseNumberAsWritten | wrk/generate-dashboard.py:12-39 | `parse_number` as written: a JSON number as itself, a bool as 0 or 1, any other non-string value as NaN; `UnitParse.AsWrittenAgrees` ties it to the corrected reader |
| UnitParse.ParseNumber | wrk/generate-dashboard.py:16-29 | a JSON number is returned as itself, a bool as 0 or 1 (a Python bool is an int), any other value that is neither a number nor a string as NaN |
| UnitParse.PlainNumber | wrk/generate-dashboard.py:18-21 | a decimal surrounded by whitespace is returned as its value, with no unit conversion, both as written and corrected |
| UnitParse.NegativePlainNumber | wrk/generate-dashboard.py:20-21 | `float()` keeps a leading minus sign |
| UnitParse.UnitSuffix | wrk/generate-dashboard.py:25-38 | `<number><spaces><unit>` is that number in milliseconds: us/µs divide by 1000, ms is unchanged, s multiplies by 1000 |
| UnitParse.ReadTimed | wrk/generate-dashboard.py:20-31 | a number, whitespace and a unit is read by the unit branch, as that number with that unit |
| UnitParse.UnitMatchOf | wrk/generate-dashboard.py:25 | the full match of number, whitespace and unit captures exactly that number and unit |
| UnitParse.TimedShape | wrk/generate-dashboard.py:18-23 | a text ending in a unit is already stripped and is not a float |
| UnitParse.OneMillisecond | wrk/generate-dashboard.py:25-38 | "1000us", "1ms" and "0.001s" all give 1.0; "1s" gives 1000.0 |
| UnitParse.UnmatchedText | wrk/generate-dashboard.py:26-29 | for every text whose stripped form neither `float()` nor the unit pattern accepts, the leading number is returned unchanged, or NaN when there is none, by both readers |
| UnitParse.PrefixFallback | wrk/generate-dashboard.py:26-29 | a number followed by text that starts with no digit, point, whitespace or unit letter, and does not end in whitespace, is returned as that number |
| UnitParse.PrefixOfToken | wrk/generate-dashboard.py:28 | the numeric prefix of a number followed by a non-number character is that number |
| UnitParse.NothingNumericIsNaN | wrk/generate-dashboard.py:26-29 | a stripped text that is empty or starts with neither a digit, a point nor a sign gives NaN |
| UnitParse.NegativeDurationIsNaN | wrk/generate-dashboard.py:25-29 | "-2ms" matches neither pattern and has no numeric prefix, so gives NaN |
| UnitParse.ReadOfTrimmed | wrk/generate-dashboard.py:18 | a text without surrounding whitespace is read as itself |
| UnitParse.StripTrimmed | wrk/generate-dashboard.py:18 | `strip()` leaves a trimmed text alone |
| UnitParse.ParsePadded | wrk/generate-dashboard.py:16-18 | whitespace around a trimmed text changes neither the corrected nor the written result |
| UnitParse.PyFloat | wrk/generate-dashboard.py:20-21 | a text `float()` accepts is non-empty and, after its first character, made only of digits and points |
| UnitParse.Lower | wrk/generate-dashboard.py:32 | `lower()` keeps the length of the unit |
| UnitParse.Read | wrk/generate-dashboard.py:16-31 | a value read by the unit branch carries a unit the pattern accepts |
| UnitParse.ReadText | wrk/generate-dashboard.py:20-31 | a text read by the unit branch carries a unit the pattern accepts; the branches are tried in the source's order: `float()`, the full unit match, the numeric prefix, then NaN |
| UnitParse.NumberTokenIsFloat | wrk/generate-dashboard.py:20-25 | a text matching `[0-9]*\.?[0-9]+` is accepted by `float()` with the same value |
| UnitParse.ConvertAsWrittenAgrees | wrk/generate-dashboard.py:32-38 | for a unit whose lower case is one of the four listed spellings, the written conversion is the intended one |
| UnitParse.AsWrittenAgrees | wrk/generate-dashboard.py:12-39 | outside case-folded units, the written parser and the corrected parser agree on every input |
| UnitParse.LowerRecognised | wrk/generate-dashboard.py:25-33 | a matched unit is recognised after `lower()` exactly when it holds no character that only case folding matched |
| UnitParse.FoldedUnitUnconverted | wrk/generate-dashboard.py:25-39 | such a unit is returned unconverted as written; the corrected parser converts it |
| UnitParse.GreekMuReturnedUnconverted | wrk/generate-dashboard.py:25-39 | "5μs" (Greek mu) gives 5.0 as written and 0.005 when corrected |
| Text.Strip | wrk/generate-dashboard.py:18 | the result has no surrounding whitespace and is no longer than the input |
| Text.StripLeftPadded | wrk/generate-dashboard.py:18 | leading whitespace before a text that starts with a non-space is removed exactly |
| Text.StripRightPadded | wrk/generate-dashboard.py:18 | trailing whitespace after a text that ends with a non-space is removed exactly |
| Text.StripPadded | wrk/generate-dashboard.py:18 | `strip()` removes exactly the whitespace padding around a trimmed text |
| WrkCompare.DeltaPercent | wrk/generate-dashboard.py:90-93 | NaN exactly when the baseline is 0 or NaN (or the current value is NaN); otherwise `baseline * (1 + d/100) == current` |
| WrkCompare.DeltaOfSelf | wrk/generate-dashboard.py:90-93 | the change of a nonzero value against itself is 0 |
| WrkCompare.DeltaSign | wrk/generate-dashboard.py:90-93 | against a positive baseline the change is non-negative exactly when current ≥ baseline, and non-positive exactly when current ≤ baseline |
| WrkCompare.ColorForDelta | wrk/generate-dashboard.py:96-102 | no color exactly for NaN; green iff delta ≥ 0 when higher is better, iff delta ≤ 0 otherwise; a delta of 0 is green either way |
| WrkCompare.ColorOfComparison | wrk/generate-dashboard.py:90-102 | against a positive baseline the color is green exactly when the value moved the better way, or not at all |
| WrkCompare.FmtDelta | wrk/generate-dashboard.py:128-132 | no text exactly for NaN; a "+" exactly when delta ≥ 0 |
| WrkCompare.PlusIsGreenWhenHigherIsBetter | wrk/generate-dashboard.py:96-132 | when higher is better, a delta shows "+" exactly when it is green |
| WrkCompare.TenPercent | wrk/generate-dashboard.py:88-132 | 110 against 100 shows "+10.0%", 90 against 100 shows "-10.0%" |
| WrkCompare.FmtVal | wrk/generate-dashboard.py:184-189 | "N/A" exactly for NaN; otherwise the value, with " ms" exactly for the ms unit |
| WrkCompare.BestWorstClasses | wrk/generate-dashboard.py:105-125 | every name gets a key and nothing else does; each name's class is the rank of its last entry among the present values |
| WrkCompare.PresentMembers | wrk/generate-dashboard.py:107 | the present values are exactly the non-NaN entries |
| WrkCompare.NaNUnranked | wrk/generate-dashboard.py:119 | a NaN entry gets the empty class |
| WrkCompare.AllMissingUnranked | wrk/generate-dashboard.py:108-109 | when no value is present every entry gets the empty class |
| WrkCompare.BestAndWorstExist | wrk/generate-dashboard.py:110-124 | when some value is present, some entry is best and some entry is worst |
| WrkCompare.RanksAreExtremes | wrk/generate-dashboard.py:110-124 | best beats or equals every present value in the better direction, worst in the other |
| WrkCompare.AllEqualBestWorst | wrk/generate-dashboard.py:120-124 | when all present values are equal, each present entry is "best worst" |
| WrkCompare.RequestsExample | wrk/generate-dashboard.py:105-125 | nginx 100, frankenphp NaN, frankenrpm 150 rank as worst, unranked, best |
| WrkResults.ScriptKey | wrk/generate-dashboard.py:51 | the key is the base name of `script`, or the file stem when that is empty |
| WrkResults.KeyOfScriptPath | wrk/generate-dashboard.py:51 | a script path `dir/name` is keyed `name` |
| WrkResults.KeyWithoutScript | wrk/generate-dashboard.py:51 | with no script, `dir/base.json` is keyed `base` |
| WrkResults.MissingMetricIsNaN | wrk/generate-dashboard.py:53-57 | an absent metric reads as NaN |
| WrkResults.LoadResults | wrk/generate-dashboard.py:42-66 | an empty dict without the directory; otherwise the fold of the `*.json` files in sorted path order |
| WrkResults.GreatestPathWins | wrk/generate-dashboard.py:46-65 | the entry for a script and engine comes from the greatest path in sorted order that has both |
| WrkResults.StoreFile | wrk/generate-dashboard.py:47-65 | one file's step: an unparsable file changes nothing, a parsed one stores its engine under (script key, docker) |
| WrkResults.LoadedEntries | wrk/generate-dashboard.py:46-65 | a (script, docker) pair is present exactly when some parsed file names it |
| WrkResults.LoadedScripts | wrk/generate-dashboard.py:51-59 | a script key is present exactly when some parsed file has it |
| WrkResults.LastFileWins | wrk/generate-dashboard.py:60-65 | a pair holds the engine of the last file naming it |
| WrkResults.UnparsableSkipped | wrk/generate-dashboard.py:47-50 | an unparsable file anywhere in the list changes nothing |
| WrkResults.NoEmptyGroups | wrk/generate-dashboard.py:58-60 | every script key holds at least one engine |
| WrkResults.GenerateTable | wrk/generate-dashboard.py:136-223 | one row per script, in strictly ascending order, covering every script; each row built from that script's engines |
| WrkResults.BuildRow | wrk/generate-dashboard.py:192-290 | one row: the four metric groups of the three engines |
| WrkResults.SortedScripts | wrk/generate-dashboard.py:136 | `sorted(data.keys())`: strictly ascending, exactly the scripts, each once |
| WrkResults.BuildRows | wrk/generate-dashboard.py:191-292 | the loop over the scripts builds the rows of those scripts, in that order |
| WrkResults.BuildGroup | wrk/generate-dashboard.py:195-243 | one metric's cells of the three engines, with marks, values and deltas |
| WrkResults.RowScripts | wrk/generate-dashboard.py:191 | one row per listed script, naming it |
| WrkResults.TableOrder | wrk/generate-dashboard.py:136-191 | rows follow the ascending script order |
| WrkResults.TableCovers | wrk/generate-dashboard.py:136-191 | every script of the data has a row and every row's script is in the data |
| WrkResults.TableRows | wrk/generate-dashboard.py:191-292 | each row is the row of its script's engines |
| WrkResults.SetEngine | wrk/generate-dashboard.py:58-65 | storing an engine under a script and docker name is one nested-dict store |
| WrkResults.AbsentEngineCell | wrk/generate-dashboard.py:195-209 | an absent engine shows "N/A", no mark and no delta |
| WrkResults.NoBaselineNoDelta | wrk/generate-dashboard.py:225-233 | with no nginx run, neither FrankenPHP engine shows a delta |
| WrkResults.DeltaCellMeaning | wrk/generate-dashboard.py:225-243 | against a positive nginx value, the delta is green exactly when the engine did better or equal, with "+" exactly when it is not lower |
| WrkResults.SoleEngineBestAndWorst | wrk/generate-dashboard.py:212-223 | an engine that is alone in a metric is both best and worst |
| VegetaMetrics.MetricsOf | vegeta/generate-all.py:18-26 | each latency within 0.005 of ns/1e6, rps within 0.005 of the rate, success within 0.5 of 100·fraction, the request count unchanged |
| VegetaMetrics.Round2 | vegeta/generate-all.py:19-23 | `round(x, 2)` is a whole number of hundredths, no hundredth is closer to x, and it is within 0.005 of x |
| VegetaMetrics.NanosToMillis | vegeta/generate-all.py:19-22 | nanoseconds become the nearest whole hundredth of a millisecond, within 0.005 of the exact value |
| VegetaMetrics.RoundOfInteger | vegeta/generate-all.py:24 | `round()` leaves an integer unchanged |
| VegetaMetrics.RoundHalfEven | vegeta/generate-all.py:24 | `round()` is within one half, and a tie goes to the even integer |
| VegetaMetrics.RoundIsNearest | vegeta/generate-all.py:24 | no integer is closer than `round(x)`, and of two equally close ones it is the even one |
| VegetaMetrics.SuccessIsPercentage | vegeta/generate-all.py:24 | a fraction in [0, 1] gives a percentage in 0..100 |
| VegetaMetrics.SuccessExtremes | vegeta/generate-all.py:24 | fraction 1 is 100%, fraction 0 is 0% |
| VegetaMetrics.WholeMillis | vegeta/generate-all.py:19-22 | a whole number of milliseconds in nanoseconds is shown exactly |
| VegetaTable.ParseStem | vegeta/generate-all.py:39-42 | a stem names a test and a server exactly when it holds a '-' |
| VegetaTable.ParseStemOfName | vegeta/generate-all.py:39-42 | `code1-nginx` is test `code1` on server `nginx`; a server name may hold '-' |
| VegetaTable.ParseStemInverse | vegeta/generate-all.py:39-42 | a parsed stem is `test + "-" + server`, with no '-' in the test |
| VegetaTable.StemWithoutDash | vegeta/generate-all.py:39-40 | a stem without '-' is ignored |
| VegetaTable.Organize | vegeta/generate-all.py:35-45 | the glob loop equals the fold of the parsed names in listing order |
| VegetaTable.StoreBin | vegeta/generate-all.py:39-45 | one file's step: an unparsed name changes nothing, a parsed one stores its metrics |
| VegetaTable.OrganizedEntries | vegeta/generate-all.py:37-45 | a test and server have metrics exactly when some file name parses to them |
| VegetaTable.OrganizedLastWins | vegeta/generate-all.py:45 | the metrics stored are those of the last file naming the test and server |
| VegetaTable.AllServers | vegeta/generate-all.py:52 | strictly ascending, with no duplicates, and exactly the servers that have data for some test |
| VegetaTable.NoEmptyTests | vegeta/generate-all.py:35-45 | a test appears only through one of its servers, so no test is empty |
| VegetaTable.FirstPresent | vegeta/generate-all.py:101-106 | the baseline has data and no earlier server does; there is none exactly when no server has data |
| VegetaTable.FindBaseline | vegeta/generate-all.py:102-106 | the loop with `break` finds the first server with data |
| VegetaTable.BaselineFound | vegeta/generate-all.py:101-109 | a test with data whose servers are all listed has a baseline |
| VegetaTable.BaselineIsLeast | vegeta/generate-all.py:101-106 | with the servers sorted, the baseline is the least server name of the test |
| VegetaTable.EmptyServerDropsTest | vegeta/generate-all.py:39-109 | the stem `code1-` gives server ""; a test whose only server is "" is skipped as written, not by the intended check |
| VegetaTable.ToneOf | vegeta/generate-all.py:128-173 | RPS is positive exactly when pct > 0, so a change of 0 is negative; latencies are negative exactly when pct > 0 |
| VegetaTable.Pct | vegeta/generate-all.py:127 | against a positive baseline, the change is positive exactly when the value grew |
| VegetaTable.MetricCell | vegeta/generate-all.py:121-131 | '-' exactly when the server lacks data; the plain value exactly for the baseline; a division by zero exactly when another server meets a zero baseline; otherwise the server's own value with its change and tone; no other kind of cell |
| VegetaTable.SuccessCell | vegeta/generate-all.py:181-194 | '-' exactly without data; the baseline's own success as a plain value; the server's success with no annotation exactly when the difference is 0, otherwise with the difference in points, positive exactly when it is above 0 |
| VegetaTable.MetricRow | vegeta/generate-all.py:121-131 | one cell per server in column order, or a division by zero exactly when some cell divides by zero |
| VegetaTable.SuccessRow | vegeta/generate-all.py:181-194 | one success cell per server in column order |
| VegetaTable.SectionIsRectangular | vegeta/generate-all.py:114-195 | every row of a section has exactly one cell per server |
| VegetaTable.SectionFails | vegeta/generate-all.py:127-172 | a section raises exactly when another server has data and the baseline has a zero in one of the four percentage metrics |
| VegetaTable.BuildSection | vegeta/generate-all.py:111-195 | the section's five rows, or the division by zero |
| VegetaTable.BuildRow | vegeta/generate-all.py:121-131 | the per-server loop of one metric row |
| VegetaTable.BuildSuccessRow | vegeta/generate-all.py:181-194 | the per-server loop of the success row |
| VegetaTable.TestSection | vegeta/generate-all.py:99-111 | one iteration gives exactly `TestSectionOf`: the section of the test against its first server with data, whose absence `BaselineFound` rules out |
| VegetaTable.BuildSections | vegeta/generate-all.py:98-195 | the loop gives exactly `SectionsFor`: every test's section in the given order, or nothing as soon as one test raises |
| VegetaTable.Tabulate | vegeta/generate-all.py:52-195 | the result is exactly `TableFor(data)`: the sections of the tests in sorted order over the sorted servers, or the division by zero |
| VegetaTable.GenerateAll | vegeta/generate-all.py:28-195 | a missing directory gives its message and empty data the "no data" outcome, exactly in those cases; otherwise every collected test has a server and the outcome is `TableFor` of the collected data |
| VegetaTable.TableForMeaning | vegeta/generate-all.py:52-195 | the program either writes a table laid out as `TableOf` says or raises, and it raises exactly when some test of the data fails |
| VegetaTable.TableLayout | vegeta/generate-all.py:52-111 | one section per sorted test makes the table: the servers sorted, every test once in ascending order, each section well formed for its test |
| VegetaTable.SectionsNamed | vegeta/generate-all.py:98-111 | section j is the section of test j and is well formed |
| VegetaTable.TestSectionMeaning | vegeta/generate-all.py:99-195 | a test has no section exactly when it fails; otherwise its section names it and is well formed |
| VegetaTable.SectionsForShape | vegeta/generate-all.py:98-111 | the sections are the tests' own sections in order; there are none exactly when one test's section is missing |
| VegetaTable.RaisesExactly | vegeta/generate-all.py:98-195 | over the sorted tests, the loop yields no sections exactly when some test of the data fails |
| VegetaTable.FailingTestRaises | vegeta/generate-all.py:98-127 | a single failing test anywhere in the list stops the loop |
| VegetaTable.ServersFiled | vegeta/generate-all.py:45-52 | every test has a server and every server of every test is a column of the sorted servers |
| Ordering.SortedOf | vegeta/generate-all.py:52 | `sorted()` of a set of names: strictly ascending, the same names and as many |
| Ordering.SortedIsSortedOf | vegeta/generate-all.py:52 | any strictly ascending listing of a set is its sorted listing |
| VegetaTable.SortedServersUnique | vegeta/generate-all.py:52 | the server order is fixed by the data alone |
| Ordering.SortedUnique | vegeta/generate-all.py:52 | two strictly sorted lists of the same names are equal |
| Ordering.SortedSet | vegeta/generate-all.py:52 | `sorted()` of a set: strictly ascending, the same members, the same size |
| Ordering.StrLessIrreflexive | vegeta/generate-all.py:52 | no string sorts before itself |
| Ordering.StrLessTransitive | vegeta/generate-all.py:52 | string order is transitive |
| Ordering.StrLessTotal | vegeta/generate-all.py:52 | of two different strings one sorts first |
| Ordering.MinimumExists | vegeta/generate-all.py:52 | a non-empty set has a least element under a strict total order |
| Ordering.StrLessIsStrictTotalOrder | vegeta/generate-all.py:52 | Python's string comparison is irreflexive, transitive and total |
| Sampling.SampleRate | generate-dashboard.py:30 | at least 1; exactly 1 below 400 requests; from 400 on, `200k ≤ total < 200(k+1)` |
| Sampling.StrideOneKeepsNothing | generate-dashboard.py:36 | `NR % 1 == 1` holds for no line |
| Sampling.RulesAgreeFromStrideTwo | generate-dashboard.py:36 | from stride 2 on, `NR % k == 1` is `(NR - 1) % k == 0` |
| Sampling.NoSamplesBelow400 | generate-dashboard.py:30-36 | below 400 requests the written filter keeps no record |
| Sampling.SelectAsWritten | generate-dashboard.py:36 | the lines `NR % k == 1` keeps: none at stride 1; from stride 2 on, exactly every k-th record from the first |
| Sampling.Samples | generate-dashboard.py:36-45 | as many records as `KeptCount(n, k)` (⌈n/k⌉); record j is input record j·k, so the sample keeps the input order |
| Sampling.CollectSamples | generate-dashboard.py:36-45 | the line loop over the filtered records gives the sample |
| Sampling.SamplesStep | generate-dashboard.py:36-45 | one more record joins the sample exactly when its index is a multiple of k |
| Sampling.KeptCountOfNonEmpty | generate-dashboard.py:36 | for n ≥ 1 records, ⌊(n−1)/k⌋+1 are kept |
| Sampling.SampleSizeBounds | generate-dashboard.py:29-30 | from 400 records on, between 200 and 300 are kept |
| Dashboard.GetMetrics | generate-dashboard.py:8-50 | the report's metrics, the stride for its request count, and the sample of the encoded records |
| Dashboard.SampleShape | generate-dashboard.py:29-49 | stride ≥ 1, and 1 exactly below 400 requests; the sample is every k-th record, and non-empty for a non-empty file |
| Dashboard.SampleSize | generate-dashboard.py:29-47 | from 400 requests on, between 200 and 300 points are sampled |
| Dashboard.SampledAsWritten | generate-dashboard.py:8-50 | `get_metrics` with the awk filter as written: the same metrics and stride as the intended sample; only the kept records differ |
| Dashboard.EmptySampleAsWritten | generate-dashboard.py:30-49 | below 400 requests the written filter samples nothing, so the throughput chart has no first record |
| Dashboard.AsWrittenFrom400 | generate-dashboard.py:30-49 | from 400 requests on, the written sample is the intended one |
| Dashboard.Collect | generate-dashboard.py:61-65 | the loop over the files equals storing each file's metrics under its stem, in order |
| Dashboard.CollectedOrder | generate-dashboard.py:61-74 | `filenames` lists each stem once, in the order of its first file, and nothing else |
| Dashboard.Stems | generate-dashboard.py:63-74 | the stems of the argument files, in argument order |
| Dashboard.Pairs | generate-dashboard.py:62-65 | each file's stem with that file's sampled metrics, in argument order |
| Dashboard.CollectedLastWins | generate-dashboard.py:62-65 | a stem holds the metrics of its last file |
| Dashboard.GenerateDashboard | generate-dashboard.py:52-298 | usage exactly with fewer than 3 arguments; otherwise the bench name, the collected data in key order, and charts whose entry i is that of file i |
| Dashboard.BarsAndLines | generate-dashboard.py:174-224 | bar i holds file i's rate and its mean, median and 99th percentile latencies; line i is file i's latency series |
| Dashboard.RpsChart | generate-dashboard.py:252-298 | fails exactly when some sample is empty; otherwise each file's throughput series and average line |
| Dashboard.ChartDrawn | generate-dashboard.py:36-49 | with the intended filter, a non-empty file for every argument always gives a drawn throughput chart |
| OrderedDict.Store | generate-dashboard.py:65 | `d[k] = v` keeps the dict well formed and maps k to v |
| OrderedDict.StoreOrder | generate-dashboard.py:65 | an existing key keeps its position; a new key goes last |
| OrderedDict.FromPairs | generate-dashboard.py:61-65 | the dict built by the loop has no key twice and lists exactly its mapped keys |
| OrderedDict.FromPairsOrder | generate-dashboard.py:61-74 | the key order is the order of first insertion |
| OrderedDict.FromPairsKeys | generate-dashboard.py:61-65 | the keys are exactly the keys inserted |
| OrderedDict.FromPairsLastWins | generate-dashboard.py:62-65 | a key holds the value of its last insertion |
| OrderedDict.FromPairsValues | generate-dashboard.py:62-65 | every stored value was inserted under its key |
| Throughput.Bucket | generate-dashboard.py:259-260 | the window is ⌊(t − t₀)/100⌋ |
| Throughput.CountBuckets | generate-dashboard.py:256-262 | a window has a count exactly when some record falls in it, and the count is the number of such records |
| Throughput.Point | generate-dashboard.py:267-270 | a point at window·0.1 s, the count scaled to count·rate·10 requests per second |
| Throughput.RpsSeries | generate-dashboard.py:252-270 | fails exactly on an empty sample; otherwise ascending in time, one point per non-empty window, each the scaled count of its window |
| Throughput.ChartPoints | generate-dashboard.py:267-270 | sorted window keys give points ascending in time, one per window |
| Throughput.PointsFollowWindows | generate-dashboard.py:267-270 | each point names its own window |
| Throughput.CountsCoverRecords | generate-dashboard.py:256-262 | over any distinct list of the non-empty windows, the counts add up to the number of records |
| Throughput.WindowCountsSum | generate-dashboard.py:256-267 | the counts of the sorted windows add up to the number of sampled records |
| Throughput.WindowOfPoint | generate-dashboard.py:267-270 | a point's time gives back its window |
| Throughput.PointsOf | generate-dashboard.py:267-270 | one point per window key |
| Throughput.LatencySeries | generate-dashboard.py:220-224 | one point per record: the sample number against the latency in milliseconds |
| Throughput.MaxTime | generate-dashboard.py:285 | at least 15, no smaller than any point's time, and either 15 or one of them |
| Throughput.AverageLine | generate-dashboard.py:284-291 | from (0, avg) to (maxTime, avg), reaching at least 15 s and the end of the series |
| Nesting.NestEntries | vegeta/generate-all.py:35-45 | a pair of keys is present exactly when some entry set it |
| Nesting.NestKeys | vegeta/generate-all.py:35-45 | an outer key is present exactly when some entry names it |
| Nesting.PutEntries | vegeta/generate-all.py:45 | one store adds its pair and keeps all others |
| Nesting.PutFrame | vegeta/generate-all.py:45 | one store leaves the values of other pairs unchanged |
| Nesting.NestLastWins | vegeta/generate-all.py:45 | the value of a pair is the one from the last entry that set it |
| Nesting.NestSkipsNone | wrk/generate-dashboard.py:47-50 | a skipped entry changes nothing |
| Nesting.NestNoEmptyGroups | vegeta/generate-all.py:45 | every outer key holds at least one inner key |
| Text.JoinSplit | vegeta/generate-all.py:39-42 | `sep.join(s.split(sep)) == s` |
| Text.SplitJoin | vegeta/generate-all.py:39-42 | splitting the join of separator-free parts gives the parts back |
| Text.Split | vegeta/generate-all.py:39 | `split` gives at least one part |
| Text.SplitPartsFree | vegeta/generate-all.py:39 | no part holds the separator |
| Text.SplitFree | vegeta/generate-all.py:39-40 | a text without the separator splits into itself alone |
| Text.SplitConcat | vegeta/generate-all.py:39-42 | splitting at a separator splits the two sides independently |
| Text.BaseName | wrk/generate-dashboard.py:51 | `PurePosixPath.name` is empty or a proper name |
| Text.BaseNameOfName | wrk/generate-dashboard.py:51 | the name of a bare proper name is itself |
| Text.Stem | generate-dashboard.py:63 | the stem is a prefix of the name |
| Text.BaseNameOfChild | wrk/generate-dashboard.py:51 | the name of `dir/name` is `name` |
| Text.StemOfFile | generate-dashboard.py:63 | the stem of `dir/base.ext` is `base` |

## Left out

- Running `vegeta`, the shell and awk pipeline, globbing, reading and
  writing files, and `chmod`: these are I/O. Their results are parameters
  of the model. `WrkResults.LoadResults` takes the set of `*.json` paths
  and what each file's text parses to, and sorts the paths itself.
- `detect_threads_connections` and the output file name
  (wrk/generate-dashboard.py:69-87, 303-314): these only choose a file name
  for the I/O.
- The HTML, CSS and Chart.js option text, the card markup and the
  `colors` list. The model keeps the structure of rows and cells, the
  classes and the chart data instead. A ninth file's color (`colors[8]` is
  `undefined`) is not modelled.
- IEEE floating point:
  - numbers are exact reals;
  - `round(x, 2)` rounds the exact value half to even;
  - `:.2f`/`:+.1f` formatting is reduced to the number it shows.
  - `VegetaMetrics.MetricsOf`: states rounding to within half a unit of
    the last place rather than the exact binary result.
- Python's full `float()` grammar. Exponents, underscores, `inf`/`nan`
  spellings and non-ASCII digits are not modelled; the model accepts only
  an optional sign and decimal digits with one optional point.
- A result file whose JSON has the wrong types: a parsed file is a record
  with a string `script`, a string `docker` and an object `metrics`, or
  unparsable. The reads after `json.loads` are outside the `try`
  (wrk/generate-dashboard.py:47-54), so on other types `load_results`
  raises instead of skipping the file. It raises AttributeError at
  `obj.get` when the JSON is not an object, TypeError in `Path(...)` when
  `script` is not a string (such as `null`), and AttributeError at
  `metrics.get` when `metrics` is not an object. The model has no outcome
  for these files. A `docker` that is an array or an object raises
  TypeError (unhashable type) at `data[script][docker] = ...`
  (wrk/generate-dashboard.py:60), with no outcome in the model either. A
  `docker` that is a number, a bool or null is used as a dictionary key,
  and the model does not represent it.
- `json.dumps(all_data)` and Chart.js's own behaviour: the model stops at
  the data handed to each chart.
- JavaScript's `new Date(...)` parsing: a record carries its timestamp in
  milliseconds.
- `vegeta/code5.php` and `wrk/file_io.php`: these are benchmark payloads,
  not report logic.
- `Dashboard.RpsChart`: models the throughput chart as absent when a sample
  is empty. The script throws at `results[0].timestamp` after pushing the
  datasets of earlier files; the page's other charts are unaffected.
- `VegetaTable.TestSection`: skips a test only when no server has data
  (`is None`). The source's `if not baseline_server`
  (vegeta/generate-all.py:108-109) also skips a test whose baseline is the
  server name "" (see Findings).
- `VegetaTable.Tabulate`: builds its sections with the `is None` check of
  `VegetaTable.TestSection`, so a test whose baseline is "" keeps its
  section.
- `VegetaTable.GenerateAll`: the same `is None` check; the as-written skip
  is `VegetaTable.EmptyServerDropsTest`.
- `VegetaTable.TableForMeaning`: describes the table built with the
  `is None` check.
- `VegetaTable.BuildSections`: the loop over the sorted tests goes through
  the `is None` check of `VegetaTable.TestSection`, so a test whose
  baseline is the server "" keeps its section. The source's
  `if not baseline_server: continue` (vegeta/generate-all.py:108-109)
  drops that test.
- `Sampling.CollectSamples`: keeps lines with the corrected rule
  `(NR - 1) % k == 0`, not awk's `NR % k == 1`
  (generate-dashboard.py:36). Below 400 requests the source keeps no
  line; `Sampling.NoSamplesBelow400` models that (see Findings).
- `Dashboard.GetMetrics`: samples through `Sampling.CollectSamples`, so a
  run of fewer than 400 requests keeps every line instead of none.
  `Dashboard.EmptySampleAsWritten` states what the source yields.
- `Dashboard.Collect`: collects the corrected samples of
  `Dashboard.GetMetrics`.
- `Dashboard.Pairs`: pairs file names with the corrected samples.
- `Dashboard.CollectedLastWins`: is about the corrected samples.
- `Dashboard.GenerateDashboard`: draws the throughput chart from the
  corrected samples. As written, a file of fewer than 400 requests leaves
  its sample empty and the chart script throws.
- `WrkResults.LoadResults`: reads the four numbers with the corrected
  `UnitParse.ParseNumber`. As written, `parse_number`
  (wrk/generate-dashboard.py:25-39) returns a Greek-μ value such as
  `"5μs"` unconverted (5.0, not 0.005); `UnitParse.ParseNumberAsWritten`
  models that (see Findings).
- `WrkResults.StoreFile`: stores the numbers of the corrected
  `UnitParse.ParseNumber`, as `WrkResults.LoadResults` does.

## Findings

| source | as written | input that shows it | evidently intended | confidence | as-written member | corrected member |
|---|---|---|---|---|---|---|
| wrk/generate-dashboard.py:25-39 | The unit pattern is matched case-insensitively, so it also accepts spellings whose `lower()` is not in `("us", "µs")` or `"ms"`/`"s"`, such as Greek `μ`/`Μ` for `µ`, or `ſ` for `s`. The value then falls through to `return val` unconverted. | `"5μs"` (U+03BC) gives 5.0 instead of 0.005 | convert every unit the pattern accepts by its meaning | medium, not executed | UnitParse.GreekMuReturnedUnconverted | UnitParse.ParseNumber |
| generate-dashboard.py:30, 36 | The awk filter `NR % k == 1` normally keeps lines 1, k+1, 2k+1, …. With stride 1, which every run of fewer than 400 requests gets, it keeps no line at all. The chart script then fails on `results[0]`. | a result file with 399 requests | keep every k-th line starting with the first, `(NR - 1) % k == 0` | high, not executed | Sampling.NoSamplesBelow400 | Dashboard.SampleShape |
| vegeta/generate-all.py:39-42, 108-109 | `if not baseline_server` also skips a test whose baseline is the empty server name. A stem ending in `-` produces that name, and it sorts first. | the only file of a test is `code1-.bin` | skip only when no server was found (`is None`) | low, not executed | VegetaTable.EmptyServerDropsTest | VegetaTable.BaselineFound |
