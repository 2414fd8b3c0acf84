/** `load_results` and the table rows of `generate_html` in
    wrk/generate-dashboard.py: result files are grouped by script and engine
    (the `docker` field), a later file for the same pair replacing an earlier
    one, and the table shows one row per script in sorted order. */
module WrkResults {
  import opened Numeric
  import opened Text
  import opened Ordering
  import opened UnitParse
  import opened WrkCompare
  import opened Nesting

  /** One `*.json` file: either text `json.loads` rejects, or an object whose
      "script", "docker" and "metrics" members are given (a missing member
      arrives as its default: "", "" and an empty object). A file whose JSON
      is not an object, whose `script` is not a string or whose `metrics`
      is not an object makes `load_results` raise; the model has no value
      for it. An array or object `docker` raises too (it cannot be a
      dictionary key); other non-string `docker` values are not modelled. */
  datatype ResultFile =
    | Unparsable
    | Result(script: string, docker: string, metrics: map<string, JsonValue>)

  /** The four numbers kept per engine. */
  datatype Engine = Engine(rps: Num, avgMs: Num, p50Ms: Num, p99Ms: Num)

  type Data = map<string, map<string, Engine>>

  /** `metrics.get(key, "nan")`. */
  function Field(metrics: map<string, JsonValue>, key: string): JsonValue {
    if key in metrics then metrics[key] else JsonString("nan")
  }

  function EngineOf(metrics: map<string, JsonValue>): Engine {
    Engine(ParseNumber(Field(metrics, "requests_per_sec")), ParseNumber(Field(metrics, "latency_avg")),
           ParseNumber(Field(metrics, "p50")), ParseNumber(Field(metrics, "p99")))
  }

  /** `Path(script).name or p.stem`. */
  function ScriptKey(path: string, script: string): (key: string)
    ensures BaseName(script) != "" ==> key == BaseName(script)
    ensures BaseName(script) == "" ==> key == Stem(path)
  {
    var name := BaseName(script);
    if name != "" then name else Stem(path)
  }

  /** A missing metric reads as NaN, like the string "nan" it defaults to. */
  lemma MissingMetricIsNaN(metrics: map<string, JsonValue>, key: string)
    requires key !in metrics
    ensures ParseNumber(Field(metrics, key)) == NaN
  {
    NothingNumericIsNaN("nan");
  }

  /** The script key is the file name of the script path, whatever directory
      it was run from. */
  lemma KeyOfScriptPath(path: string, dir: string, name: string)
    requires ProperName(name)
    ensures ScriptKey(path, dir + "/" + name) == name
  {
    BaseNameOfChild(dir, name);
  }

  /** Without a script the key falls back to the result file's stem. */
  lemma KeyWithoutScript(dir: string, base: string)
    requires base != "" && '/' !in base
    ensures ScriptKey(dir + "/" + base + ".json", "") == base
  {
    assert BaseName("") == "" by { assert Split("", '/') == [""]; }
    StemOfFile(dir, base, "json");
    assert dir + "/" + base + "." + "json" == dir + "/" + base + ".json";
  }

  /** What one file contributes: nothing when it did not parse, otherwise its
      script key, its engine and that engine's numbers. */
  function Entry(file: (string, ResultFile)): Option<(string, string, Engine)> {
    match file.1
    case Unparsable => None
    case Result(script, docker, metrics) => Some((ScriptKey(file.0, script), docker, EngineOf(metrics)))
  }

  function Entries(files: seq<(string, ResultFile)>): (es: seq<Option<(string, string, Engine)>>)
    ensures |es| == |files|
    ensures forall i :: 0 <= i < |files| ==> es[i] == Entry(files[i])
  {
    MapSeq(Entry, files)
  }

  /** What `load_results` builds from `files`, read in order. */
  function Loaded(files: seq<(string, ResultFile)>): Data {
    Nest(Entries(files))
  }

  /** The listed paths in order, each with what `json.loads` makes of its text. */
  function ReadAll(paths: seq<string>, read: string -> ResultFile): (files: seq<(string, ResultFile)>)
    ensures |files| == |paths|
    ensures forall i :: 0 <= i < |paths| ==> files[i].0 == paths[i] && files[i].1 == read(paths[i])
  {
    MapSeq((p: string) => (p, read(p)), paths)
  }

  /** `load_results()`, given whether the directory exists, the set of its
      `*.json` paths and what each path's text parses to; the files are read
      in `sorted()` path order. */
  method LoadResults(dirExists: bool, listing: set<string>, read: string -> ResultFile) returns (data: Data)
    ensures data == if dirExists then Loaded(ReadAll(SortedOf(listing), read)) else map[]
  {
    data := map[];
    if !dirExists {
      return;
    }
    StrLessIsStrictTotalOrder();
    var paths := SortedSet(listing, StrLess);
    SortedIsSortedOf(paths, listing);
    var files := ReadAll(paths, read);
    ghost var entries := Entries(files);
    var i := 0;
    while i < |files|
      invariant 0 <= i <= |files|
      invariant data == Nest(entries[..i])
    {
      NestPrefixStep(entries, i);
      data := StoreFile(data, files[i].0, files[i].1);
      i := i + 1;
    }
    assert entries[..i] == entries;
  }

  /** The body of the loop of `load_results` for one file. */
  method StoreFile(data: Data, path: string, file: ResultFile) returns (data': Data)
    ensures data' == Put(data, Entry((path, file)))
  {
    data' := data;
    if file.Result? {
      var script := ScriptKey(path, file.script);
      var engine := EngineOf(file.metrics);
      assert Entry((path, file)) == Some((script, file.docker, engine));
      data' := SetEngine(data, script, file.docker, engine);
    }
  }

  /** `if script not in data: data[script] = {}`, then `data[script][docker] = engine`. */
  method SetEngine(data: Data, script: string, docker: string, engine: Engine) returns (data': Data)
    ensures data' == Put(data, Some((script, docker, engine)))
  {
    data' := data;
    if script !in data' {
      data' := data'[script := map[]];
    }
    data' := data'[script := data'[script][docker := engine]];
  }

  // ---- What loading keeps

  /** The file at position `i` sets the entry for `key` and `docker`. */
  predicate Stores(files: seq<(string, ResultFile)>, i: int, key: string, docker: string)
    requires 0 <= i < |files|
  {
    files[i].1.Result? && ScriptKey(files[i].0, files[i].1.script) == key && files[i].1.docker == docker
  }

  /** An entry exists exactly when some parsed file stored it. */
  lemma LoadedEntries(files: seq<(string, ResultFile)>, key: string, docker: string)
    ensures (key in Loaded(files) && docker in Loaded(files)[key])
      <==> exists i :: 0 <= i < |files| && Stores(files, i, key, docker)
  {
    var es := Entries(files);
    NestEntries(es, key, docker);
    assert forall i :: 0 <= i < |files| ==> (Sets(es, i, key, docker) <==> Stores(files, i, key, docker));
  }

  /** A script appears exactly when some parsed file has it as its key. */
  lemma LoadedScripts(files: seq<(string, ResultFile)>, key: string)
    ensures key in Loaded(files)
      <==> exists i :: 0 <= i < |files| && files[i].1.Result? && ScriptKey(files[i].0, files[i].1.script) == key
  {
    var es := Entries(files);
    NestKeys(es, key);
    assert forall i :: 0 <= i < |files| ==>
      (es[i].Some? && es[i].value.0 == key <==> files[i].1.Result? && ScriptKey(files[i].0, files[i].1.script) == key);
  }

  /** The entry for a script and engine is the one from the last parsed file
      that has them: later files replace earlier ones. */
  lemma LastFileWins(files: seq<(string, ResultFile)>, i: int, key: string, docker: string)
    requires 0 <= i < |files| && Stores(files, i, key, docker)
    requires forall j :: i < j < |files| ==> !Stores(files, j, key, docker)
    ensures key in Loaded(files) && docker in Loaded(files)[key]
    ensures Loaded(files)[key][docker] == EngineOf(files[i].1.metrics)
  {
    var es := Entries(files);
    assert forall j :: 0 <= j < |files| ==> (Sets(es, j, key, docker) <==> Stores(files, j, key, docker));
    NestLastWins(es, i, key, docker);
  }

  /** With the files read in sorted path order, the entry for a script and
      engine comes from the greatest path that has them. */
  lemma GreatestPathWins(listing: set<string>, read: string -> ResultFile, p: string, key: string, docker: string)
    requires p in listing && read(p).Result? && ScriptKey(p, read(p).script) == key && read(p).docker == docker
    requires forall q :: q in listing && StrLess(p, q) ==>
      !(read(q).Result? && ScriptKey(q, read(q).script) == key && read(q).docker == docker)
    ensures key in Loaded(ReadAll(SortedOf(listing), read)) && docker in Loaded(ReadAll(SortedOf(listing), read))[key]
    ensures Loaded(ReadAll(SortedOf(listing), read))[key][docker] == EngineOf(read(p).metrics)
  {
    var paths := SortedOf(listing);
    var files := ReadAll(paths, read);
    var i :| 0 <= i < |paths| && paths[i] == p;
    forall j | i < j < |files| ensures !Stores(files, j, key, docker) {
      assert StrLess(paths[i], paths[j]);
      assert paths[j] in listing;
    }
    LastFileWins(files, i, key, docker);
  }

  /** A file `json.loads` rejects changes nothing. */
  lemma UnparsableSkipped(a: seq<(string, ResultFile)>, path: string, b: seq<(string, ResultFile)>)
    ensures Loaded(a + [(path, Unparsable)] + b) == Loaded(a + b)
  {
    EntriesConcat(a, [(path, Unparsable)]);
    EntriesConcat(a + [(path, Unparsable)], b);
    EntriesConcat(a, b);
    assert Entries([(path, Unparsable)]) == [None];
    NestSkipsNone(Entries(a), Entries(b));
  }

  lemma EntriesConcat(a: seq<(string, ResultFile)>, b: seq<(string, ResultFile)>)
    ensures Entries(a + b) == Entries(a) + Entries(b)
  {
    MapSeqConcat(Entry, a, b);
  }

  /** Every script that appears has at least one engine. */
  lemma NoEmptyGroups(files: seq<(string, ResultFile)>)
    ensures forall key :: key in Loaded(files) ==> Loaded(files)[key] != map[]
  {
    NestNoEmptyGroups(Entries(files));
  }

  // ---- generate_html

  datatype Metric = Rps | AvgLatency | P50 | P99

  /** The table's metric groups, left to right. */
  const Metrics: seq<Metric> := [Rps, AvgLatency, P50, P99]

  /** The table's engines, left to right; nginx is the baseline. */
  datatype Server = Nginx | FrankenPhp | FrankenRpm

  /** The `docker` value a server's results are filed under. */
  function DockerName(s: Server): string {
    match s
    case Nginx => "nginx"
    case FrankenPhp => "frankenphp"
    case FrankenRpm => "frankenrpm"
  }

  function MetricOf(e: Engine, m: Metric): Num {
    match m
    case Rps => e.rps
    case AvgLatency => e.avgMs
    case P50 => e.p50Ms
    case P99 => e.p99Ms
  }

  /** Only requests per second are better when higher. */
  predicate HigherIsBetter(m: Metric) {
    m == Rps
  }

  function UnitName(m: Metric): string {
    if m == Rps then "rps" else "ms"
  }

  /** `row.get(engine, {}).get(metric, float("nan"))`. */
  function Reading(row: map<string, Engine>, server: Server, m: Metric): Num {
    var name := DockerName(server);
    if name in row then MetricOf(row[name], m) else NaN
  }

  /** The list handed to `best_worst_classes` for one metric. */
  function Readings(row: map<string, Engine>, m: Metric): seq<(Server, Num)> {
    [(Nginx, Reading(row, Nginx, m)), (FrankenPhp, Reading(row, FrankenPhp, m)),
     (FrankenRpm, Reading(row, FrankenRpm, m))]
  }

  /** One table cell: its class, its value, and for the two non-baseline
      engines the delta against nginx with its colour. */
  datatype Cell = Cell(rank: Rank, text: ValText, delta: Option<(Color, DeltaText)>)

  /** The cells of one metric: nginx, frankenphp, frankenrpm. */
  datatype Group = Group(nginx: Cell, frankenphp: Cell, frankenrpm: Cell)

  datatype Row = Row(script: string, rps: Group, avg: Group, p50: Group, p99: Group)

  function CellFor(row: map<string, Engine>, m: Metric, server: Server): Cell {
    var v := Reading(row, server, m);
    var rank := RankOf(Readings(row, m), HigherIsBetter(m), v);
    if server == Nginx then Cell(rank, FmtVal(v, UnitName(m)), None)
    else
      var d := DeltaPercent(v, Reading(row, Nginx, m));
      Cell(rank, FmtVal(v, UnitName(m)), Some((ColorForDelta(d, HigherIsBetter(m)), FmtDelta(d))))
  }

  function GroupFor(row: map<string, Engine>, m: Metric): Group {
    Group(CellFor(row, m, Nginx), CellFor(row, m, FrankenPhp), CellFor(row, m, FrankenRpm))
  }

  function RowFor(script: string, row: map<string, Engine>): Row {
    Row(script, GroupFor(row, Rps), GroupFor(row, AvgLatency), GroupFor(row, P50), GroupFor(row, P99))
  }

  /** The cells of one metric group, as the loop body of `generate_html`
      computes them: classes first, then deltas against nginx and colours. */
  method BuildGroup(row: map<string, Engine>, m: Metric) returns (group: Group)
    ensures group == GroupFor(row, m)
  {
    var values := Readings(row, m);
    var higher := HigherIsBetter(m);
    var classes := BestWorstClasses(values, higher);
    assert LastOccurrence(values, 0) && LastOccurrence(values, 1) && LastOccurrence(values, 2);
    var base := Reading(row, Nginx, m);
    var fphp := Reading(row, FrankenPhp, m);
    var frpm := Reading(row, FrankenRpm, m);
    var dFphp := DeltaPercent(fphp, base);
    var dFrpm := DeltaPercent(frpm, base);
    group := Group(
      Cell(classes[Nginx], FmtVal(base, UnitName(m)), None),
      Cell(classes[FrankenPhp], FmtVal(fphp, UnitName(m)), Some((ColorForDelta(dFphp, higher), FmtDelta(dFphp)))),
      Cell(classes[FrankenRpm], FmtVal(frpm, UnitName(m)), Some((ColorForDelta(dFrpm, higher), FmtDelta(dFrpm)))));
  }

  /** The data rows of `generate_html(data)`: one per script, in sorted
      order, each built from that script's engines. */
  method GenerateTable(data: Data) returns (rows: seq<Row>)
    ensures |rows| == |data.Keys|
    ensures forall i, j :: 0 <= i < j < |rows| ==> StrLess(rows[i].script, rows[j].script)
    ensures forall s :: s in data <==> exists i :: 0 <= i < |rows| && rows[i].script == s
    ensures forall i :: 0 <= i < |rows| ==> rows[i].script in data && rows[i] == RowFor(rows[i].script, data[rows[i].script])
  {
    var scripts := SortedScripts(data);
    rows := BuildRows(data, scripts);
    TableOrder(data, scripts);
    TableCovers(data, scripts);
    TableRows(data, scripts);
  }

  /** The rows for `scripts`, in their order. */
  function Rows(data: Data, scripts: seq<string>): (rows: seq<Row>)
    requires forall s :: s in scripts ==> s in data
  {
    seq(|scripts|, i requires 0 <= i < |scripts| => RowFor(scripts[i], data[scripts[i]]))
  }

  lemma RowScripts(data: Data, scripts: seq<string>)
    requires forall s :: s in scripts ==> s in data
    ensures |Rows(data, scripts)| == |scripts|
    ensures forall i :: 0 <= i < |scripts| ==> Rows(data, scripts)[i].script == scripts[i]
  {
  }

  /** Rows follow the order of their scripts. */
  lemma TableOrder(data: Data, scripts: seq<string>)
    requires forall s :: s in scripts ==> s in data
    requires forall i, j :: 0 <= i < j < |scripts| ==> StrLess(scripts[i], scripts[j])
    ensures forall i, j :: 0 <= i < j < |Rows(data, scripts)| ==>
      StrLess(Rows(data, scripts)[i].script, Rows(data, scripts)[j].script)
  {
    RowScripts(data, scripts);
  }

  /** Every script of `data` has a row when `scripts` lists all of them. */
  lemma TableCovers(data: Data, scripts: seq<string>)
    requires forall s :: s in data <==> s in scripts
    ensures forall s :: s in data <==> exists i :: 0 <= i < |Rows(data, scripts)| && Rows(data, scripts)[i].script == s
  {
    RowScripts(data, scripts);
    forall s | s in data ensures exists i :: 0 <= i < |Rows(data, scripts)| && Rows(data, scripts)[i].script == s {
      var i :| 0 <= i < |scripts| && scripts[i] == s;
    }
  }

  /** Each row is built from its own script's engines. */
  lemma TableRows(data: Data, scripts: seq<string>)
    requires forall s :: s in scripts ==> s in data
    ensures forall i :: 0 <= i < |Rows(data, scripts)| ==>
      (Rows(data, scripts)[i].script in data &&
       Rows(data, scripts)[i] == RowFor(Rows(data, scripts)[i].script, data[Rows(data, scripts)[i].script]))
  {
    RowScripts(data, scripts);
  }

  /** The loop of `generate_html` over the sorted scripts. */
  method BuildRows(data: Data, scripts: seq<string>) returns (rows: seq<Row>)
    requires forall s :: s in scripts ==> s in data
    ensures rows == Rows(data, scripts)
  {
    rows := [];
    var i := 0;
    while i < |scripts|
      invariant 0 <= i <= |scripts|
      invariant rows == Rows(data, scripts)[..i]
    {
      var row := BuildRow(scripts[i], data[scripts[i]]);
      assert Rows(data, scripts)[..i + 1] == Rows(data, scripts)[..i] + [row];
      rows := rows + [row];
      i := i + 1;
    }
  }

  /** `sorted(data.keys())`. */
  method SortedScripts(data: Data) returns (scripts: seq<string>)
    ensures forall i, j :: 0 <= i < j < |scripts| ==> StrLess(scripts[i], scripts[j])
    ensures forall s :: s in data <==> s in scripts
    ensures |scripts| == |data.Keys|
  {
    StrLessIsStrictTotalOrder();
    scripts := SortedSet(data.Keys, StrLess);
  }

  /** One data row: the script's name and its four metric groups. */
  method BuildRow(script: string, row: map<string, Engine>) returns (r: Row)
    ensures r == RowFor(script, row)
    ensures r.script == script
  {
    var rps := BuildGroup(row, Rps);
    var avg := BuildGroup(row, AvgLatency);
    var p50 := BuildGroup(row, P50);
    var p99 := BuildGroup(row, P99);
    r := Row(script, rps, avg, p50, p99);
  }

  // ---- What a cell shows

  /** An engine without a result shows "N/A", is never highlighted, and its
      delta is empty and uncoloured. */
  lemma AbsentEngineCell(row: map<string, Engine>, m: Metric, server: Server)
    requires DockerName(server) !in row
    ensures CellFor(row, m, server).rank == Unranked
    ensures CellFor(row, m, server).text == NotAvailable
    ensures server != Nginx ==> CellFor(row, m, server).delta == Some((NoColor, NoDelta))
  {
  }

  /** Without an nginx result no delta is shown at all. */
  lemma NoBaselineNoDelta(row: map<string, Engine>, m: Metric, server: Server)
    requires "nginx" !in row && server != Nginx
    ensures CellFor(row, m, server).delta == Some((NoColor, NoDelta))
  {
  }

  /** Against a positive nginx value, a delta is green exactly when the engine
      is at least as good as nginx, and carries a '+' exactly when the engine's
      value is at least nginx's. */
  lemma DeltaCellMeaning(row: map<string, Engine>, m: Metric, server: Server, c: real, b: real)
    requires server != Nginx
    requires Reading(row, Nginx, m) == Value(b) && b > 0.0 && Reading(row, server, m) == Value(c)
    ensures CellFor(row, m, server).delta.Some?
    ensures CellFor(row, m, server).delta.value.0 == Green <==> if HigherIsBetter(m) then c >= b else c <= b
    ensures CellFor(row, m, server).delta.value.1.Percent?
    ensures CellFor(row, m, server).delta.value.1.plus <==> c >= b
  {
    ColorOfComparison(c, b, HigherIsBetter(m));
    DeltaSign(c, b);
  }

  /** An engine that is the only one with a result is both best and worst. */
  lemma SoleEngineBestAndWorst(row: map<string, Engine>, m: Metric, server: Server, x: real)
    requires Reading(row, server, m) == Value(x)
    requires forall s: Server :: s != server ==> Reading(row, s, m).NaN?
    ensures CellFor(row, m, server).rank == Rank(true, true)
  {
    var values := Readings(row, m);
    assert values[0].0 == Nginx && values[1].0 == FrankenPhp && values[2].0 == FrankenRpm;
    assert forall i :: 0 <= i < |values| ==> values[i].1 == Reading(row, values[i].0, m);
    assert forall i :: 0 <= i < |values| && values[i].1.Value? ==> values[i].0 == server;
    var k := if server == Nginx then 0 else if server == FrankenPhp then 1 else 2;
    assert values[k].1.Value?;
    AllEqualBestWorst(values, HigherIsBetter(m), x);
  }
}
