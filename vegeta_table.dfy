/** `main` of vegeta/generate-all.py: every `<test>-<server>.bin` report is
    filed under its test and server, and the comparison table has one section
    per test (in sorted order) with one column per server (in sorted order).
    The first server with data for a test is its baseline; every other
    server's value carries its change against it. */
module VegetaTable {
  import opened Numeric
  import opened Text
  import opened Ordering
  import opened Nesting
  import opened VegetaMetrics

  // ---- File names

  /** `stem.split('-')` with at least two parts: the test is the first part
      and the server the remaining parts joined again with '-'. */
  function ParseStem(stem: string): (r: Option<(string, string)>)
    ensures r.Some? <==> '-' in stem
  {
    var parts := Split(stem, '-');
    SplitCount(stem, '-');
    if |parts| >= 2 then Some((parts[0], Join(parts[1..], '-'))) else None
  }

  /** `code1-nginx` is test `code1` on server `nginx`; a server name may
      itself contain '-'. */
  lemma ParseStemOfName(test: string, server: string)
    requires '-' !in test
    ensures ParseStem(test + "-" + server) == Some((test, server))
  {
    assert test + "-" + server == test + ['-'] + server;
    SplitConcat(test, '-', server);
    SplitFree(test, '-');
    var parts := Split(test + "-" + server, '-');
    assert parts == [test] + Split(server, '-');
    assert parts[1..] == Split(server, '-');
    JoinSplit(server, '-');
  }

  /** What a stem parses to spells the stem again, and the test holds no '-'. */
  lemma ParseStemInverse(stem: string)
    requires ParseStem(stem).Some?
    ensures ParseStem(stem).value.0 + "-" + ParseStem(stem).value.1 == stem
    ensures '-' !in ParseStem(stem).value.0
  {
    var parts := Split(stem, '-');
    JoinSplit(stem, '-');
    JoinCons(parts[0], parts[1..], '-');
    assert [parts[0]] + parts[1..] == parts;
    SplitPartsFree(stem, '-');
    assert '-' !in parts[0];
  }

  /** A stem without '-' names no test and is skipped. */
  lemma StemWithoutDash(stem: string)
    requires '-' !in stem
    ensures ParseStem(stem) == None
  {
    SplitFree(stem, '-');
  }

  // ---- Collecting the reports

  type Data = map<string, map<string, Metrics>>

  /** What one `*.bin` file contributes, given the report `vegeta report`
      prints for each path. */
  function BinEntry(path: string, report: string -> Report): Option<(string, string, Metrics)> {
    match ParseStem(Stem(path))
    case None => None
    case Some((test, server)) => Some((test, server, MetricsOf(report(path))))
  }

  function BinEntries(paths: seq<string>, report: string -> Report): (es: seq<Option<(string, string, Metrics)>>)
    ensures |es| == |paths|
    ensures forall i :: 0 <= i < |paths| ==> es[i] == BinEntry(paths[i], report)
  {
    seq(|paths|, i requires 0 <= i < |paths| => BinEntry(paths[i], report))
  }

  /** The collected data: `data[test][server]` for every parsed name, a
      later file replacing an earlier one with the same stem. */
  function Organized(paths: seq<string>, report: string -> Report): Data {
    Nest(BinEntries(paths, report))
  }

  /** The glob loop: `data[test][server] = get_metrics(path)` per parsed name,
      in the order the directory lists the files. */
  method Organize(paths: seq<string>, report: string -> Report) returns (data: Data)
    ensures data == Organized(paths, report)
  {
    ghost var entries := BinEntries(paths, report);
    data := map[];
    var i := 0;
    while i < |paths|
      invariant 0 <= i <= |paths|
      invariant data == Nest(entries[..i])
    {
      NestPrefixStep(entries, i);
      data := StoreBin(data, paths[i], report);
      i := i + 1;
    }
    assert entries[..i] == entries;
  }

  /** The loop body for one path: parse its stem, and file its metrics. */
  method StoreBin(data: Data, path: string, report: string -> Report) returns (data': Data)
    ensures data' == Put(data, BinEntry(path, report))
  {
    data' := data;
    var parsed := ParseStem(Stem(path));
    if parsed.Some? {
      var (test, server) := parsed.value;
      var metrics := MetricsOf(report(path));
      assert BinEntry(path, report) == Some((test, server, metrics));
      data' := PutMetrics(data, test, server, metrics);
    }
  }

  /** A test and server have metrics exactly when some path's stem names them. */
  lemma OrganizedEntries(paths: seq<string>, report: string -> Report, test: string, server: string)
    ensures (test in Organized(paths, report) && server in Organized(paths, report)[test])
      <==> exists i :: 0 <= i < |paths| && ParseStem(Stem(paths[i])) == Some((test, server))
  {
    var es := BinEntries(paths, report);
    NestEntries(es, test, server);
    forall i | 0 <= i < |paths| ensures Sets(es, i, test, server) <==> ParseStem(Stem(paths[i])) == Some((test, server)) {
      BinEntryNames(paths[i], report, test, server);
    }
  }

  /** The metrics filed are those of the last path naming the test and server. */
  lemma OrganizedLastWins(paths: seq<string>, report: string -> Report, i: int, test: string, server: string)
    requires 0 <= i < |paths| && ParseStem(Stem(paths[i])) == Some((test, server))
    requires forall j :: i < j < |paths| ==> ParseStem(Stem(paths[j])) != Some((test, server))
    ensures test in Organized(paths, report) && server in Organized(paths, report)[test]
    ensures Organized(paths, report)[test][server] == MetricsOf(report(paths[i]))
  {
    var es := BinEntries(paths, report);
    forall j | 0 <= j < |paths| ensures Sets(es, j, test, server) <==> ParseStem(Stem(paths[j])) == Some((test, server)) {
      BinEntryNames(paths[j], report, test, server);
    }
    NestLastWins(es, i, test, server);
  }

  lemma BinEntryNames(path: string, report: string -> Report, test: string, server: string)
    ensures (BinEntry(path, report).Some? && BinEntry(path, report).value.0 == test && BinEntry(path, report).value.1 == server)
      <==> ParseStem(Stem(path)) == Some((test, server))
  {
  }

  /** `data[test][server] = metrics` on a `defaultdict(dict)`. */
  method PutMetrics(data: Data, test: string, server: string, metrics: Metrics) returns (data': Data)
    ensures data' == Put(data, Some((test, server, metrics)))
  {
    var group := if test in data then data[test] else map[];
    data' := data[test := group[server := metrics]];
  }

  // ---- Servers and baselines

  /** Every server that has data for some test. */
  function Servers(data: Data): set<string> {
    set t, s | t in data && s in data[t] :: s
  }

  /** `sorted(set(server for test_data in data.values() for server in test_data))`. */
  method AllServers(data: Data) returns (servers: seq<string>)
    ensures StrictlySorted(servers, StrLess)
    ensures forall s :: s in servers <==> exists t :: t in data && s in data[t]
  {
    StrLessIsStrictTotalOrder();
    servers := SortedSet(Servers(data), StrLess);
  }

  /** The first of `servers` that has data, if any. */
  function FirstPresent(servers: seq<string>, testData: map<string, Metrics>): (r: Option<string>)
    ensures r.Some? ==> r.value in testData
    ensures r.Some? ==> exists i :: (0 <= i < |servers| && servers[i] == r.value &&
      forall j :: 0 <= j < i ==> servers[j] !in testData)
    ensures r.None? <==> forall i :: 0 <= i < |servers| ==> servers[i] !in testData
  {
    if servers == [] then None
    else if servers[0] in testData then Some(servers[0])
    else
      var r := FirstPresent(servers[1..], testData);
      assert forall i :: 1 <= i < |servers| ==> servers[i] == servers[1..][i - 1];
      if r.Some? then
        ghost var i :| (0 <= i < |servers[1..]| && servers[1..][i] == r.value &&
          forall j :: 0 <= j < i ==> servers[1..][j] !in testData);
        assert servers[i + 1] == r.value;
        r
      else r
  }

  /** The baseline search: the first server in table order with data for
      the test, with a `break` once it is found. */
  method FindBaseline(servers: seq<string>, testData: map<string, Metrics>) returns (baseline: Option<string>)
    ensures baseline == FirstPresent(servers, testData)
  {
    baseline := None;
    var i := 0;
    while i < |servers|
      invariant 0 <= i <= |servers|
      invariant FirstPresent(servers, testData) == FirstPresent(servers[i..], testData)
    {
      if servers[i] in testData {
        baseline := Some(servers[i]);
        break;
      }
      assert servers[i..][1..] == servers[i + 1..];
      i := i + 1;
    }
    if baseline.None? {
      assert servers[i..] == [];
    }
  }

  /** A test with data whose servers are all listed always has a baseline:
      the skip after the search never applies. */
  lemma BaselineFound(servers: seq<string>, testData: map<string, Metrics>)
    requires testData != map[]
    requires forall s :: s in testData ==> s in servers
    ensures FirstPresent(servers, testData).Some?
  {
    var s :| s in testData;
    var i :| 0 <= i < |servers| && servers[i] == s;
  }

  /** With the servers sorted, the baseline is the least server name of the test. */
  lemma BaselineIsLeast(servers: seq<string>, testData: map<string, Metrics>)
    requires StrictlySorted(servers, StrLess)
    requires forall s :: s in testData ==> s in servers
    requires FirstPresent(servers, testData).Some?
    ensures forall s :: s in testData && s != FirstPresent(servers, testData).value ==>
      StrLess(FirstPresent(servers, testData).value, s)
  {
    var b := FirstPresent(servers, testData).value;
    var i :| 0 <= i < |servers| && servers[i] == b && forall j :: 0 <= j < i ==> servers[j] !in testData;
    forall s | s in testData && s != b ensures StrLess(b, s) {
      var k :| 0 <= k < |servers| && servers[k] == s;
      assert k > i;
    }
  }

  /** `if not baseline_server: continue` as written: an empty server name
      (from a file such as `code1-.bin`) is false as well. */
  predicate SkipsAsWritten(baseline: Option<string>) {
    baseline.None? || baseline.value == ""
  }

  /** The intended skip: only when no server was found. */
  predicate Skips(baseline: Option<string>) {
    baseline.None?
  }

  /** A stem ending in '-' (the file `code1-.bin`, say) files its report under
      the empty server name; if that is the test's only report, the written
      check drops the test from the table although it has data. */
  lemma EmptyServerDropsTest(test: string, m: Metrics)
    requires '-' !in test
    ensures ParseStem(test + "-") == Some((test, ""))
    ensures SkipsAsWritten(FirstPresent([""], map["" := m]))
    ensures !Skips(FirstPresent([""], map["" := m]))
  {
    ParseStemOfName(test, "");
    assert test + "-" + "" == test + "-";
    assert [""][0] in map["" := m];
  }

  // ---- Cells

  datatype Metric = Rps | LatencyMean | Latency50 | Latency99

  function ValueOf(m: Metrics, metric: Metric): real {
    match metric
    case Rps => m.rps
    case LatencyMean => m.latencyMean
    case Latency50 => m.latency50
    case Latency99 => m.latency99
  }

  /** The CSS class of a change: `positive` or `negative`. */
  datatype Tone = Positive | Negative

  /** RPS: `'positive' if pct > 0 else 'negative'`; latencies: `'negative' if
      pct > 0 else 'positive'` (lower is better). */
  function ToneOf(metric: Metric, pct: real): (t: Tone)
    ensures metric == Rps ==> (t == Positive <==> pct > 0.0)
    ensures metric != Rps ==> (t == Negative <==> pct > 0.0)
  {
    if metric == Rps then (if pct > 0.0 then Positive else Negative)
    else (if pct > 0.0 then Negative else Positive)
  }

  datatype Cell =
    | Missing                                  // '-': the server has no data
    | BaselineValue(value: real)               // the baseline's own value
    | Change(value: real, pct: real, tone: Tone)  // value and its change in percent
    | SuccessSame(success: int)                // success equal to the baseline's
    | SuccessChange(success: int, diff: int, tone: Tone)  // success and its difference in points

  /** The change against the baseline in percent. */
  function Pct(v: real, b: real): (pct: real)
    requires b != 0.0
    ensures b > 0.0 ==> (pct > 0.0 <==> v > b)
  {
    var d := v - b;
    if b > 0.0 then
      assert d / b > 0.0 <==> d > 0.0 by { QuotientPositive(d, b); }
      d / b * 100.0
    else d / b * 100.0
  }

  lemma QuotientPositive(d: real, b: real)
    requires b > 0.0
    ensures d / b > 0.0 <==> d > 0.0
  {
    assert d == (d / b) * b;
    if d / b > 0.0 {
      assert (d / b) * b > 0.0;
    }
  }

  /** The cell of `server` in the row of `metric`, or `None` where the
      percentage divides by a zero baseline (Python raises
      ZeroDivisionError there). */
  function MetricCell(testData: map<string, Metrics>, baseline: string, server: string, metric: Metric): (c: Option<Cell>)
    requires baseline in testData
    ensures c == Some(Missing) <==> server !in testData
    ensures c.Some? && c.value.BaselineValue? <==> server == baseline
    ensures c.None? <==> server in testData && server != baseline && ValueOf(testData[baseline], metric) == 0.0
    ensures c.Some? && c.value.Change? ==> (c.value.value == ValueOf(testData[server], metric)
      && c.value.pct == Pct(ValueOf(testData[server], metric), ValueOf(testData[baseline], metric))
      && c.value.tone == ToneOf(metric, c.value.pct))
    ensures c.Some? && c.value.BaselineValue? ==> c.value.value == ValueOf(testData[server], metric)
    ensures c.Some? ==> c.value.Missing? || c.value.BaselineValue? || c.value.Change?
  {
    if server !in testData then Some(Missing)
    else
      var v := ValueOf(testData[server], metric);
      if server == baseline then Some(BaselineValue(v))
      else
        var b := ValueOf(testData[baseline], metric);
        if b == 0.0 then None
        else
          var pct := Pct(v, b);
          Some(Change(v, pct, ToneOf(metric, pct)))
  }

  /** The success cell: the difference is in percentage points, and a
      difference of 0 shows no annotation. */
  function SuccessCell(testData: map<string, Metrics>, baseline: string, server: string): (c: Cell)
    requires baseline in testData
    ensures c == Missing <==> server !in testData
    ensures c.BaselineValue? <==> server == baseline
    ensures c.SuccessSame? <==> server in testData && server != baseline && testData[server].success == testData[baseline].success
    ensures c.SuccessChange? ==> (c.diff == testData[server].success - testData[baseline].success && c.diff != 0
      && (c.tone == Positive <==> c.diff > 0))
    ensures c.BaselineValue? ==> c.value == testData[server].success as real
    ensures c.SuccessSame? || c.SuccessChange? ==> c.success == testData[server].success
    ensures c.Missing? || c.BaselineValue? || c.SuccessSame? || c.SuccessChange?
  {
    if server !in testData then Missing
    else
      var success := testData[server].success;
      if server == baseline then BaselineValue(success as real)
      else
        var diff := success - testData[baseline].success;
        if diff == 0 then SuccessSame(success)
        else SuccessChange(success, diff, if diff > 0 then Positive else Negative)
  }

  /** One metric row over all servers, or `None` if a cell divides by zero. */
  function MetricRow(servers: seq<string>, testData: map<string, Metrics>, baseline: string, metric: Metric): (row: Option<seq<Cell>>)
    requires baseline in testData
    ensures row.Some? ==> |row.value| == |servers|
    ensures row.Some? ==> forall i :: 0 <= i < |servers| ==> Some(row.value[i]) == MetricCell(testData, baseline, servers[i], metric)
    ensures row.None? <==> exists i :: 0 <= i < |servers| && MetricCell(testData, baseline, servers[i], metric).None?
  {
    if servers == [] then Some([])
    else
      var init := MetricRow(servers[..|servers| - 1], testData, baseline, metric);
      var last := MetricCell(testData, baseline, servers[|servers| - 1], metric);
      assert forall i :: 0 <= i < |servers| - 1 ==> servers[..|servers| - 1][i] == servers[i];
      if init.None? || last.None? then None
      else Some(init.value + [last.value])
  }

  /** The rows of one test's section: requests per second, the three
      latencies, and the success rate. */
  datatype Section = Section(test: string, rps: seq<Cell>, mean: seq<Cell>, p50: seq<Cell>, p99: seq<Cell>, success: seq<Cell>)

  function SuccessRow(servers: seq<string>, testData: map<string, Metrics>, baseline: string): (row: seq<Cell>)
    requires baseline in testData
    ensures |row| == |servers|
    ensures forall i :: 0 <= i < |servers| ==> row[i] == SuccessCell(testData, baseline, servers[i])
  {
    seq(|servers|, i requires 0 <= i < |servers| => SuccessCell(testData, baseline, servers[i]))
  }

  function SectionFor(test: string, servers: seq<string>, testData: map<string, Metrics>, baseline: string): Option<Section>
    requires baseline in testData
  {
    var rps := MetricRow(servers, testData, baseline, Rps);
    var mean := MetricRow(servers, testData, baseline, LatencyMean);
    var p50 := MetricRow(servers, testData, baseline, Latency50);
    var p99 := MetricRow(servers, testData, baseline, Latency99);
    if rps.None? || mean.None? || p50.None? || p99.None? then None
    else Some(Section(test, rps.value, mean.value, p50.value, p99.value, SuccessRow(servers, testData, baseline)))
  }

  /** Every row of a section has one cell per server. */
  lemma SectionIsRectangular(test: string, servers: seq<string>, testData: map<string, Metrics>, baseline: string)
    requires baseline in testData
    requires SectionFor(test, servers, testData, baseline).Some?
    ensures var s := SectionFor(test, servers, testData, baseline).value;
      |s.rps| == |s.mean| == |s.p50| == |s.p99| == |s.success| == |servers|
  {
  }

  /** A section fails exactly when another server has data and the baseline
      has a zero among the four metrics that take a percentage. */
  lemma SectionFails(test: string, servers: seq<string>, testData: map<string, Metrics>, baseline: string)
    requires baseline in testData
    requires forall s :: s in testData ==> s in servers
    ensures SectionFor(test, servers, testData, baseline).None? <==>
      (exists s :: s in testData && s != baseline) &&
      (exists m: Metric :: ValueOf(testData[baseline], m) == 0.0)
  {
    if exists s :: s in testData && s != baseline {
      var s :| s in testData && s != baseline;
      var i :| 0 <= i < |servers| && servers[i] == s;
      forall m: Metric | ValueOf(testData[baseline], m) == 0.0
        ensures MetricRow(servers, testData, baseline, m).None?
      {
        assert MetricCell(testData, baseline, servers[i], m).None?;
      }
      assert ValueOf(testData[baseline], Rps) == testData[baseline].rps;
      assert ValueOf(testData[baseline], LatencyMean) == testData[baseline].latencyMean;
      assert ValueOf(testData[baseline], Latency50) == testData[baseline].latency50;
      assert ValueOf(testData[baseline], Latency99) == testData[baseline].latency99;
    }
  }

  // ---- The whole table

  /** How the program ends: the two errors it reports before exiting with
      status 1, the uncaught ZeroDivisionError, or the table it writes. */
  datatype Outcome =
    | DirectoryMissing
    | NoData
    | DivisionByZero
    | Table(servers: seq<string>, sections: seq<Section>)

  /** The section of `test` cannot be built: it has a baseline, and one of
      its percentages divides by zero. */
  ghost predicate TestFails(data: Data, servers: seq<string>, test: string)
    requires test in data
  {
    FirstPresent(servers, data[test]).Some? &&
    SectionFor(test, servers, data[test], FirstPresent(servers, data[test]).value).None?
  }

  /** Every test has a server, and every server is a column. */
  predicate Filed(data: Data, servers: seq<string>) {
    && (forall t :: t in data ==> data[t] != map[])
    && (forall t, s :: t in data && s in data[t] ==> s in servers)
  }

  /** One test's section, against the first server with data for it. */
  function TestSectionOf(data: Data, servers: seq<string>, test: string): Option<Section>
    requires Filed(data, servers) && test in data
  {
    BaselineFound(servers, data[test]);
    SectionFor(test, servers, data[test], FirstPresent(servers, data[test]).value)
  }

  /** Each test's section, in the order of `tests`. */
  function TestSections(data: Data, servers: seq<string>, tests: seq<string>): (ss: seq<Option<Section>>)
    requires Filed(data, servers)
    requires forall t :: t in tests ==> t in data
    ensures |ss| == |tests|
  {
    seq(|tests|, j requires 0 <= j < |tests| => TestSectionOf(data, servers, tests[j]))
  }

  /** The sections of `tests` in order, or `None` once one of them raises. */
  function SectionsFor(data: Data, servers: seq<string>, tests: seq<string>): Option<seq<Section>>
    requires Filed(data, servers)
    requires forall t :: t in tests ==> t in data
  {
    AllSome(TestSections(data, servers, tests))
  }

  /** What `main()` ends with once it has data: the table of its sections
      over the sorted servers and tests, or the division by zero. */
  ghost function TableFor(data: Data): Outcome
    requires forall t :: t in data ==> data[t] != map[]
  {
    var servers := SortedServersOf(data);
    ServersFiled(data);
    match SectionsFor(data, servers, SortedOf(data.Keys))
    case None => DivisionByZero
    case Some(sections) => Table(servers, sections)
  }

  /** `main()`, given whether the `vegeta` directory exists, the `*.bin`
      paths in the order the directory lists them, and each path's report. */
  method GenerateAll(dirExists: bool, paths: seq<string>, report: string -> Report) returns (out: Outcome)
    ensures !dirExists ==> out == DirectoryMissing
    ensures dirExists && Organized(paths, report) == map[] ==> out == NoData
    ensures dirExists && Organized(paths, report) != map[] ==>
      (forall t :: t in Organized(paths, report) ==> Organized(paths, report)[t] != map[]) &&
      out == TableFor(Organized(paths, report))
  {
    if !dirExists {
      return DirectoryMissing;
    }
    var data := Organize(paths, report);
    if data == map[] {
      return NoData;
    }
    NoEmptyTests(paths, report);
    out := Tabulate(data);
  }

  /** The table of collected data: servers in sorted order, and one section
      per test in sorted order, each the one its data and baseline give. */
  ghost predicate TableOf(data: Data, servers: seq<string>, sections: seq<Section>) {
    && servers == SortedServersOf(data)
    && |sections| == |data|
    && StrictlySorted(SectionTests(sections), StrLess)
    && (forall t :: t in data <==> t in SectionTests(sections))
    && (forall i :: 0 <= i < |sections| ==> SectionOk(data, servers, sections[i]))
  }

  /** Every server of the data is a column of the sorted servers. */
  lemma ServersFiled(data: Data)
    requires forall t :: t in data ==> data[t] != map[]
    ensures Filed(data, SortedServersOf(data))
  {
    forall t, s | t in data && s in data[t] ensures s in SortedServersOf(data) {
      assert s in Servers(data);
    }
  }

  /** The program either writes the table, laid out as `TableOf` says, or
      raises, and it raises exactly when some test's section divides by zero. */
  lemma TableForMeaning(data: Data)
    requires forall t :: t in data ==> data[t] != map[]
    ensures TableFor(data).Table? || TableFor(data).DivisionByZero?
    ensures TableFor(data).Table? ==> TableOf(data, TableFor(data).servers, TableFor(data).sections)
    ensures TableFor(data).DivisionByZero? <==> exists t :: t in data && TestFails(data, SortedServersOf(data), t)
  {
    var servers := SortedServersOf(data);
    var tests := SortedOf(data.Keys);
    ServersFiled(data);
    SectionsForShape(data, servers, tests);
    var r := SectionsFor(data, servers, tests);
    if r.Some? {
      TableLayout(data, servers, tests, r.value);
    }
    RaisesExactly(data, servers, tests);
  }

  /** The sorted tests raise exactly when one test of the data does. */
  lemma RaisesExactly(data: Data, servers: seq<string>, tests: seq<string>)
    requires Filed(data, servers)
    requires tests == SortedOf(data.Keys)
    ensures SectionsFor(data, servers, tests).None? <==> exists t :: t in data && TestFails(data, servers, t)
  {
    SectionsForShape(data, servers, tests);
    if SectionsFor(data, servers, tests).None? {
      var j :| 0 <= j < |tests| && TestSectionOf(data, servers, tests[j]).None?;
      TestSectionMeaning(data, servers, tests[j]);
    }
    if exists t :: t in data && TestFails(data, servers, t) {
      var t :| t in data && TestFails(data, servers, t);
      FailingTestRaises(data, servers, tests, t);
    }
  }

  lemma FailingTestRaises(data: Data, servers: seq<string>, tests: seq<string>, t: string)
    requires Filed(data, servers)
    requires forall t :: t in tests ==> t in data
    requires t in tests && TestFails(data, servers, t)
    ensures SectionsFor(data, servers, tests).None?
  {
    TestSectionMeaning(data, servers, t);
    var j :| 0 <= j < |tests| && tests[j] == t;
    SectionsForShape(data, servers, tests);
  }

  /** Sections built for the sorted tests make up the table `TableOf` describes. */
  lemma TableLayout(data: Data, servers: seq<string>, tests: seq<string>, sections: seq<Section>)
    requires Filed(data, servers) && servers == SortedServersOf(data)
    requires tests == SortedOf(data.Keys)
    requires |sections| == |tests|
    requires forall j :: 0 <= j < |tests| ==> Some(sections[j]) == TestSectionOf(data, servers, tests[j])
    ensures TableOf(data, servers, sections)
  {
    SectionsNamed(data, servers, tests, sections);
  }

  lemma SectionsNamed(data: Data, servers: seq<string>, tests: seq<string>, sections: seq<Section>)
    requires Filed(data, servers)
    requires forall t :: t in tests ==> t in data
    requires |sections| == |tests|
    requires forall j :: 0 <= j < |tests| ==> Some(sections[j]) == TestSectionOf(data, servers, tests[j])
    ensures SectionTests(sections) == tests
    ensures forall j :: 0 <= j < |sections| ==> SectionOk(data, servers, sections[j])
  {
    forall j | 0 <= j < |tests| ensures sections[j].test == tests[j] && SectionOk(data, servers, sections[j]) {
      TestSectionMeaning(data, servers, tests[j]);
    }
  }

  /** One test's section exists exactly when the test does not raise, and
      then it is the section of that test against its baseline. */
  lemma TestSectionMeaning(data: Data, servers: seq<string>, test: string)
    requires Filed(data, servers) && test in data
    ensures TestSectionOf(data, servers, test).None? <==> TestFails(data, servers, test)
    ensures TestSectionOf(data, servers, test).Some? ==> (
      TestSectionOf(data, servers, test).value.test == test &&
      SectionOk(data, servers, TestSectionOf(data, servers, test).value))
  {
    BaselineFound(servers, data[test]);
  }

  /** The sections are those of the tests one by one, and there are none
      exactly when one test's section raises. */
  lemma SectionsForShape(data: Data, servers: seq<string>, tests: seq<string>)
    requires Filed(data, servers)
    requires forall t :: t in tests ==> t in data
    ensures SectionsFor(data, servers, tests).Some? ==> (
      |SectionsFor(data, servers, tests).value| == |tests| &&
      forall j :: 0 <= j < |tests| ==> Some(SectionsFor(data, servers, tests).value[j]) == TestSectionOf(data, servers, tests[j]))
    ensures SectionsFor(data, servers, tests).None? <==>
      exists j :: 0 <= j < |tests| && TestSectionOf(data, servers, tests[j]).None?
  {
    AllSomeShape(TestSections(data, servers, tests));
  }

  /** The table, or the division by zero of the first test that raises it. */
  method Tabulate(data: Data) returns (out: Outcome)
    requires forall t :: t in data ==> data[t] != map[]
    ensures out == TableFor(data)
  {
    var servers := AllServers(data);
    SortedServersUnique(data, servers);
    StrLessIsStrictTotalOrder();
    var tests := SortedSet(data.Keys, StrLess);
    SortedIsSortedOf(tests, data.Keys);
    var sections := BuildSections(data, servers, tests);
    if sections.None? {
      return DivisionByZero;
    }
    out := Table(servers, sections.value);
  }

  /** The `for test in sorted(data.keys())` loop; it stops at the first
      test whose section raises. */
  method BuildSections(data: Data, servers: seq<string>, tests: seq<string>) returns (sections: Option<seq<Section>>)
    requires Filed(data, servers)
    requires forall t :: t in tests ==> t in data
    ensures sections == SectionsFor(data, servers, tests)
  {
    ghost var all := TestSections(data, servers, tests);
    var done: seq<Section> := [];
    var i := 0;
    while i < |tests|
      invariant 0 <= i <= |tests|
      invariant AllSome(all[..i]) == Some(done)
    {
      var section := TestSection(data, servers, tests[i]);
      assert all[i] == section;
      if section.None? {
        AllSomeGap(all, i);
        return None;
      }
      AllSomeSnoc(all, i, done);
      done := done + [section.value];
      i := i + 1;
    }
    assert all[..i] == all;
    sections := Some(done);
  }

  /** One iteration: find the baseline, skip the test if there is none, and
      build its section. */
  method TestSection(data: Data, servers: seq<string>, test: string) returns (section: Option<Section>)
    requires Filed(data, servers) && test in data
    ensures section == TestSectionOf(data, servers, test)
  {
    var testData := data[test];
    var baseline := FindBaseline(servers, testData);
    if Skips(baseline) {
      BaselineFound(servers, testData);
      assert false;
    }
    section := BuildSection(test, servers, testData, baseline.value);
  }

  /** The servers column order the table uses: the sorted server names. */
  ghost function SortedServersOf(data: Data): (servers: seq<string>)
    ensures StrictlySorted(servers, StrLess)
    ensures forall s :: s in servers <==> s in Servers(data)
  {
    SortedOf(Servers(data))
  }

  lemma SortedServersUnique(data: Data, servers: seq<string>)
    requires StrictlySorted(servers, StrLess)
    requires forall s :: s in servers <==> exists t :: t in data && s in data[t]
    ensures servers == SortedServersOf(data)
  {
    forall x ensures x in servers <==> x in Servers(data) {
      assert x in Servers(data) <==> exists t :: t in data && x in data[t];
    }
    SortedIsSortedOf(servers, Servers(data));
  }

  function SectionTests(sections: seq<Section>): (tests: seq<string>)
    ensures |tests| == |sections|
    ensures forall i :: 0 <= i < |sections| ==> tests[i] == sections[i].test
  {
    seq(|sections|, i requires 0 <= i < |sections| => sections[i].test)
  }

  /** A section of the table is the one its test's data and baseline give. */
  ghost predicate SectionOk(data: Data, servers: seq<string>, s: Section) {
    && s.test in data
    && FirstPresent(servers, data[s.test]).Some?
    && SectionFor(s.test, servers, data[s.test], FirstPresent(servers, data[s.test]).value) == Some(s)
  }

  /** Every test that was filed has at least one server. */
  lemma NoEmptyTests(paths: seq<string>, report: string -> Report)
    ensures forall t :: t in Organized(paths, report) ==> Organized(paths, report)[t] != map[]
  {
    NestNoEmptyGroups(BinEntries(paths, report));
  }

  /** One test's section: the header and the five rows, each over all servers. */
  method BuildSection(test: string, servers: seq<string>, testData: map<string, Metrics>, baseline: string) returns (section: Option<Section>)
    requires baseline in testData
    ensures section == SectionFor(test, servers, testData, baseline)
  {
    var rps := BuildRow(servers, testData, baseline, Rps);
    var mean := BuildRow(servers, testData, baseline, LatencyMean);
    var p50 := BuildRow(servers, testData, baseline, Latency50);
    var p99 := BuildRow(servers, testData, baseline, Latency99);
    if rps.None? || mean.None? || p50.None? || p99.None? {
      return None;
    }
    var success := BuildSuccessRow(servers, testData, baseline);
    section := Some(Section(test, rps.value, mean.value, p50.value, p99.value, success));
  }

  /** The `for server in all_servers` loop of one metric row; it stops where
      the division raises. */
  method BuildRow(servers: seq<string>, testData: map<string, Metrics>, baseline: string, metric: Metric) returns (row: Option<seq<Cell>>)
    requires baseline in testData
    ensures row == MetricRow(servers, testData, baseline, metric)
  {
    var cells := [];
    var i := 0;
    while i < |servers|
      invariant 0 <= i <= |servers|
      invariant MetricRow(servers[..i], testData, baseline, metric) == Some(cells)
    {
      assert servers[..i + 1][..i] == servers[..i];
      var cell := MetricCell(testData, baseline, servers[i], metric);
      if cell.None? {
        RowFailsFrom(servers, i + 1, testData, baseline, metric);
        return None;
      }
      cells := cells + [cell.value];
      i := i + 1;
    }
    assert servers[..i] == servers;
    row := Some(cells);
  }

  /** A cell that divides by zero fails the whole row. */
  lemma RowFailsFrom(servers: seq<string>, n: int, testData: map<string, Metrics>, baseline: string, metric: Metric)
    requires baseline in testData
    requires 0 < n <= |servers| && MetricCell(testData, baseline, servers[n - 1], metric).None?
    ensures MetricRow(servers, testData, baseline, metric).None?
  {
  }

  method BuildSuccessRow(servers: seq<string>, testData: map<string, Metrics>, baseline: string) returns (row: seq<Cell>)
    requires baseline in testData
    ensures row == SuccessRow(servers, testData, baseline)
  {
    row := [];
    var i := 0;
    while i < |servers|
      invariant 0 <= i <= |servers|
      invariant row == SuccessRow(servers, testData, baseline)[..i]
    {
      row := row + [SuccessCell(testData, baseline, servers[i])];
      i := i + 1;
    }
  }
}
