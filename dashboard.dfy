/** generate-dashboard.py: the metrics and a downsample of the records of
    each vegeta result file given on the command line, keyed by the file's
    stem, and the charts of the page drawn from them. */
module Dashboard {
  import opened Numeric
  import opened Text
  import opened VegetaMetrics
  import opened Sampling
  import opened Throughput
  import opened OrderedDict

  /** What `get_metrics` returns here: the report's metrics together with
      the sampled records and the stride that produced them. */
  datatype Sampled = Sampled(metrics: Metrics, results: seq<Record>, sampleRate: int)

  /** The metrics of a report and a sample of its encoded records, with the
      record `NR` kept when `(NR - 1) % sample_rate == 0`. */
  function SampledOf(report: Report, records: seq<Record>): Sampled {
    var metrics := MetricsOf(report);
    var k := SampleRate(metrics.totalRequests);
    Sampled(metrics, Samples(records, k), k)
  }

  /** The sample as the awk filter `NR % sample_rate == 1` writes it: the
      same metrics and stride as the intended one, other kept records. */
  function SampledAsWritten(report: Report, records: seq<Record>): (s: Sampled)
    ensures s.metrics == SampledOf(report, records).metrics
    ensures s.sampleRate == SampledOf(report, records).sampleRate
  {
    var metrics := MetricsOf(report);
    var k := SampleRate(metrics.totalRequests);
    Sampled(metrics, SelectAsWritten(records, k), k)
  }

  /** `get_metrics(vegeta_bin)`, given the report `vegeta report` prints and
      the records `vegeta encode` prints for the file. */
  method GetMetrics(report: Report, records: seq<Record>) returns (s: Sampled)
    ensures s == SampledOf(report, records)
  {
    var metrics := MetricsOf(report);
    var k := SampleRate(metrics.totalRequests);
    var results := CollectSamples(records, k);
    s := Sampled(metrics, results, k);
  }

  /** The sample: every `k`-th record from the first, `k` at least 1 and
      below 400 requests exactly 1, so that a non-empty result file always
      yields a non-empty sample. */
  lemma SampleShape(report: Report, records: seq<Record>)
    ensures var s := SampledOf(report, records);
      && s.sampleRate >= 1
      && (s.sampleRate == 1 <==> report.requests < 400)
      && |s.results| == KeptCount(|records|, s.sampleRate)
      && (forall j :: 0 <= j < |s.results| ==> 0 <= j * s.sampleRate < |records| && s.results[j] == records[j * s.sampleRate])
      && (records != [] ==> s.results != [])
  {
    var s := SampledOf(report, records);
    if records != [] {
      KeptCountOfNonEmpty(|records|, s.sampleRate);
    }
  }

  /** When the file holds as many records as the report counts requests,
      from 400 requests on the sample has between 200 and 300 records. */
  lemma SampleSize(report: Report, records: seq<Record>)
    requires |records| == report.requests >= 400
    ensures 200 <= |SampledOf(report, records).results| <= 300
  {
    SampleSizeBounds(|records|);
  }

  /** Below 400 requests the written filter samples nothing at all, so the
      throughput chart has no first record to start from. */
  lemma EmptySampleAsWritten(report: Report, records: seq<Record>)
    requires report.requests < 400
    ensures SampledAsWritten(report, records).results == []
  {
    NoSamplesBelow400(records, report.requests);
  }

  /** From 400 requests on, the written filter gives the intended sample. */
  lemma AsWrittenFrom400(report: Report, records: seq<Record>)
    requires report.requests >= 400
    ensures SampledAsWritten(report, records) == SampledOf(report, records)
  {
  }

  // ---- Collecting the files

  /** The `(stem, metrics)` pairs of the files, in command-line order. */
  function Pairs(bins: seq<string>, report: string -> Report, encode: string -> seq<Record>): (ps: seq<(string, Sampled)>)
    ensures |ps| == |bins|
    ensures forall i :: 0 <= i < |bins| ==> ps[i] == (Stem(bins[i]), SampledOf(report(bins[i]), encode(bins[i])))
  {
    seq(|bins|, i requires 0 <= i < |bins| => (Stem(bins[i]), SampledOf(report(bins[i]), encode(bins[i]))))
  }

  /** `all_data` after the loop over the files. */
  function Collected(bins: seq<string>, report: string -> Report, encode: string -> seq<Record>): Dict<string, Sampled> {
    FromPairs(Pairs(bins, report, encode))
  }

  /** The loop `all_data[Path(bin_path).stem] = get_metrics(bin_path)`. */
  method Collect(bins: seq<string>, report: string -> Report, encode: string -> seq<Record>) returns (d: Dict<string, Sampled>)
    ensures d == Collected(bins, report, encode)
  {
    ghost var pairs := Pairs(bins, report, encode);
    d := Dict([], map[]);
    var i := 0;
    while i < |bins|
      invariant 0 <= i <= |bins|
      invariant d == FromPairs(pairs[..i])
    {
      FromPairsPrefixStep(pairs, i);
      var s := GetMetrics(report(bins[i]), encode(bins[i]));
      assert pairs[i] == (Stem(bins[i]), s);
      d := Store(d, Stem(bins[i]), s);
      i := i + 1;
    }
    assert pairs[..i] == pairs;
  }

  /** The stems of the files. */
  function Stems(bins: seq<string>): (ss: seq<string>)
    ensures |ss| == |bins| && forall i :: 0 <= i < |bins| ==> ss[i] == Stem(bins[i])
  {
    seq(|bins|, i requires 0 <= i < |bins| => Stem(bins[i]))
  }

  /** Each stem is shown once, in the order of its first file; the charts'
      `filenames` are these keys. */
  lemma CollectedOrder(bins: seq<string>, report: string -> Report, encode: string -> seq<Record>)
    ensures var names := Collected(bins, report, encode).keys;
      && (forall i, j :: 0 <= i < j < |names| ==> names[i] != names[j])
      && (forall f :: f in names <==> f in Stems(bins))
      && (forall i, j :: 0 <= i < j < |names| ==> FirstIndex(Stems(bins), names[i]) < FirstIndex(Stems(bins), names[j]))
  {
    var ps := Pairs(bins, report, encode);
    assert Firsts(ps) == Stems(bins);
    FromPairsOrder(ps);
    forall f ensures f in Collected(bins, report, encode).keys <==> f in Stems(bins) {
      FromPairsKeys(ps, f);
    }
  }

  /** Two files with the same stem (`a/x.bin`, `b/x.bin`) share one entry,
      holding the metrics of the later file. */
  lemma CollectedLastWins(bins: seq<string>, report: string -> Report, encode: string -> seq<Record>, i: int)
    requires 0 <= i < |bins|
    requires forall j :: i < j < |bins| ==> Stem(bins[j]) != Stem(bins[i])
    ensures Stem(bins[i]) in Collected(bins, report, encode).values
    ensures Collected(bins, report, encode).values[Stem(bins[i])] == SampledOf(report(bins[i]), encode(bins[i]))
  {
    FromPairsLastWins(Pairs(bins, report, encode), i);
  }

  // ---- The page

  /** Everything the page shows: the metric cards in key order, the two bar
      charts, the latency-over-time lines, and the throughput lines with
      their average lines (`None` where the chart script throws). */
  datatype Page =
    | Usage
    | Page(
        bench: string,
        filenames: seq<string>,
        data: map<string, Sampled>,
        rpsBars: seq<real>,
        latencyBars: seq<(real, real, real)>,
        latencyLines: seq<seq<(real, real)>>,
        rpsLines: Option<seq<(seq<(real, real)>, seq<(real, real)>)>>)

  /** `main()` on the command line `argv` (the script's own name first). */
  method GenerateDashboard(argv: seq<string>, report: string -> Report, encode: string -> seq<Record>) returns (page: Page)
    ensures page.Usage? <==> |argv| < 3
    ensures page.Page? ==> (page.bench == argv[1]
      && page.filenames == Collected(argv[2..], report, encode).keys
      && page.data == Collected(argv[2..], report, encode).values
      && PageCharts(page))
  {
    if |argv| < 3 {
      return Usage;
    }
    var d := Collect(argv[2..], report, encode);
    var filenames := d.keys;
    var rpsBars, latencyBars, latencyLines := BarsAndLines(filenames, d.values);
    var rpsLines := RpsChart(filenames, d.values);
    page := Page(argv[1], filenames, d.values, rpsBars, latencyBars, latencyLines, rpsLines);
  }

  /** The two bar charts and the latency lines, one entry per file of `fs`. */
  method BarsAndLines(fs: seq<string>, data: map<string, Sampled>)
    returns (rpsBars: seq<real>, latencyBars: seq<(real, real, real)>, latencyLines: seq<seq<(real, real)>>)
    requires forall f :: f in fs ==> f in data
    ensures |rpsBars| == |fs| && |latencyBars| == |fs| && |latencyLines| == |fs|
    ensures forall i :: 0 <= i < |fs| ==> rpsBars[i] == data[fs[i]].metrics.rps
    ensures forall i :: 0 <= i < |fs| ==> (latencyBars[i] ==
      (data[fs[i]].metrics.latencyMean, data[fs[i]].metrics.latency50, data[fs[i]].metrics.latency99))
    ensures forall i :: 0 <= i < |fs| ==> latencyLines[i] == LatencySeries(data[fs[i]].results)
  {
    rpsBars := seq(|fs|, i requires 0 <= i < |fs| => data[fs[i]].metrics.rps);
    latencyBars := seq(|fs|, i requires 0 <= i < |fs| =>
      var m := data[fs[i]].metrics; (m.latencyMean, m.latency50, m.latency99));
    latencyLines := seq(|fs|, i requires 0 <= i < |fs| => LatencySeries(data[fs[i]].results));
  }

  /** The charts follow `filenames`: bar `i` and line `i` are those of
      file `i`, and the throughput chart is drawn exactly when every sample
      is non-empty. */
  ghost predicate PageCharts(page: Page)
    requires page.Page?
  {
    var fs := page.filenames;
    && (forall f :: f in fs ==> f in page.data)
    && |page.rpsBars| == |fs| && |page.latencyBars| == |fs| && |page.latencyLines| == |fs|
    && (forall i :: 0 <= i < |fs| ==> page.rpsBars[i] == page.data[fs[i]].metrics.rps)
    && (forall i :: 0 <= i < |fs| ==> (page.latencyBars[i] ==
         (page.data[fs[i]].metrics.latencyMean, page.data[fs[i]].metrics.latency50, page.data[fs[i]].metrics.latency99)))
    && (forall i :: 0 <= i < |fs| ==> page.latencyLines[i] == LatencySeries(page.data[fs[i]].results))
    && RpsLinesOf(fs, page.data, page.rpsLines)
  }

  /** The throughput chart of the files `fs`: `None` exactly when one sample
      is empty, and otherwise per file its series and its average line. */
  ghost predicate RpsLinesOf(fs: seq<string>, data: map<string, Sampled>, lines: Option<seq<(seq<(real, real)>, seq<(real, real)>)>>)
    requires forall f :: f in fs ==> f in data
  {
    && (lines.None? <==> exists i :: 0 <= i < |fs| && data[fs[i]].results == [])
    && (lines.Some? ==> (|lines.value| == |fs| &&
         forall i :: 0 <= i < |fs| ==> (data[fs[i]].results != [] &&
           RpsPoints(data[fs[i]].results, data[fs[i]].sampleRate, lines.value[i].0) &&
           lines.value[i].1 == AverageLine(lines.value[i].0, data[fs[i]].metrics.rps))))
  }

  /** The `filenames.forEach` that builds the throughput datasets; it stops
      at the first file whose sample is empty. */
  method RpsChart(fs: seq<string>, data: map<string, Sampled>) returns (lines: Option<seq<(seq<(real, real)>, seq<(real, real)>)>>)
    requires forall f :: f in fs ==> f in data
    ensures RpsLinesOf(fs, data, lines)
  {
    var done: seq<(seq<(real, real)>, seq<(real, real)>)> := [];
    var i := 0;
    while i < |fs|
      invariant 0 <= i <= |fs|
      invariant |done| == i
      invariant forall j :: 0 <= j < i ==> (data[fs[j]].results != [] &&
        RpsPoints(data[fs[j]].results, data[fs[j]].sampleRate, done[j].0) &&
        done[j].1 == AverageLine(done[j].0, data[fs[j]].metrics.rps))
    {
      var s := data[fs[i]];
      var points := RpsSeries(s.results, s.sampleRate);
      if points.None? {
        assert data[fs[i]].results == [];
        return None;
      }
      done := done + [(points.value, AverageLine(points.value, s.metrics.rps))];
      i := i + 1;
    }
    lines := Some(done);
  }

  /** With the intended filter every result file that holds a record gives a
      non-empty sample, so the throughput chart is drawn. */
  lemma ChartDrawn(bins: seq<string>, report: string -> Report, encode: string -> seq<Record>, fs: seq<string>, lines: Option<seq<(seq<(real, real)>, seq<(real, real)>)>>)
    requires forall i :: 0 <= i < |bins| ==> encode(bins[i]) != []
    requires fs == Collected(bins, report, encode).keys
    requires forall f :: f in fs ==> f in Collected(bins, report, encode).values
    requires RpsLinesOf(fs, Collected(bins, report, encode).values, lines)
    ensures lines.Some?
  {
    var d := Collected(bins, report, encode);
    var ps := Pairs(bins, report, encode);
    forall i | 0 <= i < |fs| ensures d.values[fs[i]].results != [] {
      var j := SourceOf(ps, fs[i]);
      SampleShape(report(bins[j]), encode(bins[j]));
    }
  }

  /** The position of a pair that the stored value of `k` comes from. */
  lemma SourceOf(ps: seq<(string, Sampled)>, k: string) returns (j: int)
    requires k in FromPairs(ps).values
    ensures 0 <= j < |ps| && ps[j] == (k, FromPairs(ps).values[k])
  {
    FromPairsValues(ps, k);
    j :| 0 <= j < |ps| && ps[j] == (k, FromPairs(ps).values[k]);
  }
}
