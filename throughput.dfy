/** The throughput-over-time estimate of the page generate-dashboard.py
    writes (its embedded chart script): the sampled records are counted in
    100 ms windows measured from the first record's timestamp, and each
    window's count is scaled back up by the sample rate to requests per
    second. */
module Throughput {
  import opened Numeric
  import opened Ordering

  /** One sampled record: its timestamp in milliseconds (what
      `new Date(r.timestamp).getTime()` gives) and its latency in nanoseconds. */
  datatype Record = Record(timestampMs: int, latencyNs: int)

  const BucketSize: int := 100

  /** `Math.floor((t - start) / 100)`. For a positive divisor the floor and
      this division agree. */
  function Bucket(t: int, start: int): (b: int)
    ensures BucketSize * b <= t - start < BucketSize * (b + 1)
  {
    (t - start) / BucketSize
  }

  /** How many of `rs` fall in window `b`. */
  function CountIn(rs: seq<Record>, start: int, b: int): nat {
    if rs == [] then 0
    else CountIn(rs[..|rs| - 1], start, b) + (if Bucket(rs[|rs| - 1].timestampMs, start) == b then 1 else 0)
  }

  /** The `forEach` that fills `rpsBuckets`: one count per window that holds
      at least one record. */
  method CountBuckets(rs: seq<Record>, start: int) returns (counts: map<int, nat>)
    ensures forall b :: b in counts <==> CountIn(rs, start, b) > 0
    ensures forall b :: b in counts ==> counts[b] == CountIn(rs, start, b)
  {
    counts := map[];
    var i := 0;
    while i < |rs|
      invariant 0 <= i <= |rs|
      invariant forall b :: b in counts <==> CountIn(rs[..i], start, b) > 0
      invariant forall b :: b in counts ==> counts[b] == CountIn(rs[..i], start, b)
    {
      assert rs[..i + 1][..i] == rs[..i];
      var bucket := Bucket(rs[i].timestampMs, start);
      var previous := if bucket in counts then counts[bucket] else 0;
      counts := counts[bucket := previous + 1];
      i := i + 1;
    }
    assert rs[..i] == rs;
  }

  /** One point of the chart: the window's start in seconds and the request
      rate it stands for, `(count * sampleRate / 100) * 1000`. */
  function Point(b: int, count: nat, sampleRate: int): (p: (real, real))
    ensures p.0 * 10.0 == b as real
    ensures p.1 == (count * sampleRate * 10) as real
  {
    ((b * BucketSize) as real / 1000.0, (count * sampleRate) as real / BucketSize as real * 1000.0)
  }

  /** The window a point stands for. */
  function Window(p: (real, real)): int {
    (p.0 * 10.0).Floor
  }

  /** The points of one test's throughput series, or `None` where the script
      stops: `results[0]` of an empty sample is `undefined`, and reading its
      `timestamp` throws. */
  method RpsSeries(rs: seq<Record>, sampleRate: int) returns (points: Option<seq<(real, real)>>)
    ensures points.None? <==> rs == []
    ensures points.Some? ==> RpsPoints(rs, sampleRate, points.value)
  {
    if rs == [] {
      return None;
    }
    var counts := CountBuckets(rs, rs[0].timestampMs);
    var ps := ChartPoints(counts, sampleRate);
    points := Some(ps);
  }

  /** `ps` is the throughput series of the non-empty sample `rs`: ordered by
      time, one point per non-empty window, each the scaled count of its window. */
  ghost predicate RpsPoints(rs: seq<Record>, sampleRate: int, ps: seq<(real, real)>)
    requires rs != []
  {
    && (forall i, j :: 0 <= i < j < |ps| ==> ps[i].0 < ps[j].0)
    && (forall i :: 0 <= i < |ps| ==>
         CountIn(rs, rs[0].timestampMs, Window(ps[i])) > 0 &&
         ps[i] == Point(Window(ps[i]), CountIn(rs, rs[0].timestampMs, Window(ps[i])), sampleRate))
    && (forall b :: CountIn(rs, rs[0].timestampMs, b) > 0 ==>
         exists i :: 0 <= i < |ps| && Window(ps[i]) == b)
  }

  /** `Object.keys(rpsBuckets).sort((a, b) => a - b).map(...)`: one point per
      window, in ascending order. */
  method ChartPoints(counts: map<int, nat>, sampleRate: int) returns (ps: seq<(real, real)>)
    ensures forall i, j :: 0 <= i < j < |ps| ==> ps[i].0 < ps[j].0
    ensures forall i :: 0 <= i < |ps| ==> Window(ps[i]) in counts && ps[i] == Point(Window(ps[i]), counts[Window(ps[i])], sampleRate)
    ensures forall b :: b in counts ==> exists i :: 0 <= i < |ps| && Window(ps[i]) == b
  {
    IntLessIsStrictTotalOrder();
    var keys := SortedSet(counts.Keys, (a: int, b: int) => a < b);
    ps := PointsOf(keys, counts, sampleRate);
    PointsFollowWindows(keys, counts, sampleRate);
  }

  /** The points of the windows `keys`, in their order. */
  function PointsOf(keys: seq<int>, counts: map<int, nat>, sampleRate: int): (ps: seq<(real, real)>)
    requires forall b :: b in keys ==> b in counts
    ensures |ps| == |keys|
  {
    seq(|keys|, i requires 0 <= i < |keys| => Point(keys[i], counts[keys[i]], sampleRate))
  }

  /** Ascending windows give points ordered by time, each naming its own
      window, and every listed window has a point. */
  lemma PointsFollowWindows(keys: seq<int>, counts: map<int, nat>, sampleRate: int)
    requires forall b :: b in keys <==> b in counts
    requires forall i, j :: 0 <= i < j < |keys| ==> keys[i] < keys[j]
    ensures var ps := PointsOf(keys, counts, sampleRate);
      && (forall i, j :: 0 <= i < j < |ps| ==> ps[i].0 < ps[j].0)
      && (forall i :: 0 <= i < |ps| ==> Window(ps[i]) in counts && ps[i] == Point(Window(ps[i]), counts[Window(ps[i])], sampleRate))
      && (forall b :: b in counts ==> exists i :: 0 <= i < |ps| && Window(ps[i]) == b)
  {
    var ps := PointsOf(keys, counts, sampleRate);
    forall i | 0 <= i < |ps| ensures Window(ps[i]) == keys[i] {
      WindowOfPoint(keys[i], counts[keys[i]], sampleRate);
    }
    forall b | b in counts ensures exists i :: 0 <= i < |ps| && Window(ps[i]) == b {
      var i :| 0 <= i < |keys| && keys[i] == b;
      assert Window(ps[i]) == b;
    }
  }

  lemma WindowOfPoint(b: int, count: nat, sampleRate: int)
    ensures Window(Point(b, count, sampleRate)) == b
  {
    assert Point(b, count, sampleRate).0 * 10.0 == b as real;
  }

  // ---- The counts account for every record

  /** The counts of the windows `bs`, added up. */
  function SumCounts(bs: seq<int>, rs: seq<Record>, start: int): nat {
    if bs == [] then 0 else CountIn(rs, start, bs[0]) + SumCounts(bs[1..], rs, start)
  }

  predicate Distinct(bs: seq<int>) {
    forall i, j :: 0 <= i < j < |bs| ==> bs[i] != bs[j]
  }

  /** How often `x` occurs in `bs`. */
  function Occurrences(bs: seq<int>, x: int): nat {
    if bs == [] then 0 else (if bs[0] == x then 1 else 0) + Occurrences(bs[1..], x)
  }

  lemma {:induction false} OccursOnce(bs: seq<int>, x: int)
    requires Distinct(bs) && x in bs
    ensures Occurrences(bs, x) == 1
  {
    if bs[0] == x {
      OccursNot(bs[1..], x);
    } else {
      OccursOnce(bs[1..], x);
    }
  }

  lemma {:induction false} OccursNot(bs: seq<int>, x: int)
    requires x !in bs
    ensures Occurrences(bs, x) == 0
  {
    if bs != [] {
      OccursNot(bs[1..], x);
    }
  }

  /** One more record adds one to the sum for each time its window is listed. */
  lemma {:induction false} SumCountsStep(bs: seq<int>, rs: seq<Record>, r: Record, start: int)
    ensures SumCounts(bs, rs + [r], start) == SumCounts(bs, rs, start) + Occurrences(bs, Bucket(r.timestampMs, start))
  {
    assert (rs + [r])[..|rs + [r]| - 1] == rs;
    if bs != [] {
      SumCountsStep(bs[1..], rs, r, start);
    }
  }

  /** Over any list of distinct windows that holds every non-empty one, the
      counts add up to the number of records. */
  lemma {:induction false} CountsCoverRecords(bs: seq<int>, rs: seq<Record>, start: int)
    requires Distinct(bs)
    requires forall b :: CountIn(rs, start, b) > 0 ==> b in bs
    ensures SumCounts(bs, rs, start) == |rs|
  {
    if rs == [] {
      SumOfEmpty(bs, start);
    } else {
      var init, r := rs[..|rs| - 1], rs[|rs| - 1];
      assert rs == init + [r];
      assert CountIn(rs, start, Bucket(r.timestampMs, start)) > 0;
      forall b | CountIn(init, start, b) > 0 ensures b in bs {
        assert CountIn(rs, start, b) > 0;
      }
      CountsCoverRecords(bs, init, start);
      SumCountsStep(bs, init, r, start);
      OccursOnce(bs, Bucket(r.timestampMs, start));
    }
  }

  lemma {:induction false} SumOfEmpty(bs: seq<int>, start: int)
    ensures SumCounts(bs, [], start) == 0
  {
    if bs != [] {
      SumOfEmpty(bs[1..], start);
    }
  }

  /** The counts of the sorted windows add up to the number of sampled records. */
  lemma WindowCountsSum(rs: seq<Record>, keys: seq<int>, start: int)
    requires forall i, j :: 0 <= i < j < |keys| ==> keys[i] < keys[j]
    requires forall b :: b in keys <==> CountIn(rs, start, b) > 0
    ensures SumCounts(keys, rs, start) == |rs|
  {
    CountsCoverRecords(keys, rs, start);
  }

  // ---- The other two series

  /** `results.map((r, i) => ({x: i, y: r.latency / 1000000}))`: sample
      number against latency in milliseconds. */
  function LatencySeries(rs: seq<Record>): (ps: seq<(real, real)>)
    ensures |ps| == |rs|
    ensures forall i :: 0 <= i < |rs| ==> ps[i].0 == i as real && ps[i].1 * 1000000.0 == rs[i].latencyNs as real
  {
    seq(|rs|, i requires 0 <= i < |rs| => (i as real, rs[i].latencyNs as real / 1000000.0))
  }

  /** `Math.max(...xs, 15)`. */
  function MaxTime(ps: seq<(real, real)>): (m: real)
    ensures m >= 15.0
    ensures forall i :: 0 <= i < |ps| ==> ps[i].0 <= m
    ensures m == 15.0 || exists i :: 0 <= i < |ps| && ps[i].0 == m
  {
    if ps == [] then 15.0
    else
      var rest := MaxTime(ps[1..]);
      assert forall i :: 1 <= i < |ps| ==> ps[i] == ps[1..][i - 1];
      if ps[0].0 > rest then ps[0].0 else rest
  }

  /** The dashed average line: from time 0 to the end of the series (at
      least 15 s) at the reported rate. */
  function AverageLine(ps: seq<(real, real)>, avgRps: real): (line: seq<(real, real)>)
    ensures |line| == 2 && line[0] == (0.0, avgRps) && line[1].1 == avgRps
    ensures line[1].0 >= 15.0 && forall i :: 0 <= i < |ps| ==> ps[i].0 <= line[1].0
  {
    [(0.0, avgRps), (MaxTime(ps), avgRps)]
  }
}
