/** `get_metrics` of vegeta/generate-all.py and generate-dashboard.py: the
    fields of a `vegeta report -type=json` report turned into the numbers the
    pages show. Latencies arrive in nanoseconds and are shown in milliseconds
    to two places; the success fraction becomes a whole percentage. */
module VegetaMetrics {

  /** The report fields read: latencies in nanoseconds, the request rate, the
      success fraction and the request count. */
  datatype Report = Report(
    meanNs: real, p50Ns: real, p99Ns: real, maxNs: real,
    rate: real, success: real, requests: int)

  datatype Metrics = Metrics(
    latencyMean: real, latency50: real, latency99: real, latencyMax: real,
    rps: real, success: int, totalRequests: int)

  predicate Even(n: int) {
    n % 2 == 0
  }

  /** Python's `round(x)`: the nearest integer, a tie going to the even one. */
  function RoundHalfEven(x: real): (r: int)
    ensures -0.5 <= r as real - x <= 0.5
    ensures (r as real - x == 0.5 || x - r as real == 0.5) ==> Even(r)
  {
    var f := x.Floor;
    var frac := x - f as real;
    if frac < 0.5 then f
    else if frac > 0.5 then f + 1
    else if Even(f) then f else f + 1
  }

  /** No integer is closer to `x` than `round(x)`, and of two equally close
      ones it is the even one. */
  lemma RoundIsNearest(x: real, n: int)
    ensures Dist(RoundHalfEven(x) as real, x) <= Dist(n as real, x)
    ensures Dist(RoundHalfEven(x) as real, x) == Dist(n as real, x) && n != RoundHalfEven(x) ==> Even(RoundHalfEven(x))
  {
    var r := RoundHalfEven(x);
    if n < r {
      assert n as real <= r as real - 1.0;
    } else if n > r {
      assert n as real >= r as real + 1.0;
    }
  }

  function Dist(a: real, b: real): real {
    if a >= b then a - b else b - a
  }

  lemma RoundOfInteger(n: int)
    ensures RoundHalfEven(n as real) == n
  {
  }

  /** The number of `m` hundredths. */
  function Hundredth(m: int): real {
    m as real / 100.0
  }

  /** `round(x, 2)` on exact reals: the nearest whole hundredth, ties to even. */
  function Round2(x: real): (r: real)
    ensures -0.005 <= r - x <= 0.005
    ensures exists n: int :: r == Hundredth(n)
    ensures forall m: int :: Dist(r, x) <= Dist(Hundredth(m), x)
  {
    var n := RoundHalfEven(x * 100.0);
    assert forall m: int :: Dist(Hundredth(n), x) <= Dist(Hundredth(m), x) by {
      forall m: int ensures Dist(Hundredth(n), x) <= Dist(Hundredth(m), x) {
        RoundIsNearest(x * 100.0, m);
        DistOfHundredth(n, x);
        DistOfHundredth(m, x);
      }
    }
    Hundredth(n)
  }

  /** Distances to `x` in hundredths are the distances to `100 x`, scaled down. */
  lemma DistOfHundredth(m: int, x: real)
    ensures Dist(Hundredth(m), x) == Dist(m as real, x * 100.0) / 100.0
  {
  }

  /** A latency in nanoseconds shown in milliseconds to two places. */
  function NanosToMillis(ns: real): (ms: real)
    ensures -0.005 <= ms - ns / 1000000.0 <= 0.005
    ensures exists n: int :: ms == Hundredth(n)
    ensures forall m: int :: Dist(ms, ns / 1000000.0) <= Dist(Hundredth(m), ns / 1000000.0)
  {
    Round2(ns / 1000000.0)
  }

  /** The metric mapping of `get_metrics`. */
  function MetricsOf(r: Report): (m: Metrics)
    ensures -0.005 <= m.latencyMean - r.meanNs / 1000000.0 <= 0.005
    ensures -0.005 <= m.latency50 - r.p50Ns / 1000000.0 <= 0.005
    ensures -0.005 <= m.latency99 - r.p99Ns / 1000000.0 <= 0.005
    ensures -0.005 <= m.latencyMax - r.maxNs / 1000000.0 <= 0.005
    ensures -0.005 <= m.rps - r.rate <= 0.005
    ensures -0.5 <= m.success as real - r.success * 100.0 <= 0.5
    ensures m.totalRequests == r.requests
  {
    Metrics(NanosToMillis(r.meanNs), NanosToMillis(r.p50Ns), NanosToMillis(r.p99Ns),
            NanosToMillis(r.maxNs), Round2(r.rate), RoundHalfEven(r.success * 100.0), r.requests)
  }

  /** A success fraction between 0 and 1 gives a percentage between 0 and 100. */
  lemma SuccessIsPercentage(r: Report)
    requires 0.0 <= r.success <= 1.0
    ensures 0 <= MetricsOf(r).success <= 100
  {
    var x := r.success * 100.0;
    var s := MetricsOf(r).success;
    assert 0.0 <= x <= 100.0;
  }

  /** Every request succeeding shows as 100%, none as 0%. */
  lemma SuccessExtremes(r: Report)
    ensures r.success == 1.0 ==> MetricsOf(r).success == 100
    ensures r.success == 0.0 ==> MetricsOf(r).success == 0
  {
    if r.success == 1.0 {
      RoundOfInteger(100);
    }
    if r.success == 0.0 {
      RoundOfInteger(0);
    }
  }

  /** A whole number of milliseconds is shown exactly. */
  lemma WholeMillis(ns: real, k: int)
    requires ns == k as real * 1000000.0
    ensures NanosToMillis(ns) == k as real
  {
    assert ns / 1000000.0 == k as real;
    RoundOfInteger(k * 100);
    assert k as real * 100.0 == (k * 100) as real;
  }
}
