/** The comparison rules of wrk/generate-dashboard.py: the relative change
    against the nginx baseline, its colour and sign, and which engines get
    the "best" and "worst" highlight for a metric. */
module WrkCompare {
  import opened Numeric

  /** `delta_percent(current, baseline)`: the change from the baseline in
      percent, NaN when the baseline is zero or NaN (and, by IEEE arithmetic,
      when the current value is NaN). */
  function DeltaPercent(current: Num, baseline: Num): (d: Num)
    ensures d.NaN? <==> baseline.NaN? || baseline == Value(0.0) || current.NaN?
    ensures d.Value? ==> baseline.v * (1.0 + d.v / 100.0) == current.v
  {
    if baseline == Value(0.0) || baseline.NaN? then NaN
    else if current.NaN? then NaN
    else
      var b, c := baseline.v, current.v;
      var d := (c - b) / b * 100.0;
      Reconstruct(c, b, d);
      Value(d)
  }

  lemma Reconstruct(c: real, b: real, d: real)
    requires b != 0.0 && d == (c - b) / b * 100.0
    ensures b * (1.0 + d / 100.0) == c
  {
    assert d / 100.0 == (c - b) / b;
    assert b * ((c - b) / b) == c - b;
  }

  /** A value compared with itself has changed by zero percent. */
  lemma DeltaOfSelf(x: real)
    requires x != 0.0
    ensures DeltaPercent(Value(x), Value(x)) == Value(0.0)
  {
  }

  /** Against a positive baseline the change is non-negative exactly when the
      current value has not fallen below the baseline. */
  lemma DeltaSign(c: real, b: real)
    requires b > 0.0
    ensures DeltaPercent(Value(c), Value(b)).Value?
    ensures DeltaPercent(Value(c), Value(b)).v >= 0.0 <==> c >= b
    ensures DeltaPercent(Value(c), Value(b)).v <= 0.0 <==> c <= b
  {
    var d := DeltaPercent(Value(c), Value(b)).v;
    assert d == (c - b) / b * 100.0;
    QuotientSign(c - b, b);
  }

  lemma QuotientSign(a: real, b: real)
    requires b > 0.0
    ensures a / b * 100.0 >= 0.0 <==> a >= 0.0
    ensures a / b * 100.0 <= 0.0 <==> a <= 0.0
  {
    assert a / b * b == a;
  }

  /** The colour of a delta: none for NaN, green for an improvement or no
      change, red for a regression. */
  datatype Color = NoColor | Green | Red

  /** `color_for_delta(delta, better_when_higher)`. */
  function ColorForDelta(delta: Num, betterWhenHigher: bool): (c: Color)
    ensures c == NoColor <==> delta.NaN?
    ensures delta.Value? && delta.v == 0.0 ==> c == Green
    ensures delta.Value? && betterWhenHigher ==> (c == Green <==> delta.v >= 0.0)
    ensures delta.Value? && !betterWhenHigher ==> (c == Green <==> delta.v <= 0.0)
  {
    match delta
    case NaN => NoColor
    case Value(d) =>
      if betterWhenHigher then (if d >= 0.0 then Green else Red)
      else (if d <= 0.0 then Green else Red)
  }

  /** Against a positive baseline, an engine's delta is green exactly when it
      is at least as good as the baseline in the metric's direction. */
  lemma ColorOfComparison(c: real, b: real, betterWhenHigher: bool)
    requires b > 0.0
    ensures ColorForDelta(DeltaPercent(Value(c), Value(b)), betterWhenHigher) == Green
      <==> (if betterWhenHigher then c >= b else c <= b)
  {
    DeltaSign(c, b);
  }

  /** The text `fmt_delta` renders: nothing for NaN, otherwise the value with
      one decimal and a percent sign, preceded by '+' when it is not negative. */
  datatype DeltaText = NoDelta | Percent(plus: bool, value: real)

  function FmtDelta(delta: Num): (t: DeltaText)
    ensures t.NoDelta? <==> delta.NaN?
    ensures t.Percent? ==> t.value == delta.v && (t.plus <==> t.value >= 0.0)
  {
    match delta
    case NaN => NoDelta
    case Value(d) => Percent(d >= 0.0, d)
  }

  /** The '+' prefix and the colour of a higher-is-better metric agree. */
  lemma PlusIsGreenWhenHigherIsBetter(delta: Num)
    requires delta.Value?
    ensures FmtDelta(delta).plus <==> ColorForDelta(delta, true) == Green
  {
  }

  /** A rise of ten percent is "+10.0%", a fall of ten percent "-10.0%". */
  lemma TenPercent()
    ensures FmtDelta(DeltaPercent(Value(110.0), Value(100.0))) == Percent(true, 10.0)
    ensures FmtDelta(DeltaPercent(Value(90.0), Value(100.0))) == Percent(false, -10.0)
  {
  }

  /** The text `fmt_val` renders: "N/A" for NaN, otherwise the value with two
      decimals, followed by " ms" for a latency and with thousands separators
      for a rate. */
  datatype ValText = NotAvailable | Fixed2(x: real, millis: bool)

  function FmtVal(v: Num, unit: string): (t: ValText)
    ensures t.NotAvailable? <==> v.NaN?
    ensures t.Fixed2? ==> t.x == v.v && (t.millis <==> unit == "ms")
  {
    match v
    case NaN => NotAvailable
    case Value(x) => Fixed2(x, unit == "ms")
  }

  // ---- best_worst_classes

  /** The class attribute of a cell: `" ".join(cls)` of the labels, so no
      label is "", one is "best" or "worst", and both are "best worst". */
  datatype Rank = Rank(best: bool, worst: bool)

  const Unranked := Rank(false, false)

  /** The values that are not NaN, in their order. */
  function Present<N>(values: seq<(N, Num)>): (p: seq<real>)
    ensures |p| <= |values|
  {
    if values == [] then []
    else
      var rest := Present(values[1..]);
      match values[0].1
      case NaN => rest
      case Value(x) => [x] + rest
  }

  /** The present values are exactly the non-NaN ones. */
  lemma {:induction false} PresentMembers<N>(values: seq<(N, Num)>)
    ensures forall x :: x in Present(values) <==> exists i :: 0 <= i < |values| && values[i].1 == Value(x)
  {
    if values != [] {
      PresentMembers(values[1..]);
      assert forall i :: 1 <= i < |values| ==> values[i] == values[1..][i - 1];
      assert forall i :: 0 <= i < |values| - 1 ==> values[1..][i] == values[i + 1];
    }
  }

  /** `max(...)` of a non-empty sequence. */
  function {:induction false} MaxOf(s: seq<real>): (m: real)
    requires s != []
    ensures m in s && forall x :: x in s ==> x <= m
  {
    if |s| == 1 then s[0]
    else
      var r := MaxOf(s[1..]);
      assert forall x :: x in s ==> x == s[0] || x in s[1..];
      if s[0] >= r then s[0] else r
  }

  /** `min(...)` of a non-empty sequence. */
  function {:induction false} MinOf(s: seq<real>): (m: real)
    requires s != []
    ensures m in s && forall x :: x in s ==> m <= x
  {
    if |s| == 1 then s[0]
    else
      var r := MinOf(s[1..]);
      assert forall x :: x in s ==> x == s[0] || x in s[1..];
      if s[0] <= r then s[0] else r
  }

  /** `best_val` and `worst_val`: the extremes of the present values, the
      direction chosen by `better_when_higher`. */
  function BestValue(p: seq<real>, betterWhenHigher: bool): real
    requires p != []
  {
    if betterWhenHigher then MaxOf(p) else MinOf(p)
  }

  function WorstValue(p: seq<real>, betterWhenHigher: bool): real
    requires p != []
  {
    if betterWhenHigher then MinOf(p) else MaxOf(p)
  }

  /** The rank an entry with value `v` gets among `values`. */
  function RankOf<N>(values: seq<(N, Num)>, betterWhenHigher: bool, v: Num): Rank {
    var p := Present(values);
    if p == [] then Unranked
    else Marks(v, BestValue(p, betterWhenHigher), WorstValue(p, betterWhenHigher))
  }

  /** The labels of one entry once the extremes are known. */
  function Marks(v: Num, bestVal: real, worstVal: real): Rank {
    match v
    case NaN => Unranked
    case Value(x) => Rank(x == bestVal, x == worstVal)
  }

  function Names<N(==)>(values: seq<(N, Num)>): set<N> {
    NamesBefore(values, |values|)
  }

  function NamesBefore<N(==)>(values: seq<(N, Num)>, end: int): set<N>
    requires 0 <= end <= |values|
  {
    set i | 0 <= i < end :: values[i].0
  }

  /** Entry `k` is the last one with its name, so its class is the one kept. */
  predicate LastOccurrence<N(==)>(values: seq<(N, Num)>, k: int)
    requires 0 <= k < |values|
  {
    LastBefore(values, k, |values|)
  }

  predicate LastBefore<N(==)>(values: seq<(N, Num)>, k: int, end: int)
    requires 0 <= k < end <= |values|
  {
    forall j :: k < j < end ==> values[j].0 != values[k].0
  }

  /** `best_worst_classes(values, better_when_higher)`: every name gets a
      class, and a name that occurs more than once gets the class of its last
      entry. */
  method BestWorstClasses<N(==)>(values: seq<(N, Num)>, betterWhenHigher: bool)
    returns (classes: map<N, Rank>)
    ensures classes.Keys == Names(values)
    ensures forall k :: 0 <= k < |values| && LastOccurrence(values, k) ==>
      classes[values[k].0] == RankOf(values, betterWhenHigher, values[k].1)
  {
    var present := Present(values);
    if present == [] {
      classes := map n | n in Names(values) :: Unranked;
      forall k | 0 <= k < |values|
        ensures classes[values[k].0] == RankOf(values, betterWhenHigher, values[k].1)
      {
        assert values[k].0 in Names(values);
      }
      return;
    }
    var bestVal := BestValue(present, betterWhenHigher);
    var worstVal := WorstValue(present, betterWhenHigher);
    classes := map[];
    var i := 0;
    while i < |values|
      invariant 0 <= i <= |values|
      invariant classes.Keys == NamesBefore(values, i)
      invariant forall k :: 0 <= k < i && LastBefore(values, k, i) ==>
        classes[values[k].0] == Marks(values[k].1, bestVal, worstVal)
    {
      var (n, v) := values[i];
      var cls := Unranked;
      if v.Value? {
        cls := Rank(v.v == bestVal, v.v == worstVal);
      }
      ghost var before := classes;
      classes := classes[n := cls];
      assert NamesBefore(values, i + 1) == NamesBefore(values, i) + {n};
      forall k | 0 <= k < i + 1 && LastBefore(values, k, i + 1)
        ensures classes[values[k].0] == Marks(values[k].1, bestVal, worstVal)
      {
        if k < i {
          assert values[k].0 != n;
          assert classes[values[k].0] == before[values[k].0];
        }
      }
      i := i + 1;
    }
  }

  // ---- What the classes mean

  /** NaN entries are never highlighted. */
  lemma NaNUnranked<N>(values: seq<(N, Num)>, betterWhenHigher: bool)
    ensures RankOf(values, betterWhenHigher, NaN) == Unranked
  {
  }

  /** With no value present, nobody is highlighted. */
  lemma AllMissingUnranked<N>(values: seq<(N, Num)>, betterWhenHigher: bool, v: Num)
    requires forall i :: 0 <= i < |values| ==> values[i].1.NaN?
    ensures RankOf(values, betterWhenHigher, v) == Unranked
  {
    NothingPresent(values);
  }

  lemma {:induction false} NothingPresent<N>(values: seq<(N, Num)>)
    requires forall i :: 0 <= i < |values| ==> values[i].1.NaN?
    ensures Present(values) == []
  {
    if values != [] {
      assert forall i :: 0 <= i < |values| - 1 ==> values[1..][i] == values[i + 1];
      NothingPresent(values[1..]);
    }
  }

  /** Once a value is present, some entry is "best" and some entry is
      "worst". */
  lemma BestAndWorstExist<N>(values: seq<(N, Num)>, betterWhenHigher: bool)
    requires exists i :: 0 <= i < |values| && values[i].1.Value?
    ensures exists i :: 0 <= i < |values| && RankOf(values, betterWhenHigher, values[i].1).best
    ensures exists i :: 0 <= i < |values| && RankOf(values, betterWhenHigher, values[i].1).worst
  {
    var i0 :| 0 <= i0 < |values| && values[i0].1.Value?;
    PresentMembers(values);
    var p := Present(values);
    assert values[i0].1.v in p;
    var b := BestValue(p, betterWhenHigher);
    var w := WorstValue(p, betterWhenHigher);
    assert b in p && w in p;
    var ib :| 0 <= ib < |values| && values[ib].1 == Value(b);
    var iw :| 0 <= iw < |values| && values[iw].1 == Value(w);
    assert RankOf(values, betterWhenHigher, values[ib].1).best;
    assert RankOf(values, betterWhenHigher, values[iw].1).worst;
  }

  /** A "best" value is at least as good as every present value, and a
      "worst" one at most as good, in the metric's direction. */
  lemma RanksAreExtremes<N>(values: seq<(N, Num)>, betterWhenHigher: bool, x: real, j: int)
    requires 0 <= j < |values| && values[j].1.Value?
    ensures RankOf(values, betterWhenHigher, Value(x)).best ==>
      (if betterWhenHigher then values[j].1.v <= x else x <= values[j].1.v)
    ensures RankOf(values, betterWhenHigher, Value(x)).worst ==>
      (if betterWhenHigher then x <= values[j].1.v else values[j].1.v <= x)
  {
    PresentMembers(values);
    assert values[j].1.v in Present(values);
  }

  /** When every present value is the same, each present entry is both
      "best" and "worst". */
  lemma AllEqualBestWorst<N>(values: seq<(N, Num)>, betterWhenHigher: bool, x: real)
    requires exists i :: 0 <= i < |values| && values[i].1.Value?
    requires forall i :: 0 <= i < |values| && values[i].1.Value? ==> values[i].1.v == x
    ensures RankOf(values, betterWhenHigher, Value(x)) == Rank(true, true)
  {
    var i0 :| 0 <= i0 < |values| && values[i0].1.Value?;
    PresentMembers(values);
    var p := Present(values);
    assert values[i0].1.v in p;
    var b := BestValue(p, betterWhenHigher);
    var w := WorstValue(p, betterWhenHigher);
    assert b in p && w in p;
  }

  /** nginx at 100, one engine without a result, one at 150, higher is
      better: the 150 is best, nginx worst, the missing engine unmarked. */
  lemma RequestsExample(values: seq<(string, Num)>)
    requires values == [("nginx", Value(100.0)), ("frankenphp", NaN), ("frankenrpm", Value(150.0))]
    ensures RankOf(values, true, values[0].1) == Rank(false, true)
    ensures RankOf(values, true, values[1].1) == Unranked
    ensures RankOf(values, true, values[2].1) == Rank(true, false)
  {
    assert Present(values) == [100.0, 150.0] by {
      var v1 := values[1..];
      var v2 := v1[1..];
      assert v2[1..] == [];
      assert Present(v2) == [150.0];
      assert Present(v1) == [150.0];
      assert Present(values) == [100.0] + [150.0];
    }
    assert MaxOf([100.0, 150.0]) == 150.0 by { assert [100.0, 150.0][1..] == [150.0]; }
    assert MinOf([100.0, 150.0]) == 100.0 by { assert [100.0, 150.0][1..] == [150.0]; }
  }
}
