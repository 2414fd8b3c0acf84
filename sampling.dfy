/** The downsampling of generate-dashboard.py: a stride of
    `max(1, total_requests // 200)` and the record filter the awk program
    `NR % k == 1` applies to the encoded results, one record per line. */
module Sampling {

  /** `max(1, total // 200)`. For a positive divisor Python's `//` and this
      `/` both round down. */
  function SampleRate(total: int): (k: int)
    ensures k >= 1
    ensures k == 1 <==> total < 400
    ensures total >= 400 ==> 200 * k <= total < 200 * (k + 1)
  {
    var q := total / 200;
    if q > 1 then q else 1
  }

  // ---- The awk selection rule, as written and as intended

  /** awk's `NR % k == 1` for the record on line `line` (counting from 1). */
  predicate KeptAsWritten(line: int, k: int)
    requires k >= 1
  {
    line % k == 1
  }

  /** Every `k`-th record starting with the first: `(NR - 1) % k == 0`. */
  predicate Kept(line: int, k: int)
    requires k >= 1
  {
    (line - 1) % k == 0
  }

  /** With a stride of 1 the written rule keeps no line at all. */
  lemma StrideOneKeepsNothing(line: int)
    ensures !KeptAsWritten(line, 1)
  {
  }

  /** For a stride of 2 or more the two rules agree on every line. */
  lemma RulesAgreeFromStrideTwo(line: int, k: int)
    requires k >= 2
    ensures KeptAsWritten(line, k) <==> Kept(line, k)
  {
    var q, r := (line - 1) / k, (line - 1) % k;
    assert line - 1 == q * k + r;
    if r + 1 < k {
      assert line == q * k + (r + 1);
      ModOf(line, q, r + 1, k);
    } else {
      assert line == (q + 1) * k + 0;
      ModOf(line, q + 1, 0, k);
    }
  }

  lemma ModOf(n: int, q: int, r: int, k: int)
    requires k >= 1 && 0 <= r < k && n == q * k + r
    ensures n % k == r
  {
    DivOf(n, q, r, k);
  }

  /** The lines the awk program prints, as written: line `NR` is record
      `NR - 1`. */
  function SelectAsWritten<R>(records: seq<R>, k: int): (rs: seq<R>)
    requires k >= 1
    ensures k == 1 ==> rs == []
    ensures k >= 2 ==> rs == Samples(records, k)
  {
    if records == [] then []
    else
      var kept := if KeptAsWritten(|records|, k) then [records[|records| - 1]] else [];
      var rs := SelectAsWritten(records[..|records| - 1], k) + kept;
      assert k == 1 ==> kept == [] by { StrideOneKeepsNothing(|records|); }
      assert k >= 2 ==> rs == Samples(records, k) by {
        if k >= 2 {
          RulesAgreeFromStrideTwo(|records|, k);
          SamplesStep(records, k);
        }
      }
      rs
  }

  /** Fewer than 400 requests give stride 1, and then no record is sampled. */
  lemma NoSamplesBelow400<R>(records: seq<R>, total: int)
    requires total < 400
    ensures SelectAsWritten(records, SampleRate(total)) == []
  {
  }

  /** One more record joins the sample exactly when its position is a multiple of `k`. */
  lemma SamplesStep<R>(records: seq<R>, k: int)
    requires k >= 1 && records != []
    ensures var i := |records| - 1;
      Samples(records, k) == Samples(records[..i], k) + (if i % k == 0 then [records[i]] else [])
  {
    var i := |records| - 1;
    var init := records[..i];
    KeptCountStep(i, k);
    var old_ := Samples(init, k);
    var new_ := Samples(records, k);
    var rhs := old_ + (if i % k == 0 then [records[i]] else []);
    assert |new_| == |rhs|;
    forall j | 0 <= j < |new_| ensures new_[j] == rhs[j] {
      if j < |old_| {
        assert rhs[j] == init[j * k];
      } else {
        var q := i / k;
        assert i == q * k + 0;
        assert i + k - 1 == q * k + (k - 1);
        DivOf(i + k - 1, q, k - 1, k);
        assert j == q;
      }
    }
  }

  /** Number of multiples of `k` below `n`: `ceil(n / k)`. */
  function KeptCount(n: nat, k: int): nat
    requires k >= 1
  {
    (n + k - 1) / k
  }

  /** Counting one more line adds one exactly when that line is kept. */
  lemma KeptCountStep(i: nat, k: int)
    requires k >= 1
    ensures KeptCount(i + 1, k) == KeptCount(i, k) + (if i % k == 0 then 1 else 0)
  {
    var q, r := i / k, i % k;
    assert i == q * k + r;
    if r == 0 {
      assert i + k - 1 == q * k + (k - 1);
      DivOf(i + k - 1, q, k - 1, k);
      assert i + 1 + k - 1 == (q + 1) * k + 0;
      DivOf(i + k, q + 1, 0, k);
    } else {
      assert i + k - 1 == (q + 1) * k + (r - 1);
      DivOf(i + k - 1, q + 1, r - 1, k);
      assert i + k == (q + 1) * k + r;
      DivOf(i + k, q + 1, r, k);
    }
  }

  /** Euclidean division has one quotient and one remainder. */
  lemma DivOf(n: int, q: int, r: int, k: int)
    requires k >= 1 && 0 <= r < k && n == q * k + r
    ensures n / k == q && n % k == r
  {
    var q', r' := n / k, n % k;
    assert (q' - q) * k == r - r' by {
      assert n == q' * k + r';
      assert (q' - q) * k == q' * k - q * k;
    }
    SmallMultiple(q' - q, k, r - r');
  }

  /** A multiple of `k` strictly between `-k` and `k` is 0. */
  lemma SmallMultiple(d: int, k: int, e: int)
    requires k >= 1 && d * k == e && -k < e < k
    ensures d == 0
  {
    if d >= 1 {
      MulMono(1, d, k);
      assert false;
    } else if d <= -1 {
      MulMono(d, -1, k);
      assert false;
    }
  }

  /** Position of the `j`-th kept record. */
  function Nth(j: int, k: int): int {
    j * k
  }

  /** Every sampled position lies inside the input. */
  lemma SampledInRange(n: nat, k: int)
    requires k >= 1
    ensures forall j :: 0 <= j < KeptCount(n, k) ==> 0 <= Nth(j, k) < n
  {
    forall j | 0 <= j < KeptCount(n, k) ensures 0 <= Nth(j, k) < n {
      var c := KeptCount(n, k);
      var r := (n + k - 1) % k;
      assert n + k - 1 == c * k + r;
      MulMono(j, c - 1, k);
      MulMono(0, j, k);
      assert (c - 1) * k == c * k - k;
    }
  }

  /** The records the intended rule keeps: every `k`-th, starting with the first. */
  function Samples<R>(records: seq<R>, k: int): (rs: seq<R>)
    requires k >= 1
    ensures |rs| == KeptCount(|records|, k)
    ensures forall j :: 0 <= j < |rs| ==> 0 <= j * k < |records| && rs[j] == records[j * k]
  {
    SampledInRange(|records|, k);
    var rs := seq(KeptCount(|records|, k), j requires 0 <= j < KeptCount(|records|, k) => records[Nth(j, k)]);
    forall j | 0 <= j < |rs| ensures 0 <= j * k < |records| && rs[j] == records[j * k] {
      assert rs[j] == records[Nth(j, k)];
    }
    rs
  }

  /** The sampled records: the line loop of `get_metrics` over the filter's
      output, with the intended rule `(NR - 1) % k == 0`. Record `j` of the
      result is record `j * k` of the input. */
  method CollectSamples<R>(records: seq<R>, k: int) returns (results: seq<R>)
    requires k >= 1
    ensures results == Samples(records, k)
  {
    results := [];
    var i := 0;
    while i < |records|
      invariant 0 <= i <= |records|
      invariant |results| == KeptCount(i, k)
      invariant forall j :: 0 <= j < |results| ==> 0 <= j * k < i && results[j] == records[j * k]
    {
      KeptCountStep(i, k);
      if Kept(i + 1, k) {
        var q := i / k;
        assert i == q * k by { assert i == q * k + i % k; }
        assert q == |results| by {
          assert i + k - 1 == q * k + (k - 1);
          DivOf(i + k - 1, q, k - 1, k);
        }
        results := results + [records[i]];
      }
      i := i + 1;
    }
    assert |results| == |Samples(records, k)|;
  }

  /** At least one line: the sample count is `(n - 1) // k + 1`. */
  lemma KeptCountOfNonEmpty(n: nat, k: int)
    requires n >= 1 && k >= 1
    ensures KeptCount(n, k) == (n - 1) / k + 1
  {
    var q, r := (n - 1) / k, (n - 1) % k;
    assert n - 1 == q * k + r;
    assert n + k - 1 == (q + 1) * k + r;
    DivOf(n + k - 1, q + 1, r, k);
  }

  /** From 400 requests on, between 200 and 300 records are sampled. */
  lemma SampleSizeBounds(n: nat)
    requires n >= 400
    ensures 200 <= KeptCount(n, SampleRate(n)) <= 300
  {
    var k := SampleRate(n);
    KeptCountOfNonEmpty(n, k);
    var c := (n - 1) / k;
    var r := (n - 1) % k;
    assert n - 1 == c * k + r;
    assert 200 * k <= n < 200 * (k + 1);
    if c <= 198 {
      MulMono(c, 198, k);
      assert false;
    }
    if c >= 300 {
      MulMono(300, c, k);
      assert false;
    }
  }

  lemma MulMono(a: int, b: int, k: int)
    requires a <= b && k >= 0
    ensures a * k <= b * k
  {
  }
}
