/** Values shared by every module: a number that may be NaN, and an optional value. */
module Numeric {

  /** A Python float as the scripts use it: either NaN or an ordinary value.
      Infinities and the rounding of IEEE doubles are not modelled. */
  datatype Num = NaN | Value(v: real)

  datatype Option<+T> = None | Some(value: T)

  /** All the values of `xs`, in order, or `None` if one of them is missing:
      a loop that stops at the first step that fails. */
  function AllSome<T>(xs: seq<Option<T>>): Option<seq<T>> {
    if xs == [] then Some([])
    else
      var init := AllSome(xs[..|xs| - 1]);
      if init.None? || xs[|xs| - 1].None? then None else Some(init.value + [xs[|xs| - 1].value])
  }

  lemma {:induction false} AllSomeShape<T>(xs: seq<Option<T>>)
    ensures AllSome(xs).Some? ==> (|AllSome(xs).value| == |xs| &&
      forall j :: 0 <= j < |xs| ==> Some(AllSome(xs).value[j]) == xs[j])
    ensures AllSome(xs).None? <==> exists j :: 0 <= j < |xs| && xs[j].None?
  {
    if xs != [] {
      var init := xs[..|xs| - 1];
      AllSomeShape(init);
      assert forall j :: 0 <= j < |init| ==> init[j] == xs[j];
    }
  }

  /** A prefix with no gap, extended by one more present value. */
  lemma AllSomeSnoc<T>(xs: seq<Option<T>>, i: int, done: seq<T>)
    requires 0 <= i < |xs| && AllSome(xs[..i]) == Some(done) && xs[i].Some?
    ensures AllSome(xs[..i + 1]) == Some(done + [xs[i].value])
  {
    assert xs[..i + 1][..i] == xs[..i];
  }

  /** One gap anywhere leaves no sequence. */
  lemma AllSomeGap<T>(xs: seq<Option<T>>, i: int)
    requires 0 <= i < |xs| && xs[i].None?
    ensures AllSome(xs) == None
  {
    AllSomeShape(xs);
  }

  /** `f` applied to each element, in order. */
  function MapSeq<T, U>(f: T -> U, xs: seq<T>): (ys: seq<U>)
    ensures |ys| == |xs| && forall i :: 0 <= i < |xs| ==> ys[i] == f(xs[i])
  {
    seq(|xs|, i requires 0 <= i < |xs| => f(xs[i]))
  }

  lemma MapSeqConcat<T, U>(f: T -> U, a: seq<T>, b: seq<T>)
    ensures MapSeq(f, a + b) == MapSeq(f, a) + MapSeq(f, b)
  {
    var l, r := MapSeq(f, a + b), MapSeq(f, a) + MapSeq(f, b);
    forall i | 0 <= i < |l| ensures l[i] == r[i] {
      if i < |a| {
        assert (a + b)[i] == a[i];
      } else {
        assert (a + b)[i] == b[i - |a|];
      }
    }
  }

  predicate IsDigit(c: char) {
    '0' <= c <= '9'
  }

  predicate AllDigits(s: string) {
    forall i :: 0 <= i < |s| ==> IsDigit(s[i])
  }

  function DigitValue(c: char): (d: nat)
    requires IsDigit(c)
    ensures d < 10
  {
    c as int - '0' as int
  }

  /** The value of a string of decimal digits ("" reads as 0). */
  function DigitsValue(s: string): (n: nat)
    requires AllDigits(s)
    ensures n < Pow10(|s|)
  {
    if s == [] then 0 else DigitsValue(s[..|s| - 1]) * 10 + DigitValue(s[|s| - 1])
  }

  function Pow10(k: nat): (p: nat)
    ensures p >= 1
  {
    if k == 0 then 1 else 10 * Pow10(k - 1)
  }

  /** The value of the decimal literal `whole` "." `frac`. */
  function DecimalValue(whole: string, frac: string): (r: real)
    requires AllDigits(whole) && AllDigits(frac)
    ensures DigitsValue(whole) as real <= r < DigitsValue(whole) as real + 1.0
  {
    var a, p := DigitsValue(frac) as real, Pow10(|frac|) as real;
    FractionBelowOne(a, p);
    DigitsValue(whole) as real + a / p
  }

  lemma FractionBelowOne(a: real, p: real)
    requires 0.0 <= a < p
    ensures 0.0 <= a / p < 1.0
  {
    assert a / p * p == a;
  }
}
