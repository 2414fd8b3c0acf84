/** `parse_number` of wrk/generate-dashboard.py: a JSON metric that may carry a
    time unit ("850us", "2.05ms", "1.2s") becomes milliseconds; a plain number
    stays as it is; otherwise the leading number is taken, and failing that
    the result is NaN. */
module UnitParse {
  import opened Numeric
  import opened Text

  /** A JSON value as `metrics.get(key, "nan")` hands it over. `JsonOther`
      stands for null, a list or an object: `str()` of those starts with
      'N', '[' or '{', so none of them ever parses. */
  datatype JsonValue = JsonNumber(x: real) | JsonBool(b: bool) | JsonString(s: string) | JsonOther

  /** One character class of the pattern `[0-9.]`. */
  predicate IsNumberChar(c: char) {
    IsDigit(c) || c == '.'
  }

  /** `re.fullmatch(r"[0-9]*\.?[0-9]+", n)`, with `float()` of the match. */
  function NumberToken(n: string): (r: Option<real>)
    ensures r.Some? ==> n != [] && IsDigit(n[|n| - 1])
    ensures r.Some? ==> forall i :: 0 <= i < |n| ==> IsNumberChar(n[i])
  {
    if '.' !in n then
      if n != [] && AllDigits(n) then Some(DigitsValue(n) as real) else None
    else
      var k := IndexOf(n, '.');
      if AllDigits(n[..k]) && AllDigits(n[k + 1..]) && k + 1 < |n| then
        assert forall i :: 0 <= i < |n| && i != k ==>
          (i < k ==> n[i] == n[..k][i]) && (i > k ==> n[i] == n[k + 1..][i - k - 1]);
        Some(DecimalValue(n[..k], n[k + 1..]))
      else None
  }

  /** `float(s)` on an unsigned text, restricted to decimal literals: the
      number pattern above, or digits followed by a bare '.' ("1."). */
  function UnsignedDecimal(s: string): (r: Option<real>)
    ensures r.Some? ==> s != [] && forall i :: 0 <= i < |s| ==> IsNumberChar(s[i])
  {
    if |s| >= 2 && s[|s| - 1] == '.' && AllDigits(s[..|s| - 1]) then
      assert forall i :: 0 <= i < |s| - 1 ==> s[i] == s[..|s| - 1][i];
      Some(DigitsValue(s[..|s| - 1]) as real)
    else NumberToken(s)
  }

  /** Python's `float(s)` for a stripped text, limited to an optional sign and
      a decimal literal (no exponent, underscore, "inf" or "nan" spelling). */
  function PyFloat(s: string): (r: Option<real>)
    ensures r.Some? ==> s != [] && forall i :: 0 < i < |s| ==> IsNumberChar(s[i])
  {
    if s != [] && (s[0] == '+' || s[0] == '-') then
      match UnsignedDecimal(s[1..])
      case None => None
      case Some(x) =>
        assert forall i :: 0 < i < |s| ==> s[i] == s[1..][i - 1];
        Some(if s[0] == '-' then -x else x)
    else UnsignedDecimal(s)
  }

  // The unit alternatives `us|µs|ms|s` under re.IGNORECASE. Python's regular
  // expressions also fold 's' with LATIN SMALL LETTER LONG S (U+017F), and the
  // micro sign (U+00B5) with GREEK SMALL LETTER MU (U+03BC) and GREEK CAPITAL
  // LETTER MU (U+039C).
  predicate FoldsToU(c: char) { c == 'u' || c == 'U' }
  predicate FoldsToMicro(c: char) { c == '\U{B5}' || c == '\U{3BC}' || c == '\U{39C}' }
  predicate FoldsToM(c: char) { c == 'm' || c == 'M' }
  predicate FoldsToS(c: char) { c == 's' || c == 'S' || c == '\U{17F}' }

  /** `re.fullmatch("us|µs|ms|s", u, re.IGNORECASE)`. */
  predicate IsUnit(u: string) {
    || (|u| == 1 && FoldsToS(u[0]))
    || (|u| == 2 && (FoldsToU(u[0]) || FoldsToMicro(u[0]) || FoldsToM(u[0])) && FoldsToS(u[1]))
  }

  /** `str.lower()` on the characters a matched unit consists of. */
  function LowerChar(c: char): char {
    if 'A' <= c <= 'Z' then (c as int + 32) as char
    else if c == '\U{39C}' then '\U{3BC}'
    else c
  }

  function Lower(u: string): (l: string)
    ensures |l| == |u|
  {
    seq(|u|, i requires 0 <= i < |u| => LowerChar(u[i]))
  }

  /** The length of the longest prefix of `s` made of digits and dots. */
  function NumberSpan(s: string): (k: nat)
    ensures k <= |s|
    ensures forall i :: 0 <= i < k ==> IsNumberChar(s[i])
    ensures k < |s| ==> !IsNumberChar(s[k])
  {
    if s == [] || !IsNumberChar(s[0]) then 0 else 1 + NumberSpan(s[1..])
  }

  function DigitSpan(s: string): (k: nat)
    ensures k <= |s| && AllDigits(s[..k])
    ensures k < |s| ==> !IsDigit(s[k])
  {
    if s == [] || !IsDigit(s[0]) then 0
    else
      var k := 1 + DigitSpan(s[1..]);
      assert forall i :: 1 <= i < k ==> s[..k][i] == s[1..][..k - 1][i - 1];
      k
  }

  /** `re.fullmatch(r"([0-9]*\.?[0-9]+)\s*(us|µs|ms|s)", s, re.IGNORECASE)`:
      the value of group 1 and the text of group 2. Group 1 is the whole run
      of digits and dots (a unit never starts with either), and `\s*` takes the
      whole run of whitespace (a unit holds none). */
  function UnitMatch(s: string): Option<(real, string)> {
    var k := NumberSpan(s);
    match NumberToken(s[..k])
    case None => None
    case Some(val) =>
      var u := StripLeft(s[k..]);
      if IsUnit(u) then Some((val, u)) else None
  }

  /** `re.match(r"([0-9]*\.?[0-9]+)", s)` with `float()` of the match: the
      leading digits, extended by a '.' and the digits after it when at
      least one digit follows the '.'. */
  function NumericPrefix(s: string): Option<real> {
    var d := DigitSpan(s);
    var rest := s[d..];
    if |rest| >= 2 && rest[0] == '.' && IsDigit(rest[1]) then
      var f := DigitSpan(rest[1..]);
      Some(DecimalValue(s[..d], rest[1..][..f]))
    else if d > 0 then Some(DigitsValue(s[..d]) as real)
    else None
  }

  /** Which branch of `parse_number` a value takes, before any unit conversion. */
  datatype Reading =
    | Plain(x: real)              // int, float, bool, or `float(s)` succeeded
    | Timed(val: real, unit: string)  // "<num><unit>", unit as matched
    | PrefixOnly(x: real)         // only a leading number
    | Unreadable                  // nothing numeric: NaN

  function Read(raw: JsonValue): (r: Reading)
    ensures r.Timed? ==> IsUnit(r.unit)
  {
    match raw
    case JsonNumber(x) => Plain(x)
    case JsonBool(b) => Plain(if b then 1.0 else 0.0)
    case JsonOther => Unreadable
    case JsonString(t) => ReadText(Strip(t))
  }

  /** The branches of `parse_number` for a stripped text. */
  function ReadText(s: string): (r: Reading)
    ensures r.Timed? ==> IsUnit(r.unit)
  {
      match PyFloat(s)
      case Some(x) => Plain(x)
      case None =>
        match UnitMatch(s)
        case Some((val, unit)) => Timed(val, unit)
        case None =>
          match NumericPrefix(s)
          case Some(x) => PrefixOnly(x)
          case None => Unreadable
  }

  /** A duration in `unit` expressed in milliseconds, by the unit's
      case-insensitive meaning: seconds (any spelling of "s"), milliseconds,
      or microseconds (any spelling of "us" or "µs"). */
  function ToMillis(val: real, unit: string): real
    requires IsUnit(unit)
  {
    if |unit| == 1 then val * 1000.0
    else if FoldsToM(unit[0]) then val
    else val / 1000.0
  }

  /** Lines 31-39 as written: the conversion looks at `unit.lower()` and
      returns the value unconverted when that is none of the four spellings. */
  function ConvertAsWritten(val: real, unit: string): real {
    var l := Lower(unit);
    if l == "us" || l == "\U{B5}s" then val / 1000.0
    else if l == "ms" then val
    else if l == "s" then val * 1000.0
    else val
  }

  /** The value of a reading with the conversion of lines 31-39 as written. */
  function MillisAsWritten(r: Reading): Num {
    match r
    case Plain(x) => Value(x)
    case Timed(val, unit) => Value(ConvertAsWritten(val, unit))
    case PrefixOnly(x) => Value(x)
    case Unreadable => NaN
  }

  /** The value of a reading, every accepted unit converted by its meaning. */
  function Millis(r: Reading): Num
    requires r.Timed? ==> IsUnit(r.unit)
  {
    match r
    case Plain(x) => Value(x)
    case Timed(val, unit) => Value(ToMillis(val, unit))
    case PrefixOnly(x) => Value(x)
    case Unreadable => NaN
  }

  /** `parse_number` exactly as written, including the final `return val`. */
  function ParseNumberAsWritten(raw: JsonValue): (r: Num)
    ensures raw.JsonNumber? ==> r == Value(raw.x)
    ensures raw.JsonBool? ==> r == Value(if raw.b then 1.0 else 0.0)
    ensures raw.JsonOther? ==> r == NaN
  {
    MillisAsWritten(Read(raw))
  }

  /** `parse_number` with every unit the pattern accepts converted by its
      meaning; the rest of the model uses this one. */
  function ParseNumber(raw: JsonValue): (r: Num)
    ensures raw.JsonNumber? ==> r == Value(raw.x)
    ensures raw.JsonBool? ==> r == Value(if raw.b then 1.0 else 0.0)
    ensures raw.JsonOther? ==> r == NaN
  {
    Millis(Read(raw))
  }

  // ---- Lemmas

  lemma {:induction false} NumberSpanOf(n: string, rest: string)
    requires forall i :: 0 <= i < |n| ==> IsNumberChar(n[i])
    requires rest == [] || !IsNumberChar(rest[0])
    ensures NumberSpan(n + rest) == |n|
  {
    if n != [] {
      assert (n + rest)[1..] == n[1..] + rest;
      NumberSpanOf(n[1..], rest);
    }
  }

  lemma {:induction false} DigitSpanOf(w: string, rest: string)
    requires AllDigits(w)
    requires rest == [] || !IsDigit(rest[0])
    ensures DigitSpan(w + rest) == |w|
  {
    if w != [] {
      assert (w + rest)[1..] == w[1..] + rest;
      DigitSpanOf(w[1..], rest);
    }
  }

  /** A text with neither leading nor trailing whitespace is its own strip. */
  lemma StripTrimmed(s: string)
    requires Trimmed(s)
    ensures Strip(s) == s
  {
    assert [] + s + [] == s;
    StripPadded([], s, []);
  }

  lemma NumberTokenIsFloat(n: string)
    requires NumberToken(n).Some?
    ensures PyFloat(n) == NumberToken(n)
    ensures Trimmed(n)
  {
  }

  /** A plain decimal string, padded with whitespace or not, is returned as
      its own value with no unit conversion. */
  lemma PlainNumber(pre: string, n: string, post: string)
    requires NumberToken(n).Some?
    requires AllSpace(pre) && AllSpace(post)
    ensures ParseNumber(JsonString(pre + n + post)) == Value(NumberToken(n).value)
    ensures ParseNumberAsWritten(JsonString(pre + n + post)) == Value(NumberToken(n).value)
  {
    NumberTokenIsFloat(n);
    ReadTextPlain(n, NumberToken(n).value);
    ParsePadded(pre, n, post);
  }

  /** Whitespace around a trimmed text changes nothing. */
  lemma ParsePadded(pre: string, s: string, post: string)
    requires AllSpace(pre) && AllSpace(post) && Trimmed(s)
    ensures ParseNumber(JsonString(pre + s + post)) == Millis(ReadText(s))
    ensures ParseNumberAsWritten(JsonString(pre + s + post)) == MillisAsWritten(ReadText(s))
  {
    StripPadded(pre, s, post);
  }

  /** A trimmed text is parsed by reading it as it is. */
  lemma ParseTrimmed(s: string)
    requires Trimmed(s)
    ensures ParseNumber(JsonString(s)) == Millis(ReadText(s))
  {
    ReadOfTrimmed(s);
  }

  /** A sign in front of a plain decimal is honoured. */
  lemma NegativePlainNumber(n: string)
    requires NumberToken(n).Some?
    ensures ParseNumber(JsonString("-" + n)) == Value(-NumberToken(n).value)
  {
    var s := "-" + n;
    NegatedFloat(n);
    ReadTextPlain(s, -NumberToken(n).value);
    NegatedTrimmed(n);
    ParseTrimmed(s);
  }

  lemma NegatedFloat(n: string)
    requires NumberToken(n).Some?
    ensures PyFloat("-" + n) == Some(-NumberToken(n).value)
  {
    var s := "-" + n;
    assert s[1..] == n;
    assert UnsignedDecimal(n) == NumberToken(n);
  }

  lemma NegatedTrimmed(n: string)
    requires n != [] && !IsSpace(n[|n| - 1])
    ensures Trimmed("-" + n)
  {
    var s := "-" + n;
    assert s[0] == '-' && s[|s| - 1] == n[|n| - 1];
  }

  // One step of `parse_number` at a time, so that no proof has to unfold the
  // whole parser on a concrete text.

  lemma ReadOfTrimmed(t: string)
    requires Trimmed(t)
    ensures Read(JsonString(t)) == ReadText(t)
  {
    StripTrimmed(t);
  }

  lemma ReadTextPlain(s: string, x: real)
    requires PyFloat(s) == Some(x)
    ensures ReadText(s) == Plain(x)
  {
  }

  lemma ReadTextTimed(s: string, val: real, unit: string)
    requires PyFloat(s) == None && UnitMatch(s) == Some((val, unit))
    ensures ReadText(s) == Timed(val, unit)
  {
  }

  lemma ReadTextPrefix(s: string, x: real)
    requires PyFloat(s) == None && UnitMatch(s) == None && NumericPrefix(s) == Some(x)
    ensures ReadText(s) == PrefixOnly(x)
  {
  }

  lemma ReadTextUnreadable(s: string)
    requires PyFloat(s) == None && UnitMatch(s) == None && NumericPrefix(s) == None
    ensures ReadText(s) == Unreadable
  {
  }

  /** "<number><whitespace><unit>" is converted to milliseconds: microseconds
      are divided by 1000, milliseconds kept, seconds multiplied by 1000. */
  lemma UnitSuffix(n: string, w: string, u: string)
    requires NumberToken(n).Some?
    requires AllSpace(w) && IsUnit(u)
    ensures ParseNumber(JsonString(n + w + u)) == Value(ToMillis(NumberToken(n).value, u))
  {
    var s := n + w + u;
    assert Read(JsonString(s)) == Timed(NumberToken(n).value, u) by { ReadTimed(n, w, u); }
  }

  lemma ReadTimed(n: string, w: string, u: string)
    requires NumberToken(n).Some?
    requires AllSpace(w) && IsUnit(u)
    ensures Read(JsonString(n + w + u)) == Timed(NumberToken(n).value, u)
  {
    var s := n + w + u;
    TimedShape(n, w, u);
    ReadOfTrimmed(s);
    UnitMatchOf(n, w, u);
    ReadTextTimed(s, NumberToken(n).value, u);
  }

  /** A text ending in a unit is trimmed and is not a float. */
  lemma TimedShape(n: string, w: string, u: string)
    requires NumberToken(n).Some?
    requires IsUnit(u)
    ensures Trimmed(n + w + u) && PyFloat(n + w + u) == None
  {
    var s := n + w + u;
    assert s[|s| - 1] == u[|u| - 1] && s[0] == n[0];
    NoFloatAt(s, |s| - 1);
  }

  lemma NoFloatAt(s: string, i: nat)
    requires 0 < i < |s| && !IsNumberChar(s[i])
    ensures PyFloat(s) == None
  {
  }

  /** A unit starts with neither a space, a digit nor a dot. */
  lemma UnitsStartOutsideNumbers(u: string)
    requires IsUnit(u)
    ensures !IsSpace(u[0]) && !IsNumberChar(u[0])
  {
  }

  lemma UnitMatchOf(n: string, w: string, u: string)
    requires NumberToken(n).Some?
    requires AllSpace(w) && IsUnit(u)
    ensures UnitMatch(n + w + u) == Some((NumberToken(n).value, u))
  {
    var s := n + (w + u);
    assert n + w + u == s;
    UnitsStartOutsideNumbers(u);
    NumberSpanOf(n, w + u);
    assert s[..|n|] == n && s[|n|..] == w + u;
    StripLeftPadded(w, u);
  }

  lemma TokenThousand()
    ensures NumberToken("1000") == Some(1000.0)
  {
    assert "1000"[..3] == "100" && "100"[..2] == "10" && "10"[..1] == "1";
  }

  lemma TokenThousandth()
    ensures NumberToken("0.001") == Some(0.001)
  {
    var n := "0.001";
    assert IndexOf(n, '.') == 1;
    assert n[..1] == "0" && n[2..] == "001";
    assert "001"[..2] == "00" && "00"[..1] == "0";
  }

  /** The three spellings of one millisecond agree, and one second is 1000 ms. */
  lemma OneMillisecond(s: string)
    requires s == "1000us" || s == "1ms" || s == "0.001s" || s == "1s"
    ensures ParseNumber(JsonString(s)) == Value(if s == "1s" then 1000.0 else 1.0)
  {
    if s == "1000us" {
      TokenThousand();
      assert s == "1000" + "us";
      BareUnit(s, "1000", "us");
      assert ToMillis(1000.0, "us") == 1.0;
    } else if s == "0.001s" {
      TokenThousandth();
      assert s == "0.001" + "s";
      BareUnit(s, "0.001", "s");
      assert ToMillis(0.001, "s") == 1.0;
    } else {
      var u := s[1..];
      assert NumberToken("1") == Some(1.0);
      assert s == "1" + u;
      BareUnit(s, "1", u);
      assert ToMillis(1.0, u) == if s == "1s" then 1000.0 else 1.0;
    }
  }

  /** A unit right after the number, with no whitespace between. */
  lemma BareUnit(s: string, n: string, u: string)
    requires s == n + u
    requires NumberToken(n).Some? && IsUnit(u)
    ensures ParseNumber(JsonString(s)) == Value(ToMillis(NumberToken(n).value, u))
  {
    var none := "";
    assert s == n + none + u;
    UnitSuffix(n, none, u);
  }

  /** A leading minus sign is not part of the unit pattern nor of the
      numeric prefix, so a negative duration reads as NaN. */
  lemma NegativeDurationIsNaN(n: string, u: string)
    requires NumberToken(n).Some?
    requires IsUnit(u)
    ensures ParseNumber(JsonString("-" + n + u)) == NaN
  {
    NegativeDurationUnreadable(n, u);
    ParseTrimmed("-" + n + u);
  }

  lemma NegativeDurationUnreadable(n: string, u: string)
    requires NumberToken(n).Some?
    requires IsUnit(u)
    ensures Trimmed("-" + n + u) && ReadText("-" + n + u) == Unreadable
  {
    var s := "-" + n + u;
    assert s == "-" + (n + u);
    assert s[|s| - 1] == u[|u| - 1];
    NoFloatAt(s, |s| - 1);
    NoLeadingNumber(s);
    ReadTextUnreadable(s);
    NegatedTrimmed(n + u);
  }

  /** A text that does not start with a digit or a dot matches neither the
      unit pattern nor the prefix pattern. */
  lemma NoLeadingNumber(s: string)
    requires s == [] || !IsNumberChar(s[0])
    ensures UnitMatch(s) == None && NumericPrefix(s) == None
  {
    assert NumberSpan(s) == 0 && DigitSpan(s) == 0;
    assert s[..0] == [] && s[0..] == s;
  }

  /** Nor does `float()` accept it, unless it starts with a sign. */
  lemma NoFloatStart(s: string)
    requires s != [] && !IsNumberChar(s[0]) && s[0] != '+' && s[0] != '-'
    ensures PyFloat(s) == None
  {
  }

  /** A text that does not start with a digit, a dot or a sign has no
      numeric reading at all, and the empty text neither. */
  lemma NothingNumericIsNaN(s: string)
    requires Trimmed(s)
    requires s != [] ==> !IsNumberChar(s[0]) && s[0] != '+' && s[0] != '-'
    ensures ParseNumber(JsonString(s)) == NaN
  {
    if s != [] {
      NoFloatStart(s);
    }
    NoLeadingNumber(s);
    ReadTextUnreadable(s);
    ParseTrimmed(s);
  }

  /** Whenever neither `float()` nor the unit pattern accepts the stripped
      text, both readers return its leading number unchanged, or NaN when
      it has none. */
  lemma UnmatchedText(t: string)
    requires PyFloat(Strip(t)) == None && UnitMatch(Strip(t)) == None
    ensures NumericPrefix(Strip(t)).Some? ==> ParseNumber(JsonString(t)) == Value(NumericPrefix(Strip(t)).value)
    ensures NumericPrefix(Strip(t)).None? ==> ParseNumber(JsonString(t)) == NaN
    ensures ParseNumberAsWritten(JsonString(t)) == ParseNumber(JsonString(t))
  {
    var s := Strip(t);
    if NumericPrefix(s).Some? {
      ReadTextPrefix(s, NumericPrefix(s).value);
    } else {
      ReadTextUnreadable(s);
    }
  }

  /** A number followed by text that starts with neither a number character,
      whitespace nor a unit letter, and does not end in whitespace, is
      returned as that number. */
  lemma PrefixFallback(n: string, junk: string)
    requires NumberToken(n).Some?
    requires junk != [] && !IsNumberChar(junk[0]) && !IsSpace(junk[0])
    requires !FoldsToU(junk[0]) && !FoldsToMicro(junk[0]) && !FoldsToM(junk[0]) && !FoldsToS(junk[0])
    requires !IsSpace(junk[|junk| - 1])
    ensures ParseNumber(JsonString(n + junk)) == Value(NumberToken(n).value)
  {
    PrefixFallbackRead(n, junk);
    ParseTrimmed(n + junk);
  }

  lemma PrefixFallbackRead(n: string, junk: string)
    requires NumberToken(n).Some?
    requires junk != [] && !IsNumberChar(junk[0]) && !IsSpace(junk[0])
    requires !FoldsToU(junk[0]) && !FoldsToMicro(junk[0]) && !FoldsToM(junk[0]) && !FoldsToS(junk[0])
    requires !IsSpace(junk[|junk| - 1])
    ensures Trimmed(n + junk) && ReadText(n + junk) == PrefixOnly(NumberToken(n).value)
  {
    var s := n + junk;
    assert s[|n|] == junk[0];
    NoFloatAt(s, |n|);
    JunkIsNoUnit(n, junk);
    PrefixOfToken(n, junk);
    ReadTextPrefix(s, NumberToken(n).value);
    assert s[0] == n[0] && s[|s| - 1] == junk[|junk| - 1];
  }

  lemma JunkIsNoUnit(n: string, junk: string)
    requires NumberToken(n).Some?
    requires junk != [] && !IsNumberChar(junk[0]) && !IsSpace(junk[0])
    requires !FoldsToU(junk[0]) && !FoldsToMicro(junk[0]) && !FoldsToM(junk[0]) && !FoldsToS(junk[0])
    ensures UnitMatch(n + junk) == None
  {
    var s := n + junk;
    NumberSpanOf(n, junk);
    assert s[..|n|] == n && s[|n|..] == junk;
    assert [] + junk == junk;
    StripLeftPadded([], junk);
    assert !IsUnit(junk);
  }

  lemma PrefixOfToken(n: string, junk: string)
    requires NumberToken(n).Some?
    requires junk == [] || !IsNumberChar(junk[0])
    ensures NumericPrefix(n + junk) == NumberToken(n)
  {
    if '.' !in n {
      PrefixOfWhole(n, junk);
    } else {
      var k := IndexOf(n, '.');
      var w, f := n[..k], n[k + 1..];
      assert n == w + ['.'] + f;
      PrefixOfDecimal(w, f, junk);
    }
  }

  lemma PrefixOfWhole(n: string, junk: string)
    requires n != [] && AllDigits(n)
    requires junk == [] || !IsNumberChar(junk[0])
    ensures NumericPrefix(n + junk) == Some(DigitsValue(n) as real)
  {
    var s := n + junk;
    DigitSpanOf(n, junk);
    assert s[..|n|] == n && s[|n|..] == junk;
  }

  lemma PrefixOfDecimal(w: string, f: string, junk: string)
    requires AllDigits(w) && AllDigits(f) && f != []
    requires junk == [] || !IsNumberChar(junk[0])
    ensures NumericPrefix(w + ['.'] + f + junk) == Some(DecimalValue(w, f))
  {
    var s := w + ['.'] + f + junk;
    assert s == w + (['.'] + f + junk);
    DigitSpanOf(w, ['.'] + f + junk);
    var rest := s[|w|..];
    assert rest == ['.'] + f + junk;
    assert rest[1..] == f + junk;
    DigitSpanOf(f, junk);
    assert rest[1..][..|f|] == f;
    assert s[..|w|] == w;
  }

  /** The written conversion agrees with the meaning of the unit whenever the
      matched unit lowers to one of the four spellings it tests. */
  lemma ConvertAsWrittenAgrees(val: real, u: string)
    requires IsUnit(u)
    requires Lower(u) in ["us", "\U{B5}s", "ms", "s"]
    ensures ConvertAsWritten(val, u) == ToMillis(val, u)
  {
    var l := Lower(u);
    assert l[0] == LowerChar(u[0]);
    if |u| == 2 {
      assert l[1] == LowerChar(u[1]);
    }
  }

  /** Outside the folded spellings the two definitions coincide. */
  lemma AsWrittenAgrees(raw: JsonValue)
    requires Read(raw).Timed? ==> Lower(Read(raw).unit) in ["us", "\U{B5}s", "ms", "s"]
    ensures ParseNumberAsWritten(raw) == ParseNumber(raw)
  {
    if Read(raw).Timed? {
      ConvertAsWrittenAgrees(Read(raw).val, Read(raw).unit);
    }
  }

  /** The characters that case-insensitive matching accepts in a unit but
      that `str.lower()` does not turn into one of the four tested spellings:
      LATIN SMALL LETTER LONG S and both Greek letters mu. */
  predicate FoldsAway(c: char) {
    c == '\U{17F}' || c == '\U{3BC}' || c == '\U{39C}'
  }

  /** The conversion as written recognises a matched unit exactly when none of
      its characters is one of those. */
  lemma LowerRecognised(u: string)
    requires IsUnit(u)
    ensures Lower(u) in ["us", "\U{B5}s", "ms", "s"] <==> forall i :: 0 <= i < |u| ==> !FoldsAway(u[i])
  {
    var l := Lower(u);
    if |u| == 1 {
      assert l == [LowerChar(u[0])];
    } else {
      assert l == [LowerChar(u[0]), LowerChar(u[1])];
    }
  }

  /** A duration whose unit holds one of those characters matches the
      pattern, but lines 31-39 return its number unconverted. */
  lemma FoldedUnitUnconverted(n: string, u: string)
    requires NumberToken(n).Some?
    requires IsUnit(u) && exists i :: 0 <= i < |u| && FoldsAway(u[i])
    ensures ParseNumberAsWritten(JsonString(n + u)) == Value(NumberToken(n).value)
    ensures ParseNumber(JsonString(n + u)) == Value(ToMillis(NumberToken(n).value, u))
  {
    var none, x := "", NumberToken(n).value;
    assert n + u == n + none + u;
    ReadTimed(n, none, u);
    assert ConvertAsWritten(x, u) == x by {
      LowerRecognised(u);
    }
  }

  /** "5μs" with GREEK SMALL LETTER MU: five microseconds, reported as five
      milliseconds by the code as written. */
  lemma GreekMuReturnedUnconverted(s: string)
    requires s == "5\U{3BC}s"
    ensures ParseNumberAsWritten(JsonString(s)) == Value(5.0)
    ensures ParseNumber(JsonString(s)) == Value(0.005)
  {
    var n, u := "5", s[1..];
    assert s == n + u;
    assert NumberToken(n) == Some(5.0);
    assert FoldsAway(u[0]);
    FoldedUnitUnconverted(n, u);
  }
}
