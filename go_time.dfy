/** Instants, durations and the part of Go's `time` package the core relies
    on: `time.ParseDuration`, the seconds truncation of JWT numeric dates, and
    the 64-bit wrap-around of `time.Duration` arithmetic. */
module GoTime {
  import opened Wrappers

  /** An instant: nanoseconds since the Unix epoch. */
  type Time = int
  /** `time.Duration`: a count of nanoseconds (an `int64` in Go). */
  type Duration = int

  const Nanosecond: nat := 1
  const Microsecond: nat := 1000 * Nanosecond
  const Millisecond: nat := 1000 * Microsecond
  const Second: nat := 1000 * Millisecond
  const Minute: nat := 60 * Second
  const Hour: nat := 60 * Minute

  const Two63: nat := 0x8000_0000_0000_0000
  const Two64: nat := 0x1_0000_0000_0000_0000
  const MaxInt64: int := Two63 - 1
  const MinInt64: int := -(Two63 as int)

  predicate IsInt64(x: int) {
    MinInt64 <= x <= MaxInt64
  }

  /** Two's-complement wrap-around of an `int64` result. */
  function Wrap64(x: int): (r: int)
    ensures IsInt64(r)
    ensures (r - x) % Two64 == 0
    ensures IsInt64(x) ==> r == x
  {
    (x + Two63) % Two64 - Two63
  }

  /** `jwt.NewNumericDate`: the instant truncated to whole seconds. */
  function NumericDate(t: Time): (r: Time)
    ensures r <= t < r + Second
    ensures r % Second == 0
  {
    t - t % Second
  }

  // ---------------------------------------------------------------------
  // Decimal digits.

  predicate IsDigit(c: char) {
    '0' <= c <= '9'
  }

  predicate AllDigits(s: string) {
    forall i :: 0 <= i < |s| ==> IsDigit(s[i])
  }

  function DigitValue(c: char): nat
    requires IsDigit(c)
  {
    c as int - '0' as int
  }

  function DigitChar(d: nat): (c: char)
    requires d < 10
    ensures IsDigit(c) && DigitValue(c) == d
  {
    ('0' as int + d) as char
  }

  /** The number a run of decimal digits denotes. */
  function DigitsValue(s: string): nat
    requires AllDigits(s)
  {
    if s == [] then 0 else 10 * DigitsValue(s[..|s| - 1]) + DigitValue(s[|s| - 1])
  }

  /** The decimal numeral of `n`, without leading zeros. */
  function NatToString(n: nat): (s: string)
    ensures |s| >= 1 && AllDigits(s)
  {
    if n < 10 then [DigitChar(n)] else NatToString(n / 10) + [DigitChar(n % 10)]
  }

  /** Numerals denote the number they were formatted from. */
  lemma {:induction false} DigitsValueOfNatToString(n: nat)
    ensures DigitsValue(NatToString(n)) == n
  {
    if n >= 10 {
      DigitsValueOfNatToString(n / 10);
      var s := NatToString(n);
      assert s[..|s| - 1] == NatToString(n / 10);
    }
  }

  /** The length of the run of digits `s` starts with. */
  function LeadingDigits(s: string): (n: nat)
    ensures n <= |s| && AllDigits(s[..n])
    ensures n < |s| ==> !IsDigit(s[n])
  {
    if s != [] && IsDigit(s[0]) then
      var n := 1 + LeadingDigits(s[1..]);
      assert s[..n] == [s[0]] + s[1..][..n - 1];
      n
    else 0
  }

  lemma {:induction false} LeadingDigitsOfNumeral(p: string, rest: string)
    requires AllDigits(p)
    requires rest == [] || !IsDigit(rest[0])
    ensures LeadingDigits(p + rest) == |p|
  {
    if p != [] {
      assert (p + rest)[1..] == p[1..] + rest;
      LeadingDigitsOfNumeral(p[1..], rest);
    }
  }

  // ---------------------------------------------------------------------
  // time.ParseDuration.

  /** The unit table of `time.ParseDuration`, in nanoseconds. Both the micro
      sign U+00B5 and the Greek mu U+03BC spell microseconds. */
  function UnitValue(u: string): (r: Option<nat>)
    ensures r.Some? ==> r.value >= 1
  {
    if u == "ns" then Some(Nanosecond)
    else if u == "us" || u == "µs" || u == "μs" then Some(Microsecond)
    else if u == "ms" then Some(Millisecond)
    else if u == "s" then Some(Second)
    else if u == "m" then Some(Minute)
    else if u == "h" then Some(Hour)
    else None
  }

  /** The length of the unit that starts `s`: everything up to the next digit or '.'. */
  function UnitLength(s: string): (n: nat)
    ensures n <= |s|
    ensures forall i :: 0 <= i < n ==> s[i] != '.' && !IsDigit(s[i])
    ensures n < |s| ==> s[n] == '.' || IsDigit(s[n])
  {
    if s != [] && s[0] != '.' && !IsDigit(s[0]) then 1 + UnitLength(s[1..]) else 0
  }

  function Pow10(n: nat): (r: nat)
    ensures r >= 1
  {
    if n == 0 then 1 else 10 * Pow10(n - 1)
  }

  /** The number of fractional digits after a '.' that starts `rest`. */
  function FractionLength(rest: string): (n: nat)
    ensures rest != [] && rest[0] == '.' ==> n < |rest|
    ensures !(rest != [] && rest[0] == '.') ==> n == 0
  {
    if rest != [] && rest[0] == '.' then LeadingDigits(rest[1..]) else 0
  }

  /** The value of the fractional digits after a '.' that starts `rest`. */
  function FractionValue(rest: string): nat
  {
    if rest != [] && rest[0] == '.' then DigitsValue(rest[1..][..FractionLength(rest)]) else 0
  }

  /** A segment's value: `v` units plus the fraction `frac / 10^fracLen` of a
      unit, rounded down to whole nanoseconds. */
  function SegmentValue(v: nat, frac: nat, fracLen: nat, unit: nat): nat
  {
    v * unit + FloorDiv(frac * unit, Pow10(fracLen))
  }

  function FloorDiv(a: nat, b: nat): nat
    requires b >= 1
  {
    a / b
  }

  /** The value of a segment once its number and unit are read: None for an
      unknown unit or a value over 2^63. */
  function ScaleSegment(v: nat, frac: nat, fracLen: nat, unit: Option<nat>): (r: Option<nat>)
    ensures r.Some? ==> r.value <= Two63
  {
    if v > Two63 then None
    else
      match unit
      case None => None
      case Some(u) =>
        if u == 0 || v > Two63 / u then None
        else
          var whole := SegmentValue(v, frac, fracLen, u);
          if whole > Two63 then None else Some(whole)
  }

  /** One segment `[0-9]*(\.[0-9]*)?unit` at the start of `s`: its value in
      nanoseconds and its length; None on a missing number, a missing or
      unknown unit, or a value over 2^63. */
  function Segment(s: string): (r: Option<(nat, nat)>)
    ensures r.Some? ==> r.value.0 <= Two63 && 1 <= r.value.1 <= |s|
  {
    if s == [] || (s[0] != '.' && !IsDigit(s[0])) then None
    else
      var n := LeadingDigits(s);
      var fracLen := FractionLength(s[n..]);
      var unitStart := if n < |s| && s[n] == '.' then n + 1 + fracLen else n;
      var i := UnitLength(s[unitStart..]);
      if n == 0 && fracLen == 0 then None
      else if i == 0 then None
      else
        match ScaleSegment(DigitsValue(s[..n]), FractionValue(s[n..]), fracLen, UnitValue(s[unitStart..][..i]))
        case None => None
        case Some(whole) => Some((whole, unitStart + i))
  }

  /** The segments of a duration after its sign, added to `acc`; None on a
      bad segment or a total over 2^63. */
  function ParseSegments(s: string, acc: nat): (r: Option<nat>)
    requires acc <= Two63
    ensures r.Some? ==> acc <= r.value <= Two63
    decreases |s|
  {
    if s == [] then Some(acc)
    else
      match Segment(s)
      case None => None
      case Some((whole, len)) =>
        if acc + whole > Two63 then None else ParseSegments(s[len..], acc + whole)
  }

  /** `time.ParseDuration`: an optional sign, then "0" alone or one or more
      segments; the result must fit an `int64`. */
  function ParseDuration(s: string): (r: Option<Duration>)
    ensures s == "" ==> r == None
    ensures s == "0" ==> r == Some(0)
    ensures r.Some? ==> IsInt64(r.value)
  {
    var neg := s != [] && s[0] == '-';
    var body := if s != [] && (s[0] == '-' || s[0] == '+') then s[1..] else s;
    if body == "0" then Some(0)
    else if body == [] then None
    else
      match ParseSegments(body, 0)
      case None => None
      case Some(d) =>
        if neg then Some(-(d as int))
        else if d > MaxInt64 then None
        else Some(d)
  }

  lemma UnitLengthOfUnit(u: string)
    requires UnitValue(u).Some?
    ensures UnitLength(u) == |u|
  {
  }

  /** The overflow test `v > 2^63 / unit` is exactly `v * unit > 2^63`. */
  lemma OverflowTest(v: nat, unit: nat)
    requires unit >= 1
    ensures v <= Two63 / unit <==> v * unit <= Two63
    ensures v <= v * unit
  {
    var q := Two63 / unit;
    var m := Two63 % unit;
    assert Two63 == q * unit + m && m < unit;
    MulMonotone(1, unit, v);
    if v <= q {
      MulMonotone(v, q, unit);
    } else {
      MulMonotone(q + 1, v, unit);
      assert (q + 1) * unit == q * unit + unit;
    }
  }

  lemma MulMonotone(a: nat, b: nat, c: nat)
    requires a <= b
    ensures a * c <= b * c
  {
  }

  /** A whole number of units is one segment worth `v * unit`, unless that exceeds 2^63. */
  lemma ScaleWhole(v: nat, unit: nat)
    requires unit >= 1
    ensures ScaleSegment(v, 0, 0, Some(unit)) == if v * unit <= Two63 then Some(v * unit) else None
  {
    OverflowTest(v, unit);
    SegmentValueWhole(v, unit);
  }

  /** A numeral followed by a unit is one segment worth that many units. */
  lemma SegmentOfNumeral(digits: string, u: string)
    requires AllDigits(digits) && |digits| >= 1
    requires UnitValue(u).Some?
    ensures var v := DigitsValue(digits) * UnitValue(u).value;
      Segment(digits + u) == if v <= Two63 then Some((v, |digits| + |u|)) else None
  {
    var s := digits + u;
    var n := |digits|;
    NumeralParts(digits, u);
    ScaleWhole(DigitsValue(digits), UnitValue(u).value);
  }

  /** How `Segment` splits a numeral followed by a unit. */
  lemma NumeralParts(digits: string, u: string)
    requires AllDigits(digits) && |digits| >= 1
    requires UnitValue(u).Some?
    ensures var s := digits + u; var n := |digits|;
      && s != [] && IsDigit(s[0]) && LeadingDigits(s) == n && s[..n] == digits
      && !(n < |s| && s[n] == '.') && FractionLength(s[n..]) == 0 && FractionValue(s[n..]) == 0
      && UnitLength(s[n..]) == |u| && s[n..][..|u|] == u
  {
    var s := digits + u;
    var n := |digits|;
    LeadingDigitsOfNumeral(digits, u);
    assert s[..n] == digits;
    assert s[n..] == u;
    assert IsDigit(s[0]);
    UnitLengthOfUnit(u);
    assert s[n..][..|u|] == u;
  }

  lemma SegmentValueWhole(v: nat, unit: nat)
    ensures SegmentValue(v, 0, 0, unit) == v * unit
  {
    assert 0 * unit == 0;
    assert FloorDiv(0, Pow10(0)) == 0;
  }

  lemma ParseSegmentsOneUnit(digits: string, u: string, acc: nat)
    requires AllDigits(digits) && |digits| >= 1
    requires UnitValue(u).Some?
    requires acc <= Two63
    ensures var v := DigitsValue(digits) * UnitValue(u).value;
      ParseSegments(digits + u, acc) == if acc + v <= Two63 then Some(acc + v) else None
  {
    SegmentOfNumeral(digits, u);
    assert (digits + u)[|digits| + |u|..] == [];
  }

  /** A whole number of hours parses to that many hours, or fails when it
      does not fit an `int64`. */
  lemma ParseHours(n: nat)
    ensures ParseDuration(NatToString(n) + "h") == if n * Hour <= MaxInt64 then Some(n * Hour) else None
  {
    var s := NatToString(n) + "h";
    DigitsValueOfNatToString(n);
    ParseSegmentsOneUnit(NatToString(n), "h", 0);
    assert s != [] && s[0] == NatToString(n)[0];
    assert s != "0" by { assert |s| >= 2; }
  }
}
