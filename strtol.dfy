/**
 * `strtol(nptr, &endptr, 10)` as section 7.22.1.4 of ISO/IEC 9899 (C11)
 * specifies it, for a `long` of 32 bits as on the ESP32: skip white space,
 * accept an optional sign, take the longest run of decimal digits; with no
 * digits nothing is converted, the result is 0 and `endptr` is `nptr`; a
 * value outside the range of `long` gives LONG_MAX or LONG_MIN and sets
 * `errno` to ERANGE.
 */
module LibC {
  import opened Decimal

  const LONG_MAX: int := 0x7FFF_FFFF
  const LONG_MIN: int := -0x8000_0000

  /** `isspace` in the "C" locale: space, and the controls from tab to carriage return. */
  predicate IsSpace(c: char)
  {
    c == ' ' || '\t' <= c <= '\r'
  }

  /** How many white-space characters `s` starts with. */
  function SpacePrefix(s: string): (n: nat)
    ensures n <= |s|
    ensures forall i :: 0 <= i < n ==> IsSpace(s[i])
    ensures n < |s| ==> !IsSpace(s[n])
  {
    if s == [] || !IsSpace(s[0]) then 0 else 1 + SpacePrefix(s[1..])
  }

  /** How many decimal digits `s` starts with. */
  function DigitRun(s: string): (n: nat)
    ensures n <= |s| && AllDigits(s[..n])
    ensures n < |s| ==> !IsDigit(s[n])
  {
    if s == [] || !IsDigit(s[0]) then 0 else 1 + DigitRun(s[1..])
  }

  /** Where the digits of the subject sequence may start: after the white space and an optional sign. */
  function SignEnd(s: string): (j: nat)
    ensures SpacePrefix(s) <= j <= SpacePrefix(s) + 1 && j <= |s|
    ensures j == SpacePrefix(s) + 1 <==> SpacePrefix(s) < |s| && (s[SpacePrefix(s)] == '+' || s[SpacePrefix(s)] == '-')
  {
    var i := SpacePrefix(s);
    if i < |s| && (s[i] == '+' || s[i] == '-') then i + 1 else i
  }

  /** The value returned, the index `endptr` is left at, and whether ERANGE was raised. */
  datatype Conversion = Conversion(value: int, end: nat, rangeError: bool)

  function StrToL(s: string): (r: Conversion)
    ensures r.end <= |s|
    ensures LONG_MIN <= r.value <= LONG_MAX
    // without digits nothing is converted
    ensures r.end == 0 ==> r.value == 0 && !r.rangeError
    // `endptr` is left at the start exactly when no digit follows the white space and sign,
    // and otherwise just after the digits
    ensures r.end == 0 <==> DigitRun(s[SignEnd(s)..]) == 0
    ensures r.end > 0 ==> r.end == SignEnd(s) + DigitRun(s[SignEnd(s)..])
  {
    var i := SpacePrefix(s);
    var signed := i < |s| && (s[i] == '+' || s[i] == '-');
    var j := if signed then i + 1 else i;
    var n := DigitRun(s[j..]);
    if n == 0 then Conversion(0, 0, false)
    else
      assert s[j..j + n] == s[j..][..n];
      var magnitude: int := DigitsValue(s[j..j + n]);
      Clamp(if signed && s[i] == '-' then -magnitude else magnitude, j + n)
  }

  /** The conversion of value `v` read up to `end`: saturated, with ERANGE, outside the range of `long`. */
  function Clamp(v: int, end: nat): (r: Conversion)
    ensures r.end == end
    ensures r.rangeError <==> v < LONG_MIN || LONG_MAX < v
    ensures !r.rangeError ==> r.value == v
    ensures r.rangeError ==> r.value == (if v > LONG_MAX then LONG_MAX else LONG_MIN)
  {
    if v > LONG_MAX then Conversion(LONG_MAX, end, true)
    else if v < LONG_MIN then Conversion(LONG_MIN, end, true)
    else Conversion(v, end, false)
  }

  lemma {:induction false} DigitRunOfNumeral(s: string, tail: string)
    requires AllDigits(s)
    requires tail == [] || !IsDigit(tail[0])
    ensures DigitRun(s + tail) == |s|
    decreases |s|
  {
    if s != [] {
      assert (s + tail)[1..] == s[1..] + tail;
      DigitRunOfNumeral(s[1..], tail);
    }
  }

  /**
   * A numeral followed by anything that is not a digit: the conversion reads
   * exactly the numeral, and reports ERANGE exactly when it exceeds LONG_MAX.
   */
  lemma NumeralConverts(s: string, tail: string)
    requires |s| >= 1 && AllDigits(s)
    requires tail == [] || !IsDigit(tail[0])
    ensures var c := StrToL(s + tail);
      c.end == |s| &&
      (c.rangeError <==> DigitsValue(s) > LONG_MAX) &&
      c.value == (if DigitsValue(s) > LONG_MAX then LONG_MAX else DigitsValue(s))
  {
    var t := s + tail;
    assert !IsSpace(t[0]) && t[0] != '+' && t[0] != '-';
    assert SpacePrefix(t) == 0;
    assert t[0..] == t;
    DigitRunOfNumeral(s, tail);
    assert DigitRun(t[0..]) == |s|;
    assert t[0..0 + |s|] == s;
    assert StrToL(t) == Clamp(DigitsValue(s), |s|);
  }

  /** A leading minus sign negates the numeral that follows it. */
  lemma NegativeNumeralConverts(t: string)
    requires |t| >= 2 && t[0] == '-' && AllDigits(t[1..]) && DigitsValue(t[1..]) <= -LONG_MIN
    ensures StrToL(t) == Conversion(-(DigitsValue(t[1..]) as int), |t|, false)
  {
    assert SpacePrefix(t) == 0;
    var digits := t[1..];
    assert digits + [] == digits;
    DigitRunOfNumeral(digits, []);
    assert t[1..1 + |digits|] == digits;
  }

  /** Text that starts with neither white space, a sign nor a digit converts nothing. */
  lemma NothingConverted(s: string)
    requires s != [] && !IsSpace(s[0]) && !IsDigit(s[0]) && s[0] != '+' && s[0] != '-'
    ensures StrToL(s) == Conversion(0, 0, false)
  {
  }
}
