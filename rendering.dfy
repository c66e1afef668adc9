/**
 * The line a worker prints for a message: `snprintf(buffer, 14, "<Label> %ld", value)`
 * followed, for a prime, by `strncat(buffer, " Prime", 7)`. `Render` is the line
 * with the value in unsigned decimal and nothing cut; `RenderAsWritten` is the
 * line as those two calls build it on the ESP32, where `long` has 32 bits.
 */
module Rendering {
  import opened Wrappers
  import opened Config
  import opened Decimal
  import opened LibC

  const FOO_LABEL: string := "Foo"
  const BAR_LABEL: string := "Bar"
  const PRIME_SUFFIX: string := " Prime"

  /** The size the workers pass to `snprintf`: 13 characters and the terminating NUL. */
  const SNPRINTF_SIZE: nat := 14

  /** The formatted part of a line: the name, one space, the value in decimal. */
  function Head(name: string, value: u32): string
  {
    name + " " + Dec(value as nat)
  }

  function Suffix(isPrime: bool): string
  {
    if isPrime then PRIME_SUFFIX else ""
  }

  /** The line for `m`, with a buffer large enough for every 32-bit value. */
  function Render(name: string, m: Msg): string
  {
    Head(name, m.value) + Suffix(m.isPrime)
  }

  /** What `snprintf` with size `n + 1` keeps of `s`: its first `n` characters. */
  function Truncate(s: string, n: nat): (r: string)
    ensures |r| <= n && r <= s
    ensures |s| <= n ==> r == s
    ensures |s| > n ==> |r| == n
  {
    if |s| <= n then s else s[..n]
  }

  /**
   * How `%ld` reads a `uint32_t` argument when `long` has 32 bits: the same
   * bits in two's complement, so values above LONG_MAX come out negative.
   */
  function AsLong(v: u32): (x: int)
    ensures LONG_MIN <= x <= LONG_MAX
    ensures (x - v as int) % 0x1_0000_0000 == 0
  {
    if v as int <= LONG_MAX then v as int else v as int - 0x1_0000_0000
  }

  /** `%ld`: an optional minus sign, then the magnitude in decimal. */
  function LongDec(x: int): (s: string)
    ensures |s| >= 1
    ensures x >= 0 ==> AllDigits(s)
    ensures x < 0 ==> s[0] == '-' && AllDigits(s[1..])
    // the digits carry the magnitude of x
    ensures x >= 0 ==> DigitsValue(s) == x
    ensures x < 0 ==> DigitsValue(s[1..]) == -x
    // and carry no leading zero
    ensures x >= 0 ==> |s| == 1 || s[0] != '0'
    ensures x < 0 ==> |s| == 2 || s[1] != '0'
  {
    if x < 0 then
      DecRoundTrip(-x);
      assert ("-" + Dec(-x))[1..] == Dec(-x);
      "-" + Dec(-x)
    else
      DecRoundTrip(x);
      Dec(x)
  }

  /** The line as the workers build it: `%ld`, and the formatted part cut to 13 characters. */
  function RenderAsWritten(name: string, m: Msg): (text: string)
    ensures |text| <= SNPRINTF_SIZE - 1 + |PRIME_SUFFIX| < PRINT_BUFFER_SIZE
  {
    Truncate(name + " " + LongDec(AsLong(m.value)), SNPRINTF_SIZE - 1) + Suffix(m.isPrime)
  }

  predicate MarkedPrime(t: string)
  {
    |t| >= |PRIME_SUFFIX| && t[|t| - |PRIME_SUFFIX|..] == PRIME_SUFFIX
  }

  /** Reads a printed line back into its three-letter name and its message. */
  function Parse(t: string): Option<(string, Msg)>
  {
    var head := if MarkedPrime(t) then t[..|t| - |PRIME_SUFFIX|] else t;
    if |head| < 5 || head[3] != ' ' || !AllDigits(head[4..]) then None
    else
      var v := DigitsValue(head[4..]);
      if v < 0x1_0000_0000 then Some((head[..3], Msg(v as u32, MarkedPrime(t)))) else None
  }

  /** A line carries its name, its value and its primality: reading it back gives the message. */
  lemma RenderRoundTrip(name: string, m: Msg)
    requires |name| == 3
    ensures Parse(Render(name, m)) == Some((name, m))
  {
    var t := Render(name, m);
    var digits := Dec(m.value as nat);
    var head := Head(name, m.value);
    DecRoundTrip(m.value as nat);
    if m.isPrime {
      assert MarkedPrime(t);
      assert t[..|t| - |PRIME_SUFFIX|] == head;
    } else {
      assert t == head;
      assert t[|t| - 1] == digits[|digits| - 1];
      assert IsDigit(t[|t| - 1]);
      assert !MarkedPrime(t);
    }
    assert head[4..] == digits;
    assert head[..3] == name;
  }

  /** Every line fits the 64-byte print buffer: at most 3 + 1 + 10 + 6 characters. */
  lemma RenderFitsBuffer(name: string, m: Msg)
    requires |name| == 3
    ensures |Render(name, m)| <= 20 < PRINT_BUFFER_SIZE
  {
    assert Pow10(10) == 10_000_000_000;
    DecLength(m.value as nat, 10);
  }

  /** Values below 10^9 are neither cut nor negative: the workers' line is exactly `Render`. */
  lemma AsWrittenExactBelowBillion(name: string, m: Msg)
    requires |name| == 3 && m.value < 1_000_000_000
    ensures RenderAsWritten(name, m) == Render(name, m)
  {
    assert Pow10(9) == 1_000_000_000;
    DecLength(m.value as nat, 9);
    assert LongDec(AsLong(m.value)) == Dec(m.value as nat);
  }

  /**
   * A ten-digit value loses its last digit: the line as written reads as the
   * message for `value / 10`.
   */
  lemma AsWrittenDropsLastDigit(name: string, m: Msg)
    requires |name| == 3 && 1_000_000_000 <= m.value as int <= LONG_MAX
    ensures RenderAsWritten(name, m) == Render(name, Msg(m.value / 10, m.isPrime))
    ensures RenderAsWritten(name, m) != Render(name, m)
  {
    var v := m.value as nat;
    assert LongDec(AsLong(m.value)) == Dec(v);
    assert Pow10(9) == 1_000_000_000;
    assert Pow10(10) == 10_000_000_000;
    DecLength(v, 10);
    DecLengthAtLeast(v, 10);
    assert Dec(v) == Dec(v / 10) + [DigitChar(v % 10)];
    assert Truncate(Head(name, m.value), SNPRINTF_SIZE - 1) == Head(name, m.value / 10);
    assert |Head(name, m.value / 10)| == 13 < |Head(name, m.value)|;
    assert |RenderAsWritten(name, m)| < |Render(name, m)|;
  }

  /** The smallest such value: 1000000000 is printed as "Foo 100000000". */
  lemma AsWrittenBillion()
    ensures RenderAsWritten(FOO_LABEL, Msg(1_000_000_000, false)) == "Foo 100000000"
    ensures Render(FOO_LABEL, Msg(1_000_000_000, false)) == "Foo 1000000000"
  {
    DecOfBillion();
    AsWrittenDropsLastDigit(FOO_LABEL, Msg(1_000_000_000, false));
    assert Render(FOO_LABEL, Msg(100_000_000, false)) == "Foo " + "100000000";
    assert Render(FOO_LABEL, Msg(1_000_000_000, false)) == "Foo " + "1000000000";
  }

  /**
   * A value above LONG_MAX is printed as a negative number, which no line of
   * `Render` is: its sixth character is a minus sign instead of a digit.
   */
  lemma AsWrittenPrintsNegative(name: string, m: Msg)
    requires |name| == 3 && m.value as int > LONG_MAX
    ensures var t := RenderAsWritten(name, m); |t| > 4 && t[..4] == name + " " && t[4] == '-'
    ensures RenderAsWritten(name, m) != Render(name, m)
  {
    var head := name + " " + LongDec(AsLong(m.value));
    var t := RenderAsWritten(name, m);
    assert head[4] == '-';
    assert t[..5] == head[..5];
    assert t[..4] == name + " ";
    var digits := Dec(m.value as nat);
    assert Render(name, m)[4] == digits[0];
    assert IsDigit(digits[0]);
  }

  /** The value stored for the text "-5", 4294967291, is printed as "-5". */
  lemma AsWrittenMinusFive(isPrime: bool)
    ensures RenderAsWritten(BAR_LABEL, Msg(4_294_967_291, isPrime)) == "Bar -5" + Suffix(isPrime)
  {
    assert AsLong(4_294_967_291) == -5;
    assert Dec(5) == "5";
  }

  lemma DecOfBillion()
    ensures Dec(100_000_000) == "100000000"
    ensures Dec(1_000_000_000) == "1000000000"
  {
    assert Dec(1) == "1";
    assert Dec(10) == "10";
    assert Dec(100) == "100";
    assert Dec(1_000) == "1000";
    assert Dec(10_000) == "10000";
    assert Dec(100_000) == "100000";
    assert Dec(1_000_000) == "1000000";
    assert Dec(10_000_000) == "10000000";
    assert Dec(100_000_000) == "100000000";
  }
}
