/**
 * Decimal numerals: the text `printf`'s `%ld` produces for a non-negative value,
 * and the value a run of ASCII digits denotes.
 */
module Decimal {

  predicate IsDigit(c: char)
  {
    '0' <= c <= '9'
  }

  predicate AllDigits(s: string)
  {
    forall i :: 0 <= i < |s| ==> IsDigit(s[i])
  }

  function DigitChar(d: nat): (c: char)
    requires d < 10
    ensures IsDigit(c)
    ensures c as int - '0' as int == d
  {
    ('0' as int + d) as char
  }

  function DigitValue(c: char): (d: nat)
    requires IsDigit(c)
    ensures d < 10 && DigitChar(d) == c
  {
    c as int - '0' as int
  }

  function Pow10(k: nat): (p: nat)
    ensures p >= 1
  {
    if k == 0 then 1 else 10 * Pow10(k - 1)
  }

  /** The shortest decimal numeral of `n`: at least one digit, no leading zero. */
  function Dec(n: nat): (s: string)
    ensures |s| >= 1 && AllDigits(s)
    ensures |s| > 1 ==> s[0] != '0'
    decreases n
  {
    if n < 10 then [DigitChar(n)] else Dec(n / 10) + [DigitChar(n % 10)]
  }

  /** The value of a string of digits, most significant first. */
  function DigitsValue(s: string): nat
    requires AllDigits(s)
  {
    if s == [] then 0 else DigitsValue(s[..|s| - 1]) * 10 + DigitValue(s[|s| - 1])
  }

  /** Reading back the numeral of `n` gives `n`. */
  lemma {:induction false} DecRoundTrip(n: nat)
    ensures DigitsValue(Dec(n)) == n
    decreases n
  {
    if n >= 10 {
      DecRoundTrip(n / 10);
      assert Dec(n)[..|Dec(n)| - 1] == Dec(n / 10);
    }
  }

  /** A numeral with two or more digits and no leading zero denotes at least ten. */
  lemma {:induction false} LongNumeralAtLeastTen(s: string)
    requires |s| >= 2 && AllDigits(s) && s[0] != '0'
    ensures DigitsValue(s) >= 10
    decreases |s|
  {
    var init := s[..|s| - 1];
    if |init| >= 2 {
      LongNumeralAtLeastTen(init);
    } else {
      assert init == [s[0]];
      assert DigitsValue(init) == DigitValue(s[0]);
    }
  }

  /** Conversely, a numeral without a leading zero is the numeral of its value. */
  lemma {:induction false} DigitsRoundTrip(s: string)
    requires |s| >= 1 && AllDigits(s) && (|s| > 1 ==> s[0] != '0')
    ensures Dec(DigitsValue(s)) == s
    decreases |s|
  {
    var init := s[..|s| - 1];
    if |s| == 1 {
      assert DigitsValue(s) == DigitValue(s[0]) by {
        assert init == [];
      }
    } else {
      LongNumeralAtLeastTen(s);
      assert init[0] == s[0];
      DigitsRoundTrip(init);
      var n := DigitsValue(s);
      assert n / 10 == DigitsValue(init) && n % 10 == DigitValue(s[|s| - 1]);
      assert s == init + [s[|s| - 1]];
    }
  }

  /** A value below 10^k has at most k digits. */
  lemma {:induction false} DecLength(n: nat, k: nat)
    requires k >= 1 && n < Pow10(k)
    ensures |Dec(n)| <= k
    decreases k
  {
    if n >= 10 {
      assert k >= 2;
      DecLength(n / 10, k - 1);
    }
  }

  /** A value of at least 10^(k-1) has at least k digits. */
  lemma {:induction false} DecLengthAtLeast(n: nat, k: nat)
    requires k >= 1 && Pow10(k - 1) <= n
    ensures |Dec(n)| >= k
    decreases k
  {
    if k >= 2 {
      assert n >= 10;
      DecLengthAtLeast(n / 10, k - 1);
    }
  }
}
