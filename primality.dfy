/**
 * The coordinator's primality test: trial division by every candidate from 2
 * up to `value / 2`, with no early exit.
 */
module Primality {
  import opened Config

  predicate Divides(d: nat, n: nat)
  {
    d > 0 && n % d == 0
  }

  /** The mathematical definition: at least 2 and no divisor strictly between 1 and itself. */
  ghost predicate IsPrimeSpec(n: nat)
  {
    n >= 2 && forall d :: 2 <= d < n ==> !Divides(d, n)
  }

  /** Trying divisors up to n / 2 is enough: a divisor above n / 2 and below n cannot exist. */
  lemma {:induction false} HalfRangeSuffices(n: nat)
    requires n >= 2
    requires forall d :: 2 <= d <= n / 2 ==> !Divides(d, n)
    ensures IsPrimeSpec(n)
  {
    forall d | 2 <= d < n
      ensures !Divides(d, n)
    {
      if d > n / 2 {
        AboveHalfLeavesRemainder(d, n);
      }
    }
  }

  /** For n / 2 < d < n the quotient is 1 and the remainder n - d is positive. */
  lemma AboveHalfLeavesRemainder(d: nat, n: nat)
    requires n / 2 < d < n
    ensures n % d == n - d > 0
  {
    assert 0 < n - d < d;
    assert n == d * 1 + (n - d);
  }

  /**
   * `isPrime`: false for 0 and 1; otherwise the loop clears `retval` whenever a
   * candidate in [2, value / 2] divides `value`. The counter is a `uint32_t` and
   * never passes `value / 2 + 1`, so it cannot wrap.
   */
  method IsPrime(value: u32) returns (retval: bool)
    ensures retval == IsPrimeSpec(value as nat)
  {
    retval := true;
    if value <= 1 {
      retval := false;
    }
    ghost var n := value as nat;
    var i: u32 := 2;
    while i <= value / 2
      invariant 2 <= i && (i == 2 || i <= value / 2 + 1)
      invariant retval == (n >= 2 && forall d :: 2 <= d < i as nat ==> !Divides(d, n))
    {
      assert Divides(i as nat, n) <==> value % i == 0;
      if value % i == 0 {
        retval := false;
      }
      i := i + 1;
    }
    if value >= 2 && retval {
      HalfRangeSuffices(n);
    }
  }

  lemma SmallPrimes()
    ensures !IsPrimeSpec(0) && !IsPrimeSpec(1)
    ensures IsPrimeSpec(2) && IsPrimeSpec(3) && IsPrimeSpec(5)
    ensures !IsPrimeSpec(4)
  {
    assert Divides(2, 4);
    forall d | 2 <= d < 5 ensures !Divides(d, 5) {
      assert d == 2 || d == 3 || d == 4;
    }
  }
}
