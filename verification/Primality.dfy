/** Trial division, and the number theory behind a prime-sized table. */
module Primality {
  import opened Core
  import opened Arith

  const DEFAULT_TABLE_SIZE: nat := 65_537
  const MAX_TABLE_SIZE: nat := 5_000_011

  datatype MaglevConfigError = TooSmall | TooLarge | NotPrime

  ghost predicate Divides(d: nat, n: int)
    requires d > 0
  {
    n % d == 0
  }

  ghost predicate IsPrime(n: nat) {
    2 <= n && forall d: nat :: 2 <= d < n ==> !Divides(d, n)
  }

  lemma MultipleIsDivisible(d: nat, q: int)
    requires d > 0
    ensures Divides(d, d * q)
  {
    DivModUnique(d * q, d, q, 0);
  }

  lemma CofactorOf(d: nat, n: nat)
    requires 2 <= d < n && Divides(d, n)
    ensures 2 <= n / d < n && d * (n / d) == n && Divides(n / d, n)
  {
    var q := n / d;
    assert n == d * q;
    QuotientAtLeast(n, d, 2);
    MulMonotone(1, q, d, 2);
    MulMonotone(q, 1, q, d);
    assert n == q * d;
    MultipleIsDivisible(q, d);
  }

  /** An even divisor forces the number itself to be even. */
  lemma EvenDivisorOfEven(d: nat, n: nat)
    requires d > 0 && d % 2 == 0 && Divides(d, n)
    ensures n % 2 == 0
  {
    var q, h := n / d, d / 2;
    assert n == 2 * h * q;
    assert n == 2 * (h * q);
  }

  /** No proper divisor of `n` lies below `bound`. */
  ghost predicate NoDivisorBelow(n: nat, bound: nat) {
    forall d: nat :: 2 <= d < bound && d < n ==> !Divides(d, n)
  }

  /** Trial division only up to the square root misses no divisor. */
  lemma NoSmallDivisorMeansPrime(n: nat, bound: nat)
    requires 2 <= n && 2 <= bound && bound * bound > n && NoDivisorBelow(n, bound)
    ensures IsPrime(n)
  {
    forall d: nat | 2 <= d < n
      ensures !Divides(d, n)
    {
      if Divides(d, n) {
        CofactorOf(d, n);
        MulMonotone(bound, bound, d, n / d);
      }
    }
  }

  /** Even candidates can be skipped once the number is known to be odd. */
  lemma SkipEvenDivisor(n: nat, divisor: nat)
    requires n % 2 == 1 && divisor % 2 == 1 && divisor >= 3
    requires NoDivisorBelow(n, divisor) && n % divisor != 0
    ensures NoDivisorBelow(n, divisor + 2)
  {
    forall d: nat | 2 <= d < divisor + 2 && d < n
      ensures !Divides(d, n)
    {
      if d == divisor + 1 && Divides(d, n) {
        EvenDivisorOfEven(d, n);
      }
    }
  }

  lemma EvenOrOne(n: nat)
    ensures n < 2 ==> !IsPrime(n)
    ensures n % 2 == 0 ==> (IsPrime(n) <==> n == 2)
    ensures NoDivisorBelow(n, 3) <==> n <= 2 || n % 2 != 0
  {
    if n > 2 && n % 2 == 0 {
      assert Divides(2, n);
    }
  }

  lemma ProperDivisor(n: nat, d: nat)
    requires 3 <= d && d * d <= n && n % d == 0
    ensures !IsPrime(n)
  {
    MulMonotone(3, d, d, d);
    assert Divides(d, n);
  }

  method IsPrimeByTrial(value: usize) returns (r: bool)
    ensures r <==> IsPrime(value)
  {
    hide IsPrime, NoDivisorBelow, Divides;
    EvenOrOne(value);
    if value < 2 {
      return false;
    }
    if value % 2 == 0 {
      return value == 2;
    }
    var divisor: usize := 3;
    while divisor <= value / divisor
      invariant 3 <= divisor && divisor % 2 == 1 && NoDivisorBelow(value, divisor)
      decreases value - divisor
    {
      QuotientAtLeast(value, divisor, divisor);
      MulMonotone(3, divisor, divisor, divisor);
      if value % divisor == 0 {
        ProperDivisor(value, divisor);
        return false;
      }
      SkipEvenDivisor(value, divisor);
      divisor := divisor + 2;
    }
    QuotientAtLeast(value, divisor, divisor);
    NoSmallDivisorMeansPrime(value, divisor);
    return true;
  }

  /** Configuration accepts exactly the primes in range, each rejection for its own reason. */
  method NewMaglevConfig(tableSize: usize) returns (r: Result<usize, MaglevConfigError>)
    ensures r == Ok(tableSize) <==> IsPrime(tableSize) && tableSize <= 5_000_011
    ensures r.Ok? ==> r.value == tableSize
    ensures r == Err(TooSmall) <==> tableSize < 2
    ensures r == Err(TooLarge) <==> tableSize > 5_000_011
    ensures r == Err(NotPrime) <==> 2 <= tableSize <= 5_000_011 && !IsPrime(tableSize)
  {
    if tableSize < 2 {
      return Err(TooSmall);
    }
    if tableSize > MAX_TABLE_SIZE {
      return Err(TooLarge);
    }
    var prime := IsPrimeByTrial(tableSize);
    if !prime {
      return Err(NotPrime);
    }
    return Ok(tableSize);
  }

  /** Euclid's lemma for a left factor below the prime. */
  lemma {:induction false} PrimeDividesFactor(p: nat, a: nat, b: int)
    requires IsPrime(p) && 0 < a < p && Divides(p, a * b)
    ensures Divides(p, b)
    decreases a
  {
    if a == 1 {
      assert a * b == b;
    } else {
      var q, r := p / a, p % a;
      assert p == a * q + r;
      assert !Divides(a, p);
      // p*b - q*(a*b) == r*b, a multiple of p with a smaller left factor.
      var k := a * b / p;
      assert a * b == p * k;
      assert r * b == p * (b - q * k) by {
        assert r * b == p * b - a * q * b;
        assert a * q * b == q * (a * b);
        assert q * (p * k) == p * (q * k);
      }
      MultipleIsDivisible(p, b - q * k);
      PrimeDividesFactor(p, r, b);
    }
  }

  /** No odd number from `d` up to `hi` divides `n`; evaluated on literals. */
  predicate NoOddDivisor(n: int, d: int, hi: int)
    requires d > 0
    decreases hi - d
  {
    d >= hi || (n % d != 0 && NoOddDivisor(n, d + 2, hi))
  }

  lemma {:induction false} NoOddDivisorHolds(n: nat, d: nat, hi: nat, k: nat)
    requires d > 0 && NoOddDivisor(n, d, hi) && d + 2 * k < hi
    ensures !Divides(d + 2 * k, n)
    decreases k
  {
    if k > 0 {
      NoOddDivisorHolds(n, d + 2, hi, k - 1);
    }
  }

  lemma {:induction false} NoOddDivisorJoins(n: int, lo: int, mid: int, hi: int)
    requires 0 < lo <= mid <= hi && lo % 2 == mid % 2
    requires NoOddDivisor(n, lo, mid) && NoOddDivisor(n, mid, hi)
    ensures NoOddDivisor(n, lo, hi)
    decreases mid - lo
  {
    if lo < mid {
      NoOddDivisorJoins(n, lo + 2, mid, hi);
    }
  }

  lemma DefaultSizeHasNoSmallOddDivisor()
    ensures NoOddDivisor(65_537, 3, 257)
  {
    assert NoOddDivisor(65_537, 3, 33);
    assert NoOddDivisor(65_537, 33, 65);
    NoOddDivisorJoins(65_537, 3, 33, 65);
    assert NoOddDivisor(65_537, 65, 97);
    NoOddDivisorJoins(65_537, 3, 65, 97);
    assert NoOddDivisor(65_537, 97, 129);
    NoOddDivisorJoins(65_537, 3, 97, 129);
    assert NoOddDivisor(65_537, 129, 161);
    NoOddDivisorJoins(65_537, 3, 129, 161);
    assert NoOddDivisor(65_537, 161, 193);
    NoOddDivisorJoins(65_537, 3, 161, 193);
    assert NoOddDivisor(65_537, 193, 225);
    NoOddDivisorJoins(65_537, 3, 193, 225);
    assert NoOddDivisor(65_537, 225, 257);
    NoOddDivisorJoins(65_537, 3, 225, 257);
  }

  /** The default size bypasses `NewMaglevConfig`, so its primality is a separate obligation. */
  lemma DefaultTableSizeIsPrime()
    ensures IsPrime(DEFAULT_TABLE_SIZE) && DEFAULT_TABLE_SIZE == 65_537 <= MAX_TABLE_SIZE
  {
    var n := DEFAULT_TABLE_SIZE;
    DefaultSizeHasNoSmallOddDivisor();
    forall d: nat | 2 <= d < 257 && d < n
      ensures !Divides(d, n)
    {
      if d % 2 == 1 {
        NoOddDivisorHolds(n, 3, 257, (d - 3) / 2);
      } else if Divides(d, n) {
        EvenDivisorOfEven(d, n);
      }
    }
    NoSmallDivisorMeansPrime(n, 257);
  }
}
