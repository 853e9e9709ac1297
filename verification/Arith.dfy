/** Division and sums, proved once and called by name. */
module Arith {
  lemma SmallMultipleIsZero(d: int, k: int)
    requires -d < d * k < d
    ensures k == 0
  {
    assert k >= 1 ==> d * k >= d;
    assert k <= -1 ==> d * k <= -d;
  }

  lemma DivModUnique(n: int, d: nat, q: int, r: nat)
    requires d > 0 && n == d * q + r && r < d
    ensures n / d == q && n % d == r
  {
    var x := n / d;
    assert n == d * x + n % d;
    assert d * (q - x) == d * q - d * x;
    SmallMultipleIsZero(d, q - x);
  }

  lemma SmallRemainder(n: nat, d: nat)
    requires n < d
    ensures n % d == n
  {
  }

  lemma MulMonotone(a: nat, b: nat, c: nat, d: nat)
    ensures a <= c && b <= d ==> a * b <= c * d
    ensures a <= c && b < d && 0 < a ==> a * b < c * d
  {
    if a <= c && b <= d {
      assert a * b <= a * d;
      assert a * d <= c * d;
      if b < d && 0 < a {
        assert a * b < a * d;
      }
    }
  }

  lemma QuotientAtLeast(n: nat, d: nat, q: nat)
    requires d > 0
    ensures n / d >= q <==> d * q <= n
  {
    var x := n / d;
    assert d * x <= n < d * (x + 1);
    MulMonotone(d, q, d, x);
    MulMonotone(d, x + 1, d, q);
  }

  lemma ProductBelow(a: nat, b: nat, x: nat, y: nat)
    requires a < x && b < y
    ensures a * b < x * y
  {
    MulMonotone(a, b, x - 1, y - 1);
    assert (x - 1) * (y - 1) == x * y - x - y + 1;
  }
}
