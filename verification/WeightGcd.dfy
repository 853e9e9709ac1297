/** Euclid's loop and the common divisor of a weight list. */
module WeightGcd {
  import opened Core
  import opened Arith
  import opened Primality

  function Gcd(a: nat, b: nat): nat
    decreases b
  {
    if b == 0 then a else Gcd(b, a % b)
  }

  method GreatestCommonDivisor(left: u32, right: u32) returns (g: u32)
    ensures g == Gcd(left, right)
  {
    var a: u32, b: u32 := left, right;
    while b != 0
      invariant Gcd(a, b) == Gcd(left, right)
      decreases b
    {
      var remainder: u32 := a % b;
      a := b;
      b := remainder;
    }
    return a;
  }

  lemma DividesMultiple(d: nat, a: nat, q: int)
    requires d > 0 && Divides(d, a)
    ensures Divides(d, a * q)
  {
    var x := a / d;
    assert a * q == d * (x * q) by {
      assert a == d * x;
    }
    MultipleIsDivisible(d, x * q);
  }

  lemma DividesDifference(d: nat, a: int, b: int)
    requires d > 0 && Divides(d, a) && Divides(d, b)
    ensures Divides(d, a - b) && Divides(d, a + b)
  {
    assert a - b == d * (a / d - b / d);
    assert a + b == d * (a / d + b / d);
    MultipleIsDivisible(d, a / d - b / d);
    MultipleIsDivisible(d, a / d + b / d);
  }

  /** One round of Euclid keeps the common divisors. */
  lemma RemainderKeepsDivisors(a: nat, b: nat, d: nat)
    requires b > 0 && d > 0 && Divides(d, b)
    ensures Divides(d, a) <==> Divides(d, a % b)
  {
    var q := a / b;
    assert a == b * q + a % b;
    DividesMultiple(d, b, q);
    if Divides(d, a) {
      DividesDifference(d, a, b * q);
    }
    if Divides(d, a % b) {
      DividesDifference(d, a % b, b * q);
    }
  }

  /** `Gcd` is the true greatest common divisor: its divisors are exactly the common divisors. */
  lemma {:induction false} GcdDivisors(a: nat, b: nat, d: nat)
    requires d > 0
    ensures Divides(d, Gcd(a, b)) <==> Divides(d, a) && Divides(d, b)
    decreases b
  {
    if b == 0 {
      DivModUnique(0, d, 0, 0);
    } else {
      GcdDivisors(b, a % b, d);
      if Divides(d, b) {
        RemainderKeepsDivisors(a, b, d);
      }
    }
  }

  lemma {:induction false} GcdPositive(a: nat, b: nat)
    requires a > 0 || b > 0
    ensures Gcd(a, b) > 0
    decreases b
  {
    if b > 0 {
      GcdPositive(b, a % b);
    }
  }

  /** The divisor folded over a weight list, as reconciliation accumulates it. */
  function GcdOf(weights: seq<nat>): nat {
    if weights == [] then 0 else Gcd(GcdOf(weights[..|weights| - 1]), weights[|weights| - 1])
  }

  lemma GcdOfPositive(weights: seq<nat>)
    requires weights != [] && forall i :: 0 <= i < |weights| ==> weights[i] > 0
    ensures GcdOf(weights) > 0
  {
    GcdPositive(GcdOf(weights[..|weights| - 1]), weights[|weights| - 1]);
  }

  /** The fold divides every weight, and every common divisor of the weights divides it. */
  lemma {:induction false} GcdOfDivisors(weights: seq<nat>, d: nat)
    requires d > 0
    ensures Divides(d, GcdOf(weights)) <==> forall i :: 0 <= i < |weights| ==> Divides(d, weights[i])
  {
    if weights == [] {
      DivModUnique(0, d, 0, 0);
    } else {
      var n := |weights| - 1;
      GcdOfDivisors(weights[..n], d);
      GcdDivisors(GcdOf(weights[..n]), weights[n], d);
      assert forall i :: 0 <= i < n ==> weights[..n][i] == weights[i];
    }
  }

  lemma ScaledDivision(b: nat, q: nat, r: nat, c: nat)
    ensures c * (b * q + r) == (c * b) * q + c * r
  {
  }

  /** Scaling both operands scales the quotient by one and the remainder by the factor. */
  lemma ScaledQuotient(a: nat, b: nat, c: nat)
    requires b > 0 && c > 0
    ensures c * b > 0 && (c * a) / (c * b) == a / b && (c * a) % (c * b) == c * (a % b)
  {
    var q, r := a / b, a % b;
    assert a == b * q + r;
    ScaledDivision(b, q, r, c);
    MulMonotone(c, r, c, b);
    DivModUnique(c * a, c * b, q, c * r);
  }

  lemma {:induction false} GcdScales(a: nat, b: nat, c: nat)
    requires c > 0
    ensures Gcd(c * a, c * b) == c * Gcd(a, b)
    decreases b
  {
    if b > 0 {
      ScaledQuotient(a, b, c);
      GcdScales(b, a % b, c);
    }
  }

  ghost function Scaled(weights: seq<nat>, c: nat): (r: seq<nat>)
    ensures |r| == |weights| && forall i :: 0 <= i < |r| ==> r[i] == c * weights[i]
  {
    seq(|weights|, i requires 0 <= i < |weights| => c * weights[i])
  }

  lemma {:induction false} GcdOfScales(weights: seq<nat>, c: nat)
    requires c > 0
    ensures GcdOf(Scaled(weights, c)) == c * GcdOf(weights)
  {
    if weights != [] {
      var n := |weights| - 1;
      assert Scaled(weights, c)[..n] == Scaled(weights[..n], c);
      GcdOfScales(weights[..n], c);
      GcdScales(GcdOf(weights[..n]), weights[n], c);
    }
  }
}
