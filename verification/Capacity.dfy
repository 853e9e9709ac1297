/** Ceiling capacities, and why a factor of at least 100 percent always leaves room. */
module Capacity {
  import opened Core
  import opened Arith
  import opened SeqSums

  /** The least whole number not below `n / d`. */
  function CeilDiv(n: nat, d: nat): (c: nat)
    requires d > 0
  {
    n / d + if n % d != 0 then 1 else 0
  }

  lemma CeilDivLeast(n: nat, d: nat, c: nat)
    requires d > 0
    ensures n <= d * CeilDiv(n, d)
    ensures CeilDiv(n, d) <= c <==> n <= d * c
  {
    var q, r := n / d, n % d;
    assert n == d * q + r;
    assert d * (q + 1) == d * q + d;
    MulMonotone(d, CeilDiv(n, d), d, c);
    if c < CeilDiv(n, d) {
      MulMonotone(d, c, d, CeilDiv(n, d) - 1);
    }
  }

  lemma CeilDivMonotone(m: nat, n: nat, d: nat)
    requires d > 0 && m <= n
    ensures CeilDiv(m, d) <= CeilDiv(n, d)
  {
    CeilDivLeast(n, d, 0);
    CeilDivLeast(m, d, CeilDiv(n, d));
  }

  function CheckedMul(a: nat, b: nat): Option<nat> {
    if a * b < U128_LIMIT then Some(a * b) else None
  }

  /** Capacity of a candidate of weight `w` among total weight `all` when `load` requests are in flight. */
  function CapacityOf(load: nat, w: nat, all: nat, factor: nat): nat
    requires all > 0
  {
    CeilDiv(load * w * factor, all * 100)
  }

  function CapacityFor(prospectiveLoad: u64, weight: Weight, totalWeight: u64, factor: u32): Result<nat, PickError>
    requires totalWeight > 0
  {
    match CheckedMul(prospectiveLoad, weight)
    case None => Err(LoadOverflow)
    case Some(product) =>
      match CheckedMul(product, factor)
      case None => Err(LoadOverflow)
      case Some(numerator) =>
        var denominator := totalWeight * 100;
        var quotient := numerator / denominator;
        Ok(quotient + if numerator % denominator != 0 then 1 else 0)
  }

  /** The checked multiplications never fail: the largest 64-, 32- and 32-bit operands still fit. */
  lemma CapacityNeverOverflows(prospectiveLoad: u64, weight: Weight, totalWeight: u64, factor: u32)
    requires totalWeight > 0
    ensures CapacityFor(prospectiveLoad, weight, totalWeight, factor)
         == Ok(CapacityOf(prospectiveLoad, weight, totalWeight, factor))
  {
    ProductBelow(prospectiveLoad, weight, U64_LIMIT, U32_LIMIT);
    ProductBelow(prospectiveLoad * weight, factor, U64_LIMIT * U32_LIMIT, U32_LIMIT);
  }

  lemma CapacityMonotone(s: nat, t: nat, w: nat, all: nat, factor: nat)
    requires all > 0 && s <= t
    ensures CapacityOf(s, w, all, factor) <= CapacityOf(t, w, all, factor)
  {
    MulMonotone(s, w, t, w);
    MulMonotone(s * w, factor, t * w, factor);
    CeilDivMonotone(s * w * factor, t * w * factor, all * 100);
  }

  /** At or above capacity means at or above the weighted share, in cross-multiplied form. */
  lemma FullMeansAboveShare(prospective: nat, w: nat, all: nat, factor: nat, load: nat)
    requires all > 0 && factor >= 100 && load >= CapacityOf(prospective, w, all, factor)
    ensures load * all >= prospective * w
  {
    var share := prospective * w;
    CeilDivLeast(share * factor, all * 100, load);
    MulMonotone(share, 100, share, factor);
    assert all * 100 * load == load * all * 100;
  }

  lemma Distribute(a: int, b: int, c: int)
    ensures (a + b) * c == a * c + b * c && c * (a + b) == c * a + c * b
  {
  }

  lemma {:induction false} AboveShareSums(loads: seq<nat>, weights: seq<nat>, prospective: nat, all: nat)
    requires |loads| == |weights|
    requires forall i :: 0 <= i < |loads| ==> loads[i] * all >= prospective * weights[i]
    ensures Total(loads) * all >= prospective * Total(weights)
  {
    if loads != [] {
      var n := |loads| - 1;
      AboveShareSums(loads[..n], weights[..n], prospective, all);
      Distribute(Total(loads[..n]), loads[n], all);
      Distribute(Total(weights[..n]), weights[n], prospective);
    }
  }

  lemma LessThanOneMore(n: nat, d: nat)
    requires d > 0
    ensures n * d < (n + 1) * d
  {
  }

  /** With one more request than is in flight, somebody is strictly below capacity. */
  lemma SomeoneHasRoom(loads: seq<nat>, weights: seq<nat>, factor: nat)
    requires |loads| == |weights| && Total(weights) > 0 && factor >= 100
    ensures exists i :: 0 <= i < |loads| && loads[i] < CapacityOf(Total(loads) + 1, weights[i], Total(weights), factor)
  {
    hide Total, CapacityOf;
    var prospective, all := Total(loads) + 1, Total(weights);
    if forall i :: 0 <= i < |loads| ==> loads[i] >= CapacityOf(prospective, weights[i], all, factor) {
      forall i | 0 <= i < |loads|
        ensures loads[i] * all >= prospective * weights[i]
      {
        FullMeansAboveShare(prospective, weights[i], all, factor, loads[i]);
      }
      AboveShareSums(loads, weights, prospective, all);
      LessThanOneMore(Total(loads), all);
    }
  }

  lemma {:induction false} PartsWithinTotal(s: seq<nat>)
    ensures forall i :: 0 <= i < |s| ==> s[i] <= Total(s)
  {
    if s != [] {
      PartsWithinTotal(s[..|s| - 1]);
    }
  }
}
