/** The one-slot and two-slot reservoirs: exact uniformity by counting every draw tape. */
module Reservoirs {
  import opened Core
  import opened Tapes

  // ----- one slot

  /** Draws `Random` can see for `n` eligible candidates: the i-th is below i + 1. */
  ghost function RandomTapes(n: nat): set<Tape> {
    if n == 0 then {[]} else Extend(RandomTapes(n - 1), 0, n)
  }

  predicate IsRandomTape(t: Tape) {
    forall i :: 0 <= i < |t| ==> t[i] <= i
  }

  lemma {:induction false} RandomTapesAreAll(n: nat, t: Tape)
    ensures t in RandomTapes(n) <==> |t| == n && IsRandomTape(t)
  {
    if n > 0 {
      ExtendMembers(RandomTapes(n - 1), 0, n, t);
      if t != [] {
        RandomTapesAreAll(n - 1, t[..|t| - 1]);
        assert t == t[..|t| - 1] + [t[|t| - 1]];
      }
    }
  }

  lemma {:induction false} RandomTapeCount(n: nat)
    ensures |RandomTapes(n)| == Factorial(n)
  {
    hide Extend;
    if n > 0 {
      RandomTapeCount(n - 1);
      ExtendCount(RandomTapes(n - 1), 0, n);
    }
  }

  /** The last eligible position whose draw was zero holds the slot. */
  function RandomWinner(t: Tape): (w: nat)
    requires t != [] && IsRandomTape(t)
    ensures w < |t|
  {
    var last := |t| - 1;
    if t[last] == 0 then last else RandomWinner(t[..last])
  }

  ghost function RandomWins(n: nat, k: nat): (r: set<Tape>) {
    set t | t in RandomTapes(n) && t != [] && IsRandomTape(t) && RandomWinner(t) == k
  }

  lemma WinsByLastDraw(n: nat, k: nat, t: Tape)
    requires k < n
    ensures k == n - 1 ==> (t in RandomWins(n, k) <==> t in Append(RandomTapes(n - 1), 0))
    ensures k < n - 1 ==> (t in RandomWins(n, k) <==> t in Extend(RandomWins(n - 1, k), 1, n))
  {
    var m := n - 1;
    RandomTapesAreAll(n, t);
    ExtendMembers(RandomWins(m, k), 1, n, t);
    AppendMembers(RandomTapes(m), 0, t);
    if t != [] {
      var rest := t[..|t| - 1];
      RandomTapesAreAll(m, rest);
      assert t == rest + [t[|t| - 1]];
      if k < m && IsRandomTape(t) && |t| == n {
        assert rest != [];
      }
    }
  }

  /** The newest candidate wins on a zero draw; an older winner keeps the slot on any other draw. */
  lemma WinsRecurrence(n: nat, k: nat)
    requires k < n
    ensures k == n - 1 ==> RandomWins(n, k) == Append(RandomTapes(n - 1), 0)
    ensures k < n - 1 ==> RandomWins(n, k) == Extend(RandomWins(n - 1, k), 1, n)
  {
    hide RandomWins, Append, Extend, RandomTapes;
    forall t: Tape
      ensures k == n - 1 ==> (t in RandomWins(n, k) <==> t in Append(RandomTapes(n - 1), 0))
      ensures k < n - 1 ==> (t in RandomWins(n, k) <==> t in Extend(RandomWins(n - 1, k), 1, n))
    {
      WinsByLastDraw(n, k, t);
    }
  }

  lemma FactorialDown(n: nat)
    requires n > 0
    ensures Factorial(n - 1) * n == Factorial(n)
  {
  }

  /** Every eligible candidate wins on exactly (n-1)! of the n! tapes. */
  lemma {:induction false} RandomIsUniform(n: nat, k: nat)
    requires k < n
    ensures |RandomWins(n, k)| == Factorial(n - 1) && |RandomTapes(n)| == Factorial(n)
  {
    hide RandomWins, Append, Extend, RandomTapes, Factorial;
    var m := n - 1;
    RandomTapeCount(n);
    WinsRecurrence(n, k);
    if k == m {
      AppendCount(RandomTapes(m), 0);
      RandomTapeCount(m);
    } else {
      RandomIsUniform(m, k);
      ExtendCount(RandomWins(m, k), 1, n);
      FactorialDown(m);
    }
  }

  // ----- two slots

  /** Draws the two-slot reservoir can see: from the third eligible candidate on, the i-th is below i. */
  ghost function PairTapes(n: nat): set<Tape>
    requires n >= 2
  {
    if n == 2 then {[]} else Extend(PairTapes(n - 1), 0, n)
  }

  predicate IsPairTape(t: Tape) {
    forall i :: 0 <= i < |t| ==> t[i] <= i + 2
  }

  lemma {:induction false} PairTapesAreAll(n: nat, t: Tape)
    requires n >= 2
    ensures t in PairTapes(n) <==> |t| == n - 2 && IsPairTape(t)
  {
    if n > 2 {
      ExtendMembers(PairTapes(n - 1), 0, n, t);
      if t != [] {
        PairTapesAreAll(n - 1, t[..|t| - 1]);
        assert t == t[..|t| - 1] + [t[|t| - 1]];
      }
    }
  }

  /** The two eligible positions held after a tape. */
  function Held(t: Tape): (r: (nat, nat))
    ensures r.0 != r.1 && r.0 < |t| + 2 && r.1 < |t| + 2
  {
    if t == [] then (0, 1) else
      var r := Held(t[..|t| - 1]);
      var next := |t| + 1;
      if t[|t| - 1] == 0 then (next, r.1) else if t[|t| - 1] == 1 then (r.0, next) else r
  }

  lemma DoubledProduct(x: nat, n: nat, f: nat)
    requires 2 * x == f
    ensures 2 * (x * n) == n * f
  {
  }

  lemma FactorialStep(n: nat)
    ensures Factorial(n + 1) == (n + 1) * Factorial(n)
    ensures Factorial(0) == Factorial(1) == 1 && Factorial(2) == 2
  {
    assert Factorial(2) == 2 * Factorial(1) && Factorial(1) == 1 * Factorial(0);
  }

  lemma {:induction false} PairTapeCount(n: nat)
    requires n >= 2
    ensures 2 * |PairTapes(n)| == Factorial(n)
  {
    hide Extend, Factorial;
    var m := n - 1;
    FactorialStep(m);
    if n > 2 {
      PairTapeCount(m);
      ExtendCount(PairTapes(m), 0, n);
      DoubledProduct(|PairTapes(m)|, n, Factorial(m));
    }
  }

  ghost function InSlot(n: nat, slot: nat, a: nat): set<Tape>
    requires n >= 2
  {
    set t | t in PairTapes(n) && (if slot == 0 then Held(t).0 else Held(t).1) == a
  }

  /** Tapes that leave `a` in one of the slots. */
  ghost function Holding(n: nat, a: nat): set<Tape>
    requires n >= 2
  {
    InSlot(n, 0, a) + InSlot(n, 1, a)
  }

  /** Tapes that leave exactly the pair `a`, `b` in the slots, in either order. */
  ghost function HoldingPair(n: nat, a: nat, b: nat): set<Tape>
    requires n >= 2
  {
    Holding(n, a) * Holding(n, b)
  }

  lemma SlotsAreDisjoint(n: nat, a: nat)
    requires n >= 2
    ensures InSlot(n, 0, a) !! InSlot(n, 1, a)
    ensures |Holding(n, a)| == |InSlot(n, 0, a)| + |InSlot(n, 1, a)|
  {
    DisjointUnionCount(InSlot(n, 0, a), InSlot(n, 1, a));
  }

  lemma NextTapeDraws(n: nat, t: Tape)
    requires n >= 3
    ensures t in PairTapes(n) <==> t != [] && t[..|t| - 1] in PairTapes(n - 1) && t[|t| - 1] < n
  {
    ExtendMembers(PairTapes(n - 1), 0, n, t);
  }

  /** How one more draw changes who is held. */
  lemma HeldAfterDraw(n: nat, a: nat, t: Tape)
    requires n >= 3 && a < n
    ensures a == n - 1 ==> (t in Holding(n, a) <==> t in Extend(PairTapes(n - 1), 0, 2))
    ensures a < n - 1 ==>
      (t in Holding(n, a) <==>
        || t in Extend(InSlot(n - 1, 0, a), 1, n)
        || t in Append(InSlot(n - 1, 1, a), 0)
        || t in Extend(InSlot(n - 1, 1, a), 2, n))
  {
    hide PairTapes, Extend, Append;
    var m := n - 1;
    NextTapeDraws(n, t);
    ExtendMembers(PairTapes(m), 0, 2, t);
    ExtendMembers(InSlot(m, 0, a), 1, n, t);
    AppendMembers(InSlot(m, 1, a), 0, t);
    ExtendMembers(InSlot(m, 1, a), 2, n, t);
    if t != [] {
      PairTapesAreAll(m, t[..|t| - 1]);
    }
  }

  /** The newest candidate is held after either low draw. */
  lemma HoldingNewest(n: nat)
    requires n >= 3
    ensures Holding(n, n - 1) == Extend(PairTapes(n - 1), 0, 2)
  {
    hide Holding, Extend, PairTapes;
    var m := n - 1;
    forall t: Tape
      ensures t in Holding(n, m) <==> t in Extend(PairTapes(m), 0, 2)
    {
      HeldAfterDraw(n, m, t);
    }
  }

  /** An older candidate stays held unless the draw names its own slot. */
  lemma HoldingOlder(n: nat, a: nat)
    requires n >= 3 && a < n - 1
    ensures var first, second := InSlot(n - 1, 0, a), InSlot(n - 1, 1, a);
      var x, y, z := Extend(first, 1, n), Append(second, 0), Extend(second, 2, n);
      Holding(n, a) == x + y + z && x !! y && x + y !! z
  {
    hide Holding, InSlot, Extend, Append;
    var m := n - 1;
    var first, second := InSlot(m, 0, a), InSlot(m, 1, a);
    var x, y, z := Extend(first, 1, n), Append(second, 0), Extend(second, 2, n);
    SlotsAreDisjoint(m, a);
    forall t: Tape
      ensures t in Holding(n, a) <==> t in x || t in y || t in z
      ensures t in x ==> t !in y && t !in z
      ensures t in y ==> t !in z
    {
      HeldAfterDraw(n, a, t);
      ExtendMembers(first, 1, n, t);
      AppendMembers(second, 0, t);
      ExtendMembers(second, 2, n, t);
    }
  }

  lemma SlotArithmetic(x: nat, y: nat, m: nat)
    requires m >= 1
    ensures x * m + y + y * (m - 1) == m * (x + y)
  {
  }

  lemma HoldingCountOfOlder(n: nat, a: nat)
    requires n >= 3 && a < n - 1
    ensures |Holding(n, a)| == (n - 1) * |Holding(n - 1, a)|
  {
    hide Holding, InSlot, Extend, Append;
    var m := n - 1;
    var first, second := InSlot(m, 0, a), InSlot(m, 1, a);
    var x, y, z := Extend(first, 1, n), Append(second, 0), Extend(second, 2, n);
    HoldingOlder(n, a);
    DisjointUnionCount(x, y);
    DisjointUnionCount(x + y, z);
    ExtendCount(first, 1, n);
    AppendCount(second, 0);
    ExtendCount(second, 2, n);
    SlotsAreDisjoint(m, a);
    SlotArithmetic(|first|, |second|, m);
  }

  lemma FirstPair(a: nat)
    requires a < 2
    ensures Holding(2, a) == {[]} && Factorial(1) == 1 == Factorial(0)
  {
    assert Held([]) == (0, 1);
    assert Factorial(1) == 1 * Factorial(0);
  }

  /** Each candidate is held on exactly (n-1)! tapes. */
  lemma {:induction false} HoldingCount(n: nat, a: nat)
    requires n >= 2 && a < n
    ensures |Holding(n, a)| == Factorial(n - 1)
  {
    hide Holding, Extend, PairTapes;
    if n == 2 {
      FirstPair(a);
    } else if a == n - 1 {
      HoldingNewest(n);
      ExtendCount(PairTapes(n - 1), 0, 2);
      PairTapeCount(n - 1);
    } else {
      HoldingCount(n - 1, a);
      HoldingCountOfOlder(n, a);
    }
  }

  lemma PairAfterDraw(n: nat, a: nat, b: nat, t: Tape)
    requires n >= 3 && a < b < n
    ensures b == n - 1 ==>
      (t in HoldingPair(n, a, b) <==> t in Append(InSlot(n - 1, 0, a), 1) || t in Append(InSlot(n - 1, 1, a), 0))
    ensures b < n - 1 ==> (t in HoldingPair(n, a, b) <==> t in Extend(HoldingPair(n - 1, a, b), 2, n))
  {
    var m := n - 1;
    PairTapesAreAll(n, t);
    AppendMembers(InSlot(m, 0, a), 1, t);
    AppendMembers(InSlot(m, 1, a), 0, t);
    ExtendMembers(HoldingPair(m, a, b), 2, n, t);
    if t != [] {
      var rest := t[..|t| - 1];
      PairTapesAreAll(m, rest);
      assert t == rest + [t[|t| - 1]];
    }
  }

  lemma PairWithNewest(n: nat, a: nat)
    requires n >= 3 && a < n - 1
    ensures var x, y := Append(InSlot(n - 1, 0, a), 1), Append(InSlot(n - 1, 1, a), 0);
      HoldingPair(n, a, n - 1) == x + y && x !! y
  {
    hide HoldingPair, InSlot, Append;
    var x, y := Append(InSlot(n - 1, 0, a), 1), Append(InSlot(n - 1, 1, a), 0);
    forall t: Tape
      ensures t in HoldingPair(n, a, n - 1) <==> t in x || t in y
      ensures t in x ==> t !in y
    {
      PairAfterDraw(n, a, n - 1, t);
      AppendMembers(InSlot(n - 1, 0, a), 1, t);
      AppendMembers(InSlot(n - 1, 1, a), 0, t);
    }
  }

  lemma PairOfOlder(n: nat, a: nat, b: nat)
    requires n >= 3 && a < b < n - 1
    ensures HoldingPair(n, a, b) == Extend(HoldingPair(n - 1, a, b), 2, n)
  {
    hide HoldingPair, Extend;
    forall t: Tape
      ensures t in HoldingPair(n, a, b) <==> t in Extend(HoldingPair(n - 1, a, b), 2, n)
    {
      PairAfterDraw(n, a, b, t);
    }
  }

  lemma Commutes(a: int, b: int)
    ensures a * b == b * a
  {
  }

  lemma OnlyPair(a: nat, b: nat)
    requires a < b < 2
    ensures HoldingPair(2, a, b) == {[]} && Factorial(0) == 1
  {
    FirstPair(a);
    FirstPair(b);
  }

  /** Every unordered pair is held on exactly (n-2)! of the n!/2 tapes. */
  lemma {:induction false} PairsAreUniform(n: nat, a: nat, b: nat)
    requires n >= 2 && a < b < n
    ensures |HoldingPair(n, a, b)| == Factorial(n - 2) && 2 * |PairTapes(n)| == Factorial(n)
  {
    hide HoldingPair, InSlot, Append, Extend, PairTapes, Factorial;
    var m := n - 1;
    PairTapeCount(n);
    if n > 2 {
      FactorialStep(n - 3);
      Commutes(Factorial(n - 3), n - 2);
    }
    if n == 2 {
      OnlyPair(a, b);
    } else if b == m {
      PairWithNewest(n, a);
      DisjointUnionCount(Append(InSlot(m, 0, a), 1), Append(InSlot(m, 1, a), 0));
      AppendCount(InSlot(m, 0, a), 1);
      AppendCount(InSlot(m, 1, a), 0);
      SlotsAreDisjoint(m, a);
      HoldingCount(m, a);
    } else {
      PairsAreUniform(m, a, b);
      PairOfOlder(n, a, b);
      ExtendCount(HoldingPair(m, a, b), 2, n);
    }
  }

  // ----- who wins a comparison

  /** The companion of `a` in the reservoir. */
  function Companion(t: Tape, a: nat): nat {
    if Held(t).0 == a then Held(t).1 else Held(t).0
  }

  /** Tapes that leave `a` in the reservoir beside some member of `others`. */
  ghost function Beside(n: nat, a: nat, others: set<nat>): set<Tape>
    requires n >= 2
  {
    set t | t in Holding(n, a) && Companion(t, a) in others
  }

  lemma BesideOne(n: nat, a: nat, b: nat)
    requires n >= 2 && a < n && b < n && a != b
    ensures |Beside(n, a, {b})| == Factorial(n - 2)
  {
    assert Beside(n, a, {b}) == HoldingPair(n, a, b) == HoldingPair(n, b, a);
    PairsAreUniform(n, if a < b then a else b, if a < b then b else a);
  }

  lemma BesideSplits(n: nat, a: nat, rest: set<nat>, b: nat)
    requires n >= 2 && b !in rest
    ensures Beside(n, a, rest + {b}) == Beside(n, a, rest) + Beside(n, a, {b})
    ensures Beside(n, a, rest) !! Beside(n, a, {b})
  {
    hide Holding, Companion;
  }

  lemma NobodyBeside(n: nat, a: nat)
    requires n >= 2
    ensures Beside(n, a, {}) == {}
  {
  }

  lemma OneMoreBeaten(k: nat, f: nat)
    ensures (k + 1) * f == k * f + f
  {
  }

  /**
   * A candidate that beats exactly the members of `heavier` wins on |heavier| * (n-2)! of the n!/2
   * tapes: the sampled pair favours lighter candidates in exact proportion to how many they beat.
   */
  lemma {:induction false} WinsByNumberBeaten(n: nat, a: nat, heavier: set<nat>)
    requires n >= 2 && a < n && a !in heavier && forall b :: b in heavier ==> b < n
    ensures |Beside(n, a, heavier)| == |heavier| * Factorial(n - 2)
    decreases |heavier|
  {
    hide Beside, Factorial, Holding;
    if heavier == {} {
      NobodyBeside(n, a);
    } else {
      var b :| b in heavier;
      var rest := heavier - {b};
      assert heavier == rest + {b};
      WinsByNumberBeaten(n, a, rest);
      BesideOne(n, a, b);
      BesideSplits(n, a, rest, b);
      DisjointUnionCount(Beside(n, a, rest), Beside(n, a, {b}));
      OneMoreBeaten(|rest|, Factorial(n - 2));
    }
  }
}
