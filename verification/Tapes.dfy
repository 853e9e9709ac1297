/** Sets of draw tapes and how their sizes multiply. */
module Tapes {
  import opened Arith

  type Tape = seq<nat>

  function Factorial(n: nat): nat {
    if n == 0 then 1 else n * Factorial(n - 1)
  }

  /** Every tape of `s` followed by the draw `d`. */
  ghost function Append(s: set<Tape>, d: nat): set<Tape> {
    set t | t in s :: t + [d]
  }

  /** Every tape of `s` followed by one draw in `lo..hi`. */
  ghost function Extend(s: set<Tape>, lo: nat, hi: nat): set<Tape> {
    if hi <= lo then {} else Extend(s, lo, hi - 1) + Append(s, hi - 1)
  }

  predicate EndsWith(t: Tape, d: nat) {
    t != [] && t[|t| - 1] == d
  }

  lemma AppendMembers(s: set<Tape>, d: nat, t: Tape)
    ensures t in Append(s, d) <==> EndsWith(t, d) && t[..|t| - 1] in s
  {
    if EndsWith(t, d) {
      assert t == t[..|t| - 1] + [d];
    }
    if t in Append(s, d) {
      var u :| u in s && t == u + [d];
      assert t[..|t| - 1] == u;
    }
  }

  lemma {:induction false} AppendCount(s: set<Tape>, d: nat)
    ensures |Append(s, d)| == |s|
    decreases |s|
  {
    if s == {} {
      assert Append(s, d) == {};
    } else {
      var t :| t in s;
      AppendCount(s - {t}, d);
      AppendMembers(s - {t}, d, t + [d]);
      assert (t + [d])[..|t|] == t;
      assert Append(s, d) == Append(s - {t}, d) + {t + [d]};
    }
  }

  lemma {:induction false} ExtendMembers(s: set<Tape>, lo: nat, hi: nat, t: Tape)
    ensures t in Extend(s, lo, hi) <==> t != [] && lo <= t[|t| - 1] < hi && t[..|t| - 1] in s
  {
    if lo < hi {
      ExtendMembers(s, lo, hi - 1, t);
      AppendMembers(s, hi - 1, t);
    }
  }

  lemma DisjointUnionCount<T>(a: set<T>, b: set<T>)
    requires a !! b
    ensures |a + b| == |a| + |b|
  {
  }

  lemma LastDrawIsNew(s: set<Tape>, lo: nat, hi: nat)
    ensures Extend(s, lo, hi) !! Append(s, hi)
  {
    forall t: Tape | t in Append(s, hi)
      ensures t !in Extend(s, lo, hi)
    {
      ExtendMembers(s, lo, hi, t);
      AppendMembers(s, hi, t);
    }
  }

  lemma OneMoreTime(n: nat, k: nat)
    ensures n * (k + 1) == n * k + n
  {
  }

  lemma {:induction false} ExtendCount(s: set<Tape>, lo: nat, hi: nat)
    requires lo <= hi
    ensures |Extend(s, lo, hi)| == |s| * (hi - lo)
  {
    hide Append;
    if lo < hi {
      var h := hi - 1;
      ExtendCount(s, lo, h);
      AppendCount(s, h);
      LastDrawIsNew(s, lo, h);
      DisjointUnionCount(Extend(s, lo, h), Append(s, h));
      OneMoreTime(|s|, h - lo);
    }
  }
}
