/** Sums of a measure over a sequence. */
module SeqSums {
  function SumBy<T>(s: seq<T>, f: T -> nat): nat {
    if s == [] then 0 else SumBy(s[..|s| - 1], f) + f(s[|s| - 1])
  }

  const ITSELF: nat -> nat := w => w

  /** The sum of the elements themselves. */
  function Total(ws: seq<nat>): nat {
    SumBy(ws, ITSELF)
  }

  lemma SumStep<T>(s: seq<T>, i: nat, f: T -> nat)
    requires i < |s|
    ensures SumBy(s[..i + 1], f) == SumBy(s[..i], f) + f(s[i])
  {
    assert s[..i + 1][..i] == s[..i];
  }

  lemma SumOfPair<T>(a: T, b: T, f: T -> nat)
    ensures SumBy([a, b], f) == f(a) + f(b)
  {
    var s := [a, b];
    SumStep(s, 0, f);
    SumStep(s, 1, f);
    assert s[..0] == [] && s[..2] == s;
  }

  lemma {:induction false} SumMonotone<T>(s: seq<T>, i: nat, f: T -> nat)
    requires i <= |s|
    ensures SumBy(s[..i], f) <= SumBy(s, f)
    decreases |s|
  {
    if i < |s| {
      var last := |s| - 1;
      assert s[..last][..i] == s[..i];
      SumMonotone(s[..last], i, f);
    } else {
      assert s[..i] == s;
    }
  }

  lemma {:induction false} SumZeroIff<T>(s: seq<T>, f: T -> nat)
    ensures SumBy(s, f) == 0 <==> forall k :: 0 <= k < |s| ==> f(s[k]) == 0
  {
    if s != [] {
      var last := |s| - 1;
      SumZeroIff(s[..last], f);
      if SumBy(s, f) == 0 {
        forall k | 0 <= k < |s|
          ensures f(s[k]) == 0
        {
          assert k < last ==> f(s[..last][k]) == 0;
        }
      }
    }
  }

  lemma {:induction false} SumAtMost<T>(s: seq<T>, f: T -> nat, g: T -> nat)
    requires forall k :: 0 <= k < |s| ==> f(s[k]) <= g(s[k])
    ensures SumBy(s, f) <= SumBy(s, g)
  {
    if s != [] {
      SumAtMost(s[..|s| - 1], f, g);
    }
  }

  lemma {:induction false} SameSums<S, T>(s: seq<S>, t: seq<T>, f: S -> nat, g: T -> nat)
    requires |s| == |t| && forall k :: 0 <= k < |s| ==> f(s[k]) == g(t[k])
    ensures SumBy(s, f) == SumBy(t, g)
  {
    if s != [] {
      var last := |s| - 1;
      SameSums(s[..last], t[..last], f, g);
    }
  }

  lemma {:induction false} SumSplits<T>(a: seq<T>, b: seq<T>, f: T -> nat)
    ensures SumBy(a + b, f) == SumBy(a, f) + SumBy(b, f)
  {
    if b == [] {
      assert a + b == a;
    } else {
      var last := |b| - 1;
      assert (a + b)[..|a + b| - 1] == a + b[..last];
      SumSplits(a, b[..last], f);
    }
  }

  lemma SumRemoves<T>(b: seq<T>, i: nat, f: T -> nat)
    requires i < |b|
    ensures SumBy(b, f) == SumBy(b[..i] + b[i + 1..], f) + SumBy([b[i]], f)
  {
    hide SumBy;
    assert b == b[..i] + ([b[i]] + b[i + 1..]);
    SumSplits(b[..i], b[i + 1..], f);
    SumSplits(b[..i], [b[i]] + b[i + 1..], f);
    SumSplits([b[i]], b[i + 1..], f);
  }

  lemma WithoutOne<T>(b: seq<T>, i: nat)
    requires i < |b|
    ensures multiset(b[..i] + b[i + 1..]) == multiset(b) - multiset{b[i]}
  {
    assert b == b[..i] + [b[i]] + b[i + 1..];
  }

  /** Rearranging a sequence changes no sum over it. */
  lemma {:induction false} SumOfPermutation<T>(a: seq<T>, b: seq<T>, f: T -> nat)
    requires multiset(a) == multiset(b)
    ensures SumBy(a, f) == SumBy(b, f)
    decreases |a|
  {
    hide SumBy;
    assert |multiset(a)| == |a| && |multiset(b)| == |b|;
    if a == [] {
      assert b == [];
    } else {
      assert a[0] in multiset(b);
      var i :| 0 <= i < |b| && b[i] == a[0];
      var restA, restB := a[..0] + a[1..], b[..i] + b[i + 1..];
      WithoutOne(a, 0);
      WithoutOne(b, i);
      SumRemoves(a, 0, f);
      SumRemoves(b, i, f);
      assert |restA| < |a|;
      SumOfPermutation(restA, restB, f);
    }
  }

  lemma {:induction false} ZeroSum(s: seq<nat>)
    requires forall i :: 0 <= i < |s| ==> s[i] == 0
    ensures Total(s) == 0
  {
    if s != [] {
      ZeroSum(s[..|s| - 1]);
    }
  }

  lemma {:induction false} SumUpdate(s: seq<nat>, i: nat, v: nat)
    requires i < |s|
    ensures Total(s[i := v]) == Total(s) - s[i] + v
  {
    var n := |s| - 1;
    if i < n {
      assert s[i := v][..n] == s[..n][i := v];
      SumUpdate(s[..n], i, v);
    } else {
      assert s[i := v][..n] == s[..n];
    }
  }
}
