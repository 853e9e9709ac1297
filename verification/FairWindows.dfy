/** Windows of one cycle's length that start anywhere: exact unless a tie is broken differently a cycle later. */
module FairWindows {
  import opened Arith
  import opened Core
  import opened Listings
  import opened Sums
  import opened SmoothWeightedRoundRobin
  import opened FairShare

  lemma WindowCredit(total: int, start: nat, end: nat, weight: int, before: nat, after: nat)
    requires total > 0 && end == start + total
    ensures end * weight - after * total == start * weight - before * total <==> after - before == weight
  {
    var x := weight - (after - before);
    assert end * weight == start * weight + total * weight;
    assert end * weight - after * total - (start * weight - before * total) == total * x;
    assert x <= -1 ==> total * x <= -total;
    assert x >= 1 ==> total * x >= total;
  }

  /** A window of one total is exact for a member precisely when its credit returns to where it was. */
  lemma WindowExactIff<Key>(run: seq<Slice<Key>>, w: map<Key, int>, start: nat, k: Key)
    requires IsRun(run, w) && Sum(w) > 0 && |run| == start + Sum(w) < U64_LIMIT && k in w
    ensures IsRun(run[..start], w)
    ensures Count(run, w, k) - Count(run[..start], w, k) == w[k]
       <==> CreditOf(After(run, w), k) == CreditOf(After(run[..start], w), k)
  {
    assert IsRun(run[..start], w);
    hide After, Count, IsRun, Presents, Sum;
    CreditFormula(run, w, k);
    CreditFormula(run[..start], w, k);
    WindowCredit(Sum(w), start, |run|, w[k], Count(run[..start], w, k), Count(run, w, k));
  }

  /** The step reads credits only through `CreditOf` on the slice's identities. */
  lemma StepReadsCredits<Key>(a: map<Key, int>, b: map<Key, int>, cs: Slice<Key>, w: map<Key, int>)
    requires Presents(cs, w) && forall k :: k in w ==> CreditOf(a, k) == CreditOf(b, k)
    ensures Step(a, cs) == Step(b, cs)
  {
    assert Bumped(a, w) == Bumped(b, w);
  }

  /** Whom the policy would serve at pick `t` of a run if that pick saw the slice `cs`. */
  ghost function ServedAt<Key>(run: seq<Slice<Key>>, w: map<Key, int>, t: nat, cs: Slice<Key>): (k: Key)
    requires IsRun(run, w) && t <= |run| && Presents(cs, w)
  {
    assert IsRun(run[..t], w);
    cs[Step(After(run[..t], w), cs).1].id
  }

  /** At every pick the slice seen `p` picks later would serve the same identity: the two break a tie alike. */
  ghost predicate ServesAlike<Key>(run: seq<Slice<Key>>, w: map<Key, int>, p: nat)
    requires IsRun(run, w)
  {
    forall t :: 0 <= t < |run| - p ==> ServedAt(run, w, t, run[t + p]) == ServedAt(run, w, t, run[t])
  }

  lemma SameServiceSameCredits<Key>(credits: map<Key, int>, a: Slice<Key>, b: Slice<Key>, w: map<Key, int>)
    requires Presents(a, w) && Presents(b, w) && a[Step(credits, a).1].id == b[Step(credits, b).1].id
    ensures Step(credits, a).0 == Step(credits, b).0
  {
    hide Step, Presents;
    StepPaysTotal(credits, a, w);
    StepPaysTotal(credits, b, w);
  }

  /** Before the first wrap a pick reads the credits the previous one left. */
  lemma PickReadsCredits<Key>(run: seq<Slice<Key>>, w: map<Key, int>, t: nat)
    requires IsRun(run, w) && t < |run| < U64_LIMIT
    ensures Presents(run[t], w) && IsRun(run[..t], w) && IsRun(run[..t + 1], w)
    ensures After(run[..t + 1], w) == Step(After(run[..t], w), run[t]).0
    ensures LastPicked(run[..t + 1], w) == ServedAt(run, w, t, run[t])
  {
    hide Step, Presents, Before, EpochAfter;
    RunGrows(run, w, t);
    NoWrapYet(run[..t + 1], w);
    assert run[..t + 1][..t] == run[..t];
  }

  lemma {:induction false} CreditsRecur<Key>(run: seq<Slice<Key>>, w: map<Key, int>, start: nat, k: Key)
    requires IsRun(run, w) && Sum(w) > 0 && k in w && ServesAlike(run, w, Sum(w))
    requires start + Sum(w) <= |run| < U64_LIMIT
    ensures IsRun(run[..start], w) && IsRun(run[..start + Sum(w)], w)
    ensures CreditOf(After(run[..start + Sum(w)], w), k) == CreditOf(After(run[..start], w), k)
    decreases start
  {
    hide Step, Presents, After, Before, Sum, Weights, EpochAfter, CreditOf;
    var p := Sum(w);
    if start == 0 {
      RunStarts(run, w);
      CyclesAreExact(run[..p], w, 1);
      NothingYetOwed(k);
    } else {
      var t := start - 1;
      forall j | j in w
        ensures CreditOf(After(run[..t + p], w), j) == CreditOf(After(run[..t], w), j)
      {
        CreditsRecur(run, w, t, j);
      }
      PickReadsCredits(run, w, t);
      PickReadsCredits(run, w, t + p);
      StepReadsCredits(After(run[..t + p], w), After(run[..t], w), run[t + p], w);
      SameServiceSameCredits(After(run[..t], w), run[t + p], run[t], w);
    }
  }

  lemma NothingYetOwed<Key>(k: Key)
    ensures CreditOf(map[], k) == 0
  {
  }

  /**
   * Moving an exact window on by one pick keeps it exact if and only if the pick that enters serves whom the
   * leaving one served.
   */
  lemma NextWindowExactIff<Key>(run: seq<Slice<Key>>, w: map<Key, int>, start: nat)
    requires IsRun(run, w) && Sum(w) > 0 && |run| == start + 1 + Sum(w)
    requires IsRun(run[..start], w) && IsRun(run[..start + 1], w) && IsRun(run[..start + Sum(w)], w)
    requires forall k :: k in w ==> Count(run[..start + Sum(w)], w, k) - Count(run[..start], w, k) == w[k]
    ensures (forall k :: k in w ==> Count(run, w, k) - Count(run[..start + 1], w, k) == w[k])
       <==> LastPicked(run, w) == LastPicked(run[..start + 1], w)
  {
    hide Count, IsRun, Sum, LastPicked;
    LastPickedIsWeighted(run, w);
    assert run[..|run| - 1] == run[..start + Sum(w)] && run[..start + 1][..start] == run[..start];
    forall k | k in w
      ensures Count(run, w, k) - Count(run[..start + 1], w, k) == w[k] + (if LastPicked(run, w) == k then 1 else 0)
        - (if LastPicked(run[..start + 1], w) == k then 1 else 0)
    {
      CountGrows(run, w, k);
      CountGrows(run[..start + 1], w, k);
    }
  }

  /** Every member gets exactly its weight out of the `Sum(w)` picks that follow the first `start`. */
  ghost predicate ExactFrom<Key>(run: seq<Slice<Key>>, w: map<Key, int>, start: nat)
    requires IsRun(run, w) && Sum(w) > 0 && start + Sum(w) <= |run|
  {
    assert IsRun(run[..start + Sum(w)], w) && IsRun(run[..start], w);
    forall k :: k in w ==> Count(run[..start + Sum(w)], w, k) - Count(run[..start], w, k) == w[k]
  }

  lemma ExactWindowsServeAlike<Key>(run: seq<Slice<Key>>, w: map<Key, int>, t: nat)
    requires IsRun(run, w) && Sum(w) > 0 && t + Sum(w) < |run| < U64_LIMIT
    requires ExactFrom(run, w, t) && ExactFrom(run, w, t + 1)
    ensures ServedAt(run, w, t, run[t + Sum(w)]) == ServedAt(run, w, t, run[t])
  {
    hide Step, After, Before, Sum, Presents, LastPicked, Count;
    var p := Sum(w);
    var longer := run[..t + p + 1];
    assert longer[..t] == run[..t] && longer[..t + 1] == run[..t + 1] && longer[..t + p] == run[..t + p];
    NextWindowExactIff(longer, w, t);
    forall k | k in w
      ensures CreditOf(After(run[..t + p], w), k) == CreditOf(After(run[..t], w), k)
    {
      assert run[..t + p][..t] == run[..t];
      WindowExactIff(run[..t + p], w, t, k);
    }
    PickReadsCredits(run, w, t);
    PickReadsCredits(run, w, t + p);
    StepReadsCredits(After(run[..t + p], w), After(run[..t], w), run[t + p], w);
  }

  lemma AlikeServiceIsExact<Key>(run: seq<Slice<Key>>, w: map<Key, int>)
    requires IsRun(run, w) && Sum(w) > 0 && |run| < U64_LIMIT
    ensures (forall start: nat :: start + Sum(w) <= |run| ==> ExactFrom(run, w, start)) <==> ServesAlike(run, w, Sum(w))
  {
    hide Sum, ServedAt, Presents, After, Count, CreditOf;
    var p := Sum(w);
    if ServesAlike(run, w, p) {
      forall start: nat | start + p <= |run|
        ensures ExactFrom(run, w, start)
      {
        forall k | k in w
          ensures IsRun(run[..start], w) && IsRun(run[..start + p], w)
          ensures Count(run[..start + p], w, k) - Count(run[..start], w, k) == w[k]
        {
          CreditsRecur(run, w, start, k);
          assert run[..start + p][..start] == run[..start];
          WindowExactIff(run[..start + p], w, start, k);
        }
      }
    }
    if forall start: nat :: start + p <= |run| ==> ExactFrom(run, w, start) {
      forall t | 0 <= t < |run| - p
        ensures ServedAt(run, w, t, run[t + p]) == ServedAt(run, w, t, run[t])
      {
        ExactWindowsServeAlike(run, w, t);
      }
    }
  }

  // ----- the condition in weights, picks and slice order

  /** What each identity is due at the next pick: its share of the picks including that one, less those it had. */
  ghost function Dues<Key>(run: seq<Slice<Key>>, w: map<Key, int>): (dues: map<Key, int>)
    requires IsRun(run, w)
    ensures dues.Keys == w.Keys
  {
    map k | k in w :: Owed(run, w, k) + w[k]
  }

  lemma DuesAreScores<Key>(run: seq<Slice<Key>>, w: map<Key, int>)
    requires IsRun(run, w) && Sum(w) > 0 && |run| < U64_LIMIT
    ensures Bumped(After(run, w), w) == Dues(run, w)
  {
    hide After, IsRun, Sum, Owed, CreditOf;
    forall k | k in w
      ensures CreditOf(After(run, w), k) == Owed(run, w, k)
    {
      OwedIsCredit(run, w, k);
    }
  }

  lemma PresentedAreScored<Key>(cs: Slice<Key>, w: map<Key, int>, scores: map<Key, int>)
    requires Presents(cs, w) && scores.Keys == w.Keys
    ensures Scored(scores, cs)
    ensures exists i: nat :: IsWinner(scores, cs, i)
  {
    WeightsKeys(cs);
    WinnerExists(scores, cs);
  }

  lemma StepServesWinner<Key>(credits: map<Key, int>, cs: Slice<Key>, w: map<Key, int>, i: nat)
    requires Presents(cs, w) && Scored(Bumped(credits, w), cs) && IsWinner(Bumped(credits, w), cs, i)
    ensures Step(credits, cs).1 == i
  {
    WinnerIsUnique(Bumped(credits, w), cs, i, Step(credits, cs).1);
  }

  /** Whichever slice a pick sees, it serves the first one listed of those to whom most is due. */
  lemma FirstMostDueIsServed<Key>(run: seq<Slice<Key>>, w: map<Key, int>, t: nat, cs: Slice<Key>, i: nat)
    requires IsRun(run, w) && Sum(w) > 0 && t <= |run| < U64_LIMIT && Presents(cs, w)
    requires IsRun(run[..t], w) && Scored(Dues(run[..t], w), cs) && IsWinner(Dues(run[..t], w), cs, i)
    ensures ServedAt(run, w, t, cs) == cs[i].id
  {
    hide After, Step, Dues, Bumped, Presents, Sum, Scored, IsWinner;
    DuesAreScores(run[..t], w);
    StepServesWinner(After(run[..t], w), cs, w, i);
  }

  /** Both slices list first the same one of those to whom most is due: always so when that is one identity. */
  ghost predicate BreakTieAlike<Key>(dues: map<Key, int>, a: Slice<Key>, b: Slice<Key>) {
    && Scored(dues, a) && Scored(dues, b)
    && forall i: nat, j: nat :: IsWinner(dues, a, i) && IsWinner(dues, b, j) ==> a[i].id == b[j].id
  }

  /** Every slice breaks a tie as the slice one cycle later would. */
  ghost predicate TiesRecur<Key>(run: seq<Slice<Key>>, w: map<Key, int>)
    requires IsRun(run, w) && Sum(w) > 0
  {
    forall t :: 0 <= t < |run| - Sum(w) ==>
      IsRun(run[..t], w) && BreakTieAlike(Dues(run[..t], w), run[t], run[t + Sum(w)])
  }

  lemma TieDecidesService<Key>(run: seq<Slice<Key>>, w: map<Key, int>, t: nat, a: Slice<Key>, b: Slice<Key>)
    requires IsRun(run, w) && Sum(w) > 0 && t <= |run| < U64_LIMIT && Presents(a, w) && Presents(b, w)
    ensures IsRun(run[..t], w)
    ensures BreakTieAlike(Dues(run[..t], w), a, b) <==> ServedAt(run, w, t, a) == ServedAt(run, w, t, b)
  {
    hide ServedAt, Dues, Sum, Presents, Scored;
    assert IsRun(run[..t], w);
    hide IsRun;
    var dues := Dues(run[..t], w);
    PresentedAreScored(a, w, dues);
    PresentedAreScored(b, w, dues);
    forall i: nat | IsWinner(dues, a, i)
      ensures i < |a| && ServedAt(run, w, t, a) == a[i].id
    {
      FirstMostDueIsServed(run, w, t, a, i);
    }
    forall j: nat | IsWinner(dues, b, j)
      ensures j < |b| && ServedAt(run, w, t, b) == b[j].id
    {
      FirstMostDueIsServed(run, w, t, b, j);
    }
  }

  /**
   * Every window of one cycle is exact, wherever it starts, if and only if at every pick the slice seen and the
   * slice one cycle later list first the same one of those to whom most is due.
   */
  lemma EveryWindowExactIff<Key>(run: seq<Slice<Key>>, w: map<Key, int>)
    requires IsRun(run, w) && Sum(w) > 0 && |run| < U64_LIMIT
    ensures (forall start: nat :: start + Sum(w) <= |run| ==> ExactFrom(run, w, start)) <==> TiesRecur(run, w)
  {
    hide Sum, ServedAt, ExactFrom, BreakTieAlike, Dues;
    AlikeServiceIsExact(run, w);
    forall t | 0 <= t < |run| - Sum(w)
      ensures IsRun(run[..t], w)
      ensures BreakTieAlike(Dues(run[..t], w), run[t], run[t + Sum(w)])
         <==> ServedAt(run, w, t, run[t + Sum(w)]) == ServedAt(run, w, t, run[t])
    {
      TieDecidesService(run, w, t, run[t], run[t + Sum(w)]);
    }
  }

  /** Slices recur with period `p`. */
  ghost predicate Periodic<Key>(run: seq<Slice<Key>>, p: nat) {
    forall t :: 0 <= t < |run| - p ==> run[t] == run[t + p]
  }

  /** Slices that recur with the period of one cycle, in whatever order within it, make every window exact. */
  lemma EveryWindowIsExact<Key>(run: seq<Slice<Key>>, w: map<Key, int>, start: nat)
    requires IsRun(run, w) && Sum(w) > 0 && Periodic(run, Sum(w))
    requires start + Sum(w) <= |run| < U64_LIMIT
    ensures ExactFrom(run, w, start)
  {
    hide Sum, ServedAt, ExactFrom, Presents;
    AlikeServiceIsExact(run, w);
  }

  // ----- when slice order cannot matter at all

  /** One identity is due more than any other, so no slice order can change the next pick. */
  ghost predicate AloneMostDue<Key>(run: seq<Slice<Key>>, w: map<Key, int>)
    requires IsRun(run, w)
  {
    exists k :: k in w && Tops(Dues(run, w), k)
  }

  ghost predicate Tops<Key>(dues: map<Key, int>, k: Key)
    requires k in dues
  {
    forall j :: j in dues && j != k ==> dues[j] < dues[k]
  }

  lemma WinnerAmongMostDue<Key>(dues: map<Key, int>, w: map<Key, int>, cs: Slice<Key>, i: nat, k: Key)
    requires Presents(cs, w) && dues.Keys == w.Keys && Scored(dues, cs) && IsWinner(dues, cs, i) && k in w
    ensures cs[i].id in w && dues[k] <= dues[cs[i].id]
  {
    WeightsKeys(cs);
    var j :| 0 <= j < |cs| && cs[j].eligible && cs[j].id == k;
  }

  lemma AloneBreaksAlike<Key>(run: seq<Slice<Key>>, w: map<Key, int>, a: Slice<Key>, b: Slice<Key>)
    requires IsRun(run, w) && AloneMostDue(run, w) && Presents(a, w) && Presents(b, w)
    ensures BreakTieAlike(Dues(run, w), a, b)
  {
    hide Dues, Presents, Scored;
    var dues := Dues(run, w);
    var k :| k in w && Tops(dues, k);
    PresentedAreScored(a, w, dues);
    PresentedAreScored(b, w, dues);
    forall i: nat, j: nat | IsWinner(dues, a, i) && IsWinner(dues, b, j)
      ensures a[i].id == b[j].id
    {
      WinnerAmongMostDue(dues, w, a, i, k);
      WinnerAmongMostDue(dues, w, b, j, k);
    }
  }

  /** While no tie arises every window is exact, whatever order the slices come in. */
  lemma WithoutTiesEveryWindowIsExact<Key>(run: seq<Slice<Key>>, w: map<Key, int>, start: nat)
    requires IsRun(run, w) && Sum(w) > 0 && start + Sum(w) <= |run| < U64_LIMIT
    requires forall t :: 0 <= t < |run| - Sum(w) ==> IsRun(run[..t], w) && AloneMostDue(run[..t], w)
    ensures ExactFrom(run, w, start)
  {
    hide Sum, ExactFrom, AloneMostDue, BreakTieAlike, Dues;
    forall t | 0 <= t < |run| - Sum(w)
      ensures IsRun(run[..t], w) && BreakTieAlike(Dues(run[..t], w), run[t], run[t + Sum(w)])
    {
      AloneBreaksAlike(run[..t], w, run[t], run[t + Sum(w)]);
    }
    EveryWindowExactIff(run, w);
  }

  ghost function Continued<Key>(run: seq<Slice<Key>>, n: nat, a: Slice<Key>, b: Slice<Key>): seq<Slice<Key>> {
    run + seq(n, _ => a) + [b]
  }

  /** A tie that two slices break differently is enough: one slice for a cycle, then the other, is not even. */
  lemma BrokenTieIsUneven<Key>(run: seq<Slice<Key>>, w: map<Key, int>, a: Slice<Key>, b: Slice<Key>)
    requires IsRun(run, w) && Sum(w) > 0 && |run| + Sum(w) < U64_LIMIT - 1 && Presents(a, w) && Presents(b, w)
    requires !BreakTieAlike(Dues(run, w), a, b)
    ensures var longer := Continued(run, Sum(w), a, b);
      IsRun(longer, w) && exists start: nat :: start + Sum(w) <= |longer| && !ExactFrom(longer, w, start)
  {
    hide Sum, ExactFrom, BreakTieAlike, Dues, Presents;
    var t, longer := |run|, Continued(run, Sum(w), a, b);
    assert longer[..t] == run && longer[t] == a && longer[t + Sum(w)] == b;
    assert IsRun(longer, w);
    EveryWindowExactIff(longer, w);
    assert !BreakTieAlike(Dues(longer[..t], w), longer[t], longer[t + Sum(w)]);
  }

  /** The slice with two of its entries exchanged. */
  function Exchanged<Key>(cs: Slice<Key>, i: nat, j: nat): Slice<Key>
    requires i < |cs| && j < |cs|
  {
    cs[i := cs[j]][j := cs[i]]
  }

  /** Where an entry of the exchanged slice came from. */
  function Origin(i: nat, j: nat, k: nat): nat {
    if k == i then j else if k == j then i else k
  }

  lemma ExchangedAt<Key>(cs: Slice<Key>, i: nat, j: nat, k: nat)
    requires i < |cs| && j < |cs| && k < |cs|
    ensures |Exchanged(cs, i, j)| == |cs| && Exchanged(cs, i, j)[k] == cs[Origin(i, j, k)]
    ensures Exchanged(cs, i, j)[Origin(i, j, k)] == cs[k]
  {
  }

  lemma ExchangedUnique<Key>(cs: Slice<Key>, i: nat, j: nat)
    requires UniqueEligible(cs) && i < |cs| && j < |cs|
    ensures UniqueEligible(Exchanged(cs, i, j))
  {
    hide Exchanged;
    var other := Exchanged(cs, i, j);
    ExchangedAt(cs, i, j, i);
    forall a, b | 0 <= a < b < |other| && other[a].eligible && other[b].eligible
      ensures other[a].id != other[b].id
    {
      ExchangedAt(cs, i, j, a);
      ExchangedAt(cs, i, j, b);
      assert Origin(i, j, a) != Origin(i, j, b);
    }
  }

  lemma ExchangedPresents<Key>(cs: Slice<Key>, w: map<Key, int>, i: nat, j: nat)
    requires Presents(cs, w) && i < j < |cs| && cs[i].eligible && cs[j].eligible
    ensures Presents(Exchanged(cs, i, j), w)
  {
    hide Weights, UniqueEligible, Exchanged;
    var other := Exchanged(cs, i, j);
    ExchangedUnique(cs, i, j);
    forall k | 0 <= k < |cs|
      ensures |other| == |cs| && cs[k] in other && other[k] in cs
    {
      ExchangedAt(cs, i, j, k);
    }
    assert AnyEligible(other) by {
      ExchangedAt(cs, i, j, i);
    }
    SameEntriesSameWeights(cs, other);
  }

  lemma ExchangedWinner<Key>(scores: map<Key, int>, cs: Slice<Key>, i: nat, j: nat)
    requires Scored(scores, cs) && IsWinner(scores, cs, i) && i < j < |cs| && cs[i].eligible && cs[j].eligible
    requires cs[i].id in scores && cs[j].id in scores
    requires scores[cs[j].id] == scores[cs[i].id] && Scored(scores, Exchanged(cs, i, j))
    ensures IsWinner(scores, Exchanged(cs, i, j), i)
  {
  }

  lemma WinnerIsPresent<Key>(dues: map<Key, int>, w: map<Key, int>, cs: Slice<Key>, i: nat)
    requires Presents(cs, w) && dues.Keys == w.Keys && Scored(dues, cs) && IsWinner(dues, cs, i)
    ensures i < |cs| && cs[i].eligible && cs[i].id in w
  {
    WeightsKeys(cs);
  }

  lemma TiedWithWinner<Key>(dues: map<Key, int>, w: map<Key, int>, cs: Slice<Key>, i: nat) returns (j: nat)
    requires Presents(cs, w) && dues.Keys == w.Keys && Scored(dues, cs) && IsWinner(dues, cs, i)
    requires cs[i].id in w && !Tops(dues, cs[i].id)
    ensures i < j < |cs| && cs[j].eligible && cs[j].id in w && cs[j].id != cs[i].id && dues[cs[j].id] == dues[cs[i].id]
  {
    hide UniqueEligible, AnyEligible, Weights;
    var k :| k in w && k != cs[i].id && dues[k] >= dues[cs[i].id];
    WeightsKeys(cs);
    j :| 0 <= j < |cs| && cs[j].eligible && cs[j].id == k;
  }

  lemma DifferentWinners<Key>(dues: map<Key, int>, a: Slice<Key>, b: Slice<Key>, i: nat)
    requires Scored(dues, a) && Scored(dues, b) && IsWinner(dues, a, i) && IsWinner(dues, b, i) && a[i].id != b[i].id
    ensures !BreakTieAlike(dues, a, b)
  {
    hide IsWinner;
  }

  /** Any tie among the most due can be broken either way, by exchanging two entries of the slice. */
  lemma TieCanBreakEitherWay<Key>(run: seq<Slice<Key>>, w: map<Key, int>, cs: Slice<Key>) returns (other: Slice<Key>)
    requires IsRun(run, w) && Presents(cs, w) && !AloneMostDue(run, w)
    ensures Presents(other, w) && !BreakTieAlike(Dues(run, w), cs, other)
  {
    hide Dues, IsRun, Presents, Exchanged, Scored, Tops, IsWinner;
    var dues := Dues(run, w);
    PresentedAreScored(cs, w, dues);
    var i: nat :| IsWinner(dues, cs, i);
    WinnerIsPresent(dues, w, cs, i);
    var j := TiedWithWinner(dues, w, cs, i);
    other := Exchanged(cs, i, j);
    ExchangedPresents(cs, w, i, j);
    PresentedAreScored(other, w, dues);
    ExchangedAt(cs, i, j, i);
    ExchangedWinner(dues, cs, i, j);
    DifferentWinners(dues, cs, other, i);
  }

  /**
   * Slice order never costs anybody an exact window, over runs of any length up to n and a cycle more, if and only
   * if after no run of length up to n do two identities tie for the most due.
   */
  lemma OrderNeverMattersIff<Key>(w: map<Key, int>, n: nat, cs: Slice<Key>)
    requires Presents(cs, w) && Sum(w) > 0 && n + Sum(w) < U64_LIMIT - 1
    ensures (forall run: seq<Slice<Key>>, start: nat ::
               IsRun(run, w) && start + Sum(w) <= |run| <= n + Sum(w) + 1 ==> ExactFrom(run, w, start)) <==>
            (forall run: seq<Slice<Key>> :: IsRun(run, w) && |run| <= n ==> AloneMostDue(run, w))
  {
    hide Sum, ExactFrom, AloneMostDue, Presents;
    var p := Sum(w);
    if forall run: seq<Slice<Key>> :: IsRun(run, w) && |run| <= n ==> AloneMostDue(run, w) {
      forall run: seq<Slice<Key>>, start: nat | IsRun(run, w) && start + p <= |run| <= n + p + 1
        ensures ExactFrom(run, w, start)
      {
        assert forall t :: 0 <= t < |run| - p ==> IsRun(run[..t], w) && |run[..t]| <= n;
        WithoutTiesEveryWindowIsExact(run, w, start);
      }
    }
    if run: seq<Slice<Key>> :| IsRun(run, w) && |run| <= n && !AloneMostDue(run, w) {
      var other := TieCanBreakEitherWay(run, w, cs);
      BrokenTieIsUneven(run, w, cs, other);
      var longer := Continued(run, p, cs, other);
      var start: nat :| start + p <= |longer| && !ExactFrom(longer, w, start);
    }
  }
}
