/** Short runs that show where the smooth weighted round robin laws stop. */
module UnevenShares {
  import opened Core
  import opened Listings
  import opened Sums
  import opened SmoothWeightedRoundRobin
  import opened FairShare

  const AB: Slice<bool> := [Candidate(true, 1, true), Candidate(false, 1, true)]
  const BA: Slice<bool> := [Candidate(false, 1, true), Candidate(true, 1, true)]

  lemma TwoWaySlices(w: map<bool, int>)
    requires w == map[true := 1, false := 1]
    ensures Presents(AB, w) && Presents(BA, w)
    ensures Bumped(map[], w) == w && Sum(w) == 2
  {
    assert Weights(AB[..1]) == map[true := 1];
    assert Weights(BA[..1]) == map[false := 1];
    assert AB[0].eligible && BA[0].eligible;
    SumInsert(map[true := 1], false, 1);
    SumInsert(map[], true, 1);
    assert map[][true := 1] == map[true := 1];
  }

  const EVEN: map<bool, int> := map[true := 1, false := 1]

  lemma StepPicksWinner(credits: map<bool, int>, cs: Slice<bool>, i: nat)
    requires Presents(cs, EVEN) && Sum(EVEN) == 2
    requires Scored(Bumped(credits, EVEN), cs) && IsWinner(Bumped(credits, EVEN), cs, i)
    ensures UniqueEligible(cs) && AnyEligible(cs) && Step(credits, cs).1 == i
    ensures var scores := Bumped(credits, EVEN);
      cs[i].id in scores && Step(credits, cs).0 == scores[cs[i].id := scores[cs[i].id] - 2]
  {
    hide Sum, Weights, Bumped;
    WinnerIsUnique(Bumped(credits, EVEN), cs, i, Step(credits, cs).1);
  }

  /** Extending a run by one slice: the new credits and whom the pick counts for. */
  lemma Extend(run: seq<Slice<bool>>, cs: Slice<bool>, credits: map<bool, int>, i: nat)
    requires IsRun(run, EVEN) && Presents(cs, EVEN) && Sum(EVEN) == 2 && After(run, EVEN) == credits
    requires |run| < U64_LIMIT - 1
    requires Scored(Bumped(credits, EVEN), cs) && IsWinner(Bumped(credits, EVEN), cs, i)
    ensures IsRun(run + [cs], EVEN)
    ensures var scores := Bumped(credits, EVEN);
      After(run + [cs], EVEN) == scores[cs[i].id := scores[cs[i].id] - 2]
    ensures Count(run + [cs], EVEN, false) == Count(run, EVEN, false) + if cs[i].id then 0 else 1
  {
    hide Sum, Step, Weights, EpochAfter, Before;
    var longer := run + [cs];
    assert longer[..|run|] == run;
    NoWrapYet(longer, EVEN);
    StepPicksWinner(credits, cs, i);
    CountGrows(longer, EVEN, false);
  }

  lemma FirstOfEqualsWins(cs: Slice<bool>)
    requires cs == AB || cs == BA
    ensures Scored(EVEN, cs) && IsWinner(EVEN, cs, 0)
  {
  }

  /** Between equals owed nothing, whoever the slice lists first is served and the other is owed. */
  lemma ServeFirst(run: seq<Slice<bool>>, cs: Slice<bool>, credits: map<bool, int>)
    requires IsRun(run, EVEN) && (cs == AB || cs == BA) && After(run, EVEN) == credits && |run| < U64_LIMIT - 1
    requires Bumped(credits, EVEN) == EVEN
    ensures IsRun(run + [cs], EVEN) && After(run + [cs], EVEN) == EVEN[cs[0].id := -1]
    ensures Count(run + [cs], EVEN, false) == Count(run, EVEN, false) + if cs[0].id then 0 else 1
  {
    hide Sum, Weights, After, Step, Count, Presents, Bumped, IsWinner, Scored;
    TwoWaySlices(EVEN);
    FirstOfEqualsWins(cs);
    Extend(run, cs, credits, 0);
  }

  const ALONE: Slice<bool> := [Candidate(true, 1, true)]

  lemma AloneIsServed(credits: map<bool, int>)
    requires credits == EVEN[true := -1]
    ensures UniqueEligible(ALONE) && AnyEligible(ALONE) && Weights(ALONE) == map[true := 1] && Sum(map[true := 1]) == 1
    ensures Step(credits, ALONE).0 == map[true := -1]
  {
    assert ALONE[0].eligible;
    assert ALONE[..0] == [];
    assert Weights(ALONE) == map[true := 1];
    SumInsert(map[], true, 1);
    assert map[][true := 1] == map[true := 1];
    assert Bumped(credits, map[true := 1]) == map[true := 0];
  }

  /**
   * Two members of weight 1; after one pick the second disappears, owed one. The first is left alone with a
   * credit of -1: the total is no longer zero, and the credit no longer above minus the total weight.
   */
  lemma PruningCanLoseCredit(run: seq<Slice<bool>>)
    requires run == [AB]
    ensures IsRun(run, EVEN) && Sum(After(run, EVEN)) == 0
    ensures UniqueEligible(ALONE) && AnyEligible(ALONE) && Sum(Weights(ALONE)) == 1
    ensures var credits := Step(After(run, EVEN), ALONE).0;
      credits == map[true := -1] && Sum(credits) == -1 && credits[true] <= -Sum(Weights(ALONE))
  {
    hide Sum, Weights, After, Step, Count, Presents, Before, Bumped;
    TwoWaySlices(EVEN);
    var none: seq<Slice<bool>> := [];
    NoPicksYet(none);
    assert run == none + [AB];
    ServeFirst(none, AB, map[]);
    RunIsBalanced(run, EVEN);
    AloneIsServed(After(run, EVEN));
    var empty: map<bool, int> := map[];
    SumConstantZero(empty);
    SumInsert(empty, true, -1);
    assert empty[true := -1] == map[true := -1];
  }

  lemma OwedWins()
    ensures var scores := Bumped(EVEN[true := -1], EVEN);
      scores == map[true := 0, false := 2] && Scored(scores, AB) && IsWinner(scores, AB, 1)
  {
    assert Bumped(EVEN[true := -1], EVEN) == map[true := 0, false := 2];
  }

  lemma ServeOwed(run: seq<Slice<bool>>)
    requires IsRun(run, EVEN) && After(run, EVEN) == EVEN[true := -1] && |run| < U64_LIMIT - 1
    ensures IsRun(run + [AB], EVEN) && After(run + [AB], EVEN) == map[true := 0, false := 0]
    ensures Count(run + [AB], EVEN, false) == Count(run, EVEN, false) + 1
  {
    hide Sum, Weights, After, Step, Count, Presents, Bumped, IsWinner, Scored;
    TwoWaySlices(EVEN);
    OwedWins();
    Extend(run, AB, EVEN[true := -1], 1);
  }

  /** Reordering equal members between cycles can serve one of them twice in an unaligned window. */
  lemma ReorderedWindowCanBeUneven(first: seq<Slice<bool>>, run: seq<Slice<bool>>)
    requires first == [AB] && run == first + [AB] + [BA]
    ensures Sum(EVEN) == 2 && IsRun(first, EVEN) && IsRun(run, EVEN)
    ensures Count(run, EVEN, false) - Count(first, EVEN, false) != EVEN[false]
  {
    hide Sum, Weights, After, Step, Count, Presents, Before, Bumped;
    TwoWaySlices(EVEN);
    var none: seq<Slice<bool>> := [];
    NoPicksYet(none);
    assert first == none + [AB];
    ServeFirst(none, AB, map[]);
    ServeOwed(first);
    ClearedCredits();
    ServeFirst(first + [AB], BA, map[true := 0, false := 0]);
  }

  lemma NoPicksYet(none: seq<Slice<bool>>)
    requires none == []
    ensures IsRun(none, EVEN) && After(none, EVEN) == map[]
  {
  }

  lemma ClearedCredits()
    ensures Bumped(map[true := 0, false := 0], EVEN) == EVEN
  {
  }
}
