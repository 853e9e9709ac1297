/** Runs of real decisions: every run the bounds allow is one some sequence of requests produces. */
module DecisionRuns {
  import opened Arith
  import opened SeqSums
  import opened Core
  import opened Capacity
  import opened BoundedLoad
  import opened ClosedLoop

  /** The fleet as the policy sees it after a run of winners, each still holding its requests. */
  function Backends(weights: seq<Weight>, run: seq<nat>): (cs: seq<LoadedCandidate<nat>>)
    requires |run| < U64_LIMIT
    ensures |cs| == |weights|
    ensures forall i :: 0 <= i < |cs| ==> cs[i] == Backend(weights[i], run, i)
  {
    seq<LoadedCandidate<nat>>(|weights|, i requires 0 <= i < |weights| => Backend(weights[i], run, i))
  }

  function Backend(weight: Weight, run: seq<nat>, i: nat): LoadedCandidate<nat>
    requires |run| < U64_LIMIT
  {
    LoadedCandidate(i, weight, Load(run, i), true)
  }

  lemma {:induction false} SamplesOfAll<Id>(cs: seq<LoadedCandidate<Id>>)
    requires forall i :: 0 <= i < |cs| ==> cs[i].eligible
    ensures |Samples(cs)| == |cs|
    ensures forall i :: 0 <= i < |cs| ==> Samples(cs)[i] == LoadSample(i, cs[i].load, cs[i].weight)
  {
    if cs != [] {
      SamplesOfAll(cs[..|cs| - 1]);
    }
  }

  /** Weights the accumulators can hold. */
  ghost predicate IsFleet(weights: seq<Weight>) {
    weights != [] && Total(weights) < U64_LIMIT
  }

  /** What the policy samples after a run: the run's loads, position by position. */
  lemma SamplesOfRun(weights: seq<Weight>, run: seq<nat>)
    requires |run| < U64_LIMIT
    ensures var ss := Samples(Backends(weights, run));
      && |ss| == |weights| && Weights(ss) == weights && Loads(ss) == LoadsAfter(run, |weights|)
      && (forall i :: 0 <= i < |ss| ==> ss[i].index == i && ss[i].load == Load(run, i) && ss[i].weight == weights[i])
  {
    hide Samples, Load;
    var ss := Samples(Backends(weights, run));
    SamplesOfAll(Backends(weights, run));
    assert Weights(ss) == weights && Loads(ss) == LoadsAfter(run, |weights|);
  }

  /** After a legal run the totals fit, and room means being below the run's own bound. */
  lemma RoomAfterRun(weights: seq<Weight>, factor: nat, run: seq<nat>)
    requires IsFleet(weights) && Fleet(weights) && IsRun(weights, factor, run) && |run| + 1 < U64_LIMIT
    ensures var ss := Samples(Backends(weights, run));
      && Total(Weights(ss)) > 0 && Total(Loads(ss)) == |run|
      && Totals(ss).Ok? && Totals(ss).value.0 + 1 < U64_LIMIT && |Room(ss, factor)| == |weights|
      && (forall i :: 0 <= i < |weights| ==>
        (Room(ss, factor)[i] <==> Load(run, i) < Bound(weights, factor, |run| + 1, i)))
  {
    hide Total, IsRun, Samples, Load, Totals, CapacityOf;
    SamplesOfRun(weights, run);
    LoadsTotal(weights, factor, run);
    FleetWeighs(weights);
    TotalsAreSums(Samples(Backends(weights, run)));
  }

  /** Some hash makes a candidate preferred over any other whose hash is another fixed value, whatever the weights. */
  ghost predicate CanFavour(scoreOf: (u64, Weight) -> int) {
    exists hi: u64, lo: u64 :: Favours(scoreOf, hi, lo)
  }

  ghost predicate Favours(scoreOf: (u64, Weight) -> int, hi: u64, lo: u64) {
    forall w: Weight, v: Weight :: scoreOf(hi, w) < scoreOf(lo, v)
  }

  lemma FavouredWins(ranks: seq<Rank>, allowed: seq<bool>, i: nat)
    requires i < |ranks| == |allowed| && allowed[i]
    requires forall j :: 0 <= j < |ranks| && j != i ==> ranks[i].score < ranks[j].score
    ensures IsFirstBest(ranks, allowed, |ranks|, i)
  {
  }

  /** The decision that a request with these hashes gets after this run. */
  ghost predicate Decides(weights: seq<Weight>, factor: nat, scoreOf: (u64, Weight) -> int, run: seq<nat>,
                          hashOf: nat -> u64, d: BoundedLoadDecision)
    requires |run| < U64_LIMIT
  {
    var cs := Backends(weights, run);
    var ss := Samples(cs);
    && Totals(ss).Ok? && Totals(ss).value.0 + 1 < U64_LIMIT
    && Total(Weights(ss)) > 0
    && IsDecision(ss, Ranks(cs, scoreOf, hashOf), factor, d)
  }

  /** Winners of successive requests, each decided by the policy with the loads so far. */
  ghost predicate IsDecisionRun(weights: seq<Weight>, factor: nat, scoreOf: (u64, Weight) -> int, run: seq<nat>)
    requires |run| < U64_LIMIT
    decreases |run|
  {
    run == [] ||
    var before, winner := run[..|run| - 1], run[|run| - 1];
    && IsDecisionRun(weights, factor, scoreOf, before)
    && exists hashOf: nat -> u64, d :: Decides(weights, factor, scoreOf, before, hashOf, d) && d.selection == winner
  }

  function FavourOnly(next: nat, hi: u64, lo: u64): nat -> u64 {
    (i: nat) => if i == next then hi else lo
  }

  lemma FavouriteRanksFirst(weights: seq<Weight>, scoreOf: (u64, Weight) -> int, run: seq<nat>,
                            next: nat, hi: u64, lo: u64)
    requires |run| < U64_LIMIT && next < |weights| && Favours(scoreOf, hi, lo)
    ensures var ranks := Ranks(Backends(weights, run), scoreOf, FavourOnly(next, hi, lo));
      |ranks| == |weights| && forall j :: 0 <= j < |ranks| && j != next ==> ranks[next].score < ranks[j].score
  {
    hide Samples, Load;
    SamplesOfRun(weights, run);
  }

  /** Whoever has room can be made the winner of the next request. */
  lemma AnyRoomCanWin(weights: seq<Weight>, factor: nat, scoreOf: (u64, Weight) -> int,
                      run: seq<nat>, next: nat)
    returns (hashOf: nat -> u64, d: BoundedLoadDecision)
    requires IsFleet(weights) && Fleet(weights) && IsRun(weights, factor, run) && |run| + 1 < U64_LIMIT
    requires CanFavour(scoreOf) && next < |weights| && Load(run, next) < Bound(weights, factor, |run| + 1, next)
    ensures Decides(weights, factor, scoreOf, run, hashOf, d) && d.selection == next
  {
    hide Total, IsRun, Samples, Load, Totals, Bound;
    var hi: u64, lo: u64 :| Favours(scoreOf, hi, lo);
    hashOf := FavourOnly(next, hi, lo);
    var cs := Backends(weights, run);
    var ss, ranks := Samples(cs), Ranks(cs, scoreOf, hashOf);
    SamplesOfRun(weights, run);
    RoomAfterRun(weights, factor, run);
    FavouriteRanksFirst(weights, scoreOf, run, next, hi, lo);
    FavouredWins(ranks, Everyone(|ss|), next);
    FavouredWins(ranks, Room(ss, factor), next);
    d := BoundedLoadDecision(ss[next].index, ss[next].index, ss[next].load, CapacityAt(ss, factor, next));
  }

  /** A decision taken over the loads of a run is a legal next step of that run. */
  lemma DecisionIsLegal(weights: seq<Weight>, factor: nat, scoreOf: (u64, Weight) -> int,
                        run: seq<nat>, hashOf: nat -> u64, d: BoundedLoadDecision)
    requires IsFleet(weights) && Fleet(weights) && IsRun(weights, factor, run) && |run| + 1 < U64_LIMIT
    requires Decides(weights, factor, scoreOf, run, hashOf, d)
    ensures IsRun(weights, factor, run + [d.selection])
  {
    hide Total, IsRun, IsDecision, Samples, Load, Totals;
    SamplesOfRun(weights, run);
    RoomAfterRun(weights, factor, run);
    var cs := Backends(weights, run);
    var s := DecisionExtendsRun(Samples(cs), Ranks(cs, scoreOf, hashOf), factor, d, run);
  }

  /** The runs the policy can produce are exactly the runs the bounds allow. */
  lemma {:induction false} DecisionRunsAreRuns(weights: seq<Weight>, factor: nat, scoreOf: (u64, Weight) -> int,
                                               run: seq<nat>)
    requires IsFleet(weights) && Fleet(weights) && CanFavour(scoreOf) && |run| < U64_LIMIT
    ensures IsDecisionRun(weights, factor, scoreOf, run) <==> IsRun(weights, factor, run)
    decreases |run|
  {
    hide Decides, CanFavour, IsFleet, Fleet, Bound, Load;
    if run != [] {
      var before, winner := run[..|run| - 1], run[|run| - 1];
      DecisionRunsAreRuns(weights, factor, scoreOf, before);
      if IsDecisionRun(weights, factor, scoreOf, run) {
        var hashOf: nat -> u64, d :| Decides(weights, factor, scoreOf, before, hashOf, d) && d.selection == winner;
        DecisionIsLegal(weights, factor, scoreOf, before, hashOf, d);
        assert before + [winner] == run;
      }
      if IsRun(weights, factor, run) {
        var hashOf, d := AnyRoomCanWin(weights, factor, scoreOf, before, winner);
      }
    }
  }

  /**
   * Exactly when a floor holds over every run of decisions of a given length: some earlier moment must already
   * force it. This is the condition the "floor or ceiling of its share" claim needs at 100 percent.
   */
  lemma FloorHoldsIff(weights: seq<Weight>, factor: nat, scoreOf: (u64, Weight) -> int,
                      t: nat, i: nat, floor: int)
    requires IsFleet(weights) && Fleet(weights) && factor >= 100 && CanFavour(scoreOf) && t < U64_LIMIT && i < |weights|
    ensures
      (forall run: seq<nat> :: |run| == t && IsDecisionRun(weights, factor, scoreOf, run) ==> Load(run, i) >= floor)
      <==> (exists s: nat :: s <= t && Forced(weights, factor, s, i) >= floor)
  {
    if s: nat :| s <= t && Forced(weights, factor, s, i) >= floor {
      forall run: seq<nat> | |run| == t && IsDecisionRun(weights, factor, scoreOf, run)
        ensures Load(run, i) >= floor
      {
        DecisionRunsAreRuns(weights, factor, scoreOf, run);
        LoadAtLeastForced(weights, factor, run, s, i);
      }
    } else {
      var run, s := StarvingRun(weights, factor, t, i);
      DecisionRunsAreRuns(weights, factor, scoreOf, run);
      assert Load(run, i) < floor;
    }
  }

  const UNEVEN: seq<Weight> := [5, 1, 1, 1]

  lemma UnevenFleet()
    ensures IsFleet(UNEVEN) && Fleet(UNEVEN) && Total(UNEVEN) == 8
  {
    var w: seq<nat> := [5, 1, 1, 1];
    assert w[..3] == [5, 1, 1] && w[..3][..2] == [5, 1] && w[..3][..2][..1] == [5];
    assert Total([5]) == 5 && Total([5, 1]) == 6 && Total([5, 1, 1]) == 7 && Total(w) == 8;
    assert UNEVEN == w;
  }

  lemma SmallOnesFirst()
    ensures Fleet(UNEVEN) && IsRun(UNEVEN, 100, [1, 2, 3]) && Load([1, 2, 3], 0) == 0
  {
    UnevenFleet();
    var run: seq<nat> := [1, 2, 3];
    assert run[..2] == [1, 2] && run[..2][..1] == [1] && run[..2][..1][..0] == [];
    forall t: nat, i: nat | 1 <= t <= 3 && 1 <= i < 4
      ensures Bound(UNEVEN, 100, t, i) == 1
    {
      CeilDivLeast(t * 1 * 100, 800, 1);
      CeilDivLeast(t * 1 * 100, 800, 0);
    }
    hide Bound;
    assert IsRun(UNEVEN, 100, []) && IsRun(UNEVEN, 100, [1]) && IsRun(UNEVEN, 100, [1, 2]);
  }

  /**
   * With weights 5,1,1,1 at 100 percent, three requests can prefer the three small candidates in turn:
   * the policy then leaves the large one at 0, below floor(3*5/8).
   */
  lemma FloorOfShareCanFail(scoreOf: (u64, Weight) -> int)
    requires CanFavour(scoreOf)
    ensures IsDecisionRun(UNEVEN, 100, scoreOf, [1, 2, 3])
    ensures Total(UNEVEN) == 8 && Load([1, 2, 3], 0) < 3 * 5 / 8
  {
    UnevenFleet();
    SmallOnesFirst();
    hide IsDecisionRun, IsRun;
    DecisionRunsAreRuns(UNEVEN, 100, scoreOf, [1, 2, 3]);
  }

  function FallingScore(hash: u64, weight: Weight): int {
    0 - hash
  }

  /** A score that falls as the hash rises, as the exponential draw does, can favour anyone. */
  lemma FallingScoreFavours()
    ensures CanFavour(FallingScore)
  {
    assert Favours(FallingScore, 1, 0);
  }

  /** Two decisions over the same samples and ranks agree, so the policy's answer is the one the run records. */
  lemma DecisionIsUnique(
      ss: seq<LoadSample>, ranks: seq<Rank>, factor: nat, d: BoundedLoadDecision, e: BoundedLoadDecision)
    requires |ranks| == |ss| && Total(Weights(ss)) > 0
    requires IsDecision(ss, ranks, factor, d) && IsDecision(ss, ranks, factor, e)
    ensures d == e
  {
    var a: nat, s: nat :|
      && IsFirstBest(ranks, Everyone(|ss|), |ss|, a) && IsFirstBest(ranks, Room(ss, factor), |ss|, s)
      && d == BoundedLoadDecision(ss[s].index, ss[a].index, ss[s].load, CapacityAt(ss, factor, s));
    var a': nat, s': nat :|
      && IsFirstBest(ranks, Everyone(|ss|), |ss|, a') && IsFirstBest(ranks, Room(ss, factor), |ss|, s')
      && e == BoundedLoadDecision(ss[s'].index, ss[a'].index, ss[s'].load, CapacityAt(ss, factor, s'));
    FirstBestIsUnique(ranks, Everyone(|ss|), |ss|, a, a');
    FirstBestIsUnique(ranks, Room(ss, factor), |ss|, s, s');
  }

  /** The policy itself never refuses along a run, and what it answers is the decision the run records. */
  method DecideAfter(policy: BoundedLoadRendezvous<nat>, weights: seq<Weight>, run: seq<nat>, hashOf: nat -> u64)
    returns (d: BoundedLoadDecision)
    requires policy.Valid() && IsFleet(weights) && Fleet(weights) && IsRun(weights, policy.factor, run)
    requires |run| + 1 < U64_LIMIT
    modifies policy
    ensures Decides(weights, policy.factor, policy.scoreOf, run, hashOf, d)
    ensures IsRun(weights, policy.factor, run + [d.selection])
  {
    hide Total, IsRun, Samples, Load, Totals, IsDecision, Bound;
    var cs := Backends(weights, run);
    SamplesOfRun(weights, run);
    RoomAfterRun(weights, policy.factor, run);
    var r := policy.Decide(cs, hashOf);
    d := r.value;
    DecisionIsLegal(weights, policy.factor, policy.scoreOf, run, hashOf, d);
  }
}
