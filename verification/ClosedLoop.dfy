/** Repeated bounded-load decisions, each winner keeping its request: how loads evolve over a run. */
module ClosedLoop {
  import opened Core
  import opened Arith
  import opened SeqSums
  import opened Capacity
  import opened BoundedLoad

  /** Requests candidate `i` has received in a run of winners. */
  function Load(run: seq<nat>, i: nat): (l: nat)
    ensures l <= |run|
  {
    if run == [] then 0 else Load(run[..|run| - 1], i) + if run[|run| - 1] == i then 1 else 0
  }

  function LoadsAfter(run: seq<nat>, n: nat): (r: seq<nat>)
    ensures |r| == n && forall i :: 0 <= i < n ==> r[i] == Load(run, i)
  {
    seq(n, i requires 0 <= i < n => Load(run, i))
  }

  ghost predicate Fleet(weights: seq<nat>) {
    weights != [] && forall i :: 0 <= i < |weights| ==> weights[i] > 0
  }

  /** Capacity of candidate `i` when `t` requests are in flight. */
  ghost function Bound(weights: seq<nat>, factor: nat, t: nat, i: nat): nat
    requires Fleet(weights) && i < |weights|
  {
    FleetWeighs(weights);
    CapacityOf(t, weights[i], Total(weights), factor)
  }

  lemma FleetWeighs(weights: seq<nat>)
    requires Fleet(weights)
    ensures Total(weights) > 0
    ensures forall i :: 0 <= i < |weights| ==> weights[i] <= Total(weights)
  {
    PartsWithinTotal(weights);
    assert weights[0] <= Total(weights);
  }

  /** Every decision goes to somebody with room for the request being placed. */
  ghost predicate IsRun(weights: seq<nat>, factor: nat, run: seq<nat>)
    requires Fleet(weights)
    decreases |run|
  {
    run == [] ||
    var before, winner := run[..|run| - 1], run[|run| - 1];
    IsRun(weights, factor, before) && winner < |weights|
    && Load(before, winner) < Bound(weights, factor, |run|, winner)
  }

  lemma {:induction false} LoadsTotal(weights: seq<nat>, factor: nat, run: seq<nat>)
    requires Fleet(weights) && IsRun(weights, factor, run)
    ensures Total(LoadsAfter(run, |weights|)) == |run|
    decreases |run|
  {
    var n := |weights|;
    if run == [] {
      ZeroSum(LoadsAfter(run, n));
    } else {
      var before, winner := run[..|run| - 1], run[|run| - 1];
      LoadsTotal(weights, factor, before);
      assert LoadsAfter(run, n) == LoadsAfter(before, n)[winner := Load(before, winner) + 1];
      SumUpdate(LoadsAfter(before, n), winner, Load(before, winner) + 1);
    }
  }

  /** No candidate ever carries more than the ceiling of its scaled share of the requests placed so far. */
  lemma {:induction false} LoadNeverExceedsBound(weights: seq<nat>, factor: nat, run: seq<nat>, i: nat)
    requires Fleet(weights) && IsRun(weights, factor, run) && i < |weights|
    ensures Load(run, i) <= Bound(weights, factor, |run|, i)
    decreases |run|
  {
    if run != [] {
      var before := run[..|run| - 1];
      LoadNeverExceedsBound(weights, factor, before, i);
      FleetWeighs(weights);
      CapacityMonotone(|before|, |run|, weights[i], Total(weights), factor);
    }
  }

  /** In any state of a run somebody can take the next request, so runs never get stuck. */
  lemma RunCanContinue(weights: seq<nat>, factor: nat, run: seq<nat>)
    requires Fleet(weights) && factor >= 100 && IsRun(weights, factor, run)
    ensures exists i :: 0 <= i < |weights| && Load(run, i) < Bound(weights, factor, |run| + 1, i)
  {
    FleetWeighs(weights);
    LoadsTotal(weights, factor, run);
    SomeoneHasRoom(LoadsAfter(run, |weights|), weights, factor);
    var i :| 0 <= i < |weights|
      && LoadsAfter(run, |weights|)[i] < CapacityOf(|run| + 1, weights[i], Total(weights), factor);
    assert Load(run, i) < Bound(weights, factor, |run| + 1, i);
  }

  /** A policy decision over the loads of a run is a legal next step of that run. */
  lemma DecisionExtendsRun(ss: seq<LoadSample>, ranks: seq<Rank>, factor: nat,
                           d: BoundedLoadDecision, run: seq<nat>)
    returns (s: nat)
    requires Fleet(Weights(ss)) && IsRun(Weights(ss), factor, run) && Loads(ss) == LoadsAfter(run, |ss|)
    requires |ranks| == |ss| && Total(Weights(ss)) > 0 && IsDecision(ss, ranks, factor, d)
    ensures s < |ss| && d.selection == ss[s].index && IsRun(Weights(ss), factor, run + [s])
  {
    var a: nat, winner: nat :|
      && IsFirstBest(ranks, Everyone(|ss|), |ss|, a) && IsFirstBest(ranks, Room(ss, factor), |ss|, winner)
      && d == BoundedLoadDecision(ss[winner].index, ss[a].index, ss[winner].load, CapacityAt(ss, factor, winner));
    s := winner;
    LoadsTotal(Weights(ss), factor, run);
    assert Load(run, s) == Loads(ss)[s];
    assert (run + [s])[..|run|] == run;
  }

  // ----- the tightest factor

  ghost predicate WholeShares(weights: seq<nat>, t: nat)
    requires Fleet(weights)
  {
    FleetWeighs(weights);
    forall i :: 0 <= i < |weights| ==> t * weights[i] % Total(weights) == 0
  }

  lemma BoundOfWholeShare(t: nat, w: nat, all: nat)
    requires all > 0 && t * w % all == 0
    ensures CapacityOf(t, w, all, 100) * all == t * w
  {
    var q := t * w / all;
    assert t * w == all * q;
    assert t * w * 100 == (all * 100) * q;
    CeilDivLeast(t * w * 100, all * 100, q);
    if CapacityOf(t, w, all, 100) < q {
      MulMonotone(all * 100, CapacityOf(t, w, all, 100), all * 100, q - 1);
    }
  }

  lemma {:induction false} ScaledSum(s: seq<nat>, weights: seq<nat>, t: nat, all: nat)
    requires |s| == |weights| && forall i :: 0 <= i < |s| ==> s[i] * all == t * weights[i]
    ensures Total(s) * all == t * Total(weights)
  {
    if s != [] {
      var n := |s| - 1;
      ScaledSum(s[..n], weights[..n], t, all);
      Distribute(Total(s[..n]), s[n], all);
      Distribute(Total(weights[..n]), weights[n], t);
    }
  }

  /** Pointwise bounded sequences of equal sum are equal. */
  lemma {:induction false} SqueezedSums(a: seq<nat>, b: seq<nat>)
    requires |a| == |b| && (forall i :: 0 <= i < |a| ==> a[i] <= b[i])
    ensures Total(a) <= Total(b) && (Total(a) == Total(b) ==> a == b)
  {
    if a != [] {
      var n := |a| - 1;
      SqueezedSums(a[..n], b[..n]);
      if Total(a) == Total(b) {
        assert a == a[..n] + [a[n]] && b == b[..n] + [b[n]];
      }
    }
  }

  /** At 100 percent, whenever every share is a whole number every candidate carries exactly its share. */
  lemma WholeSharesAreExact(weights: seq<nat>, run: seq<nat>, i: nat)
    requires Fleet(weights) && IsRun(weights, 100, run) && WholeShares(weights, |run|) && i < |weights|
    ensures Load(run, i) * Total(weights) == |run| * weights[i]
  {
    FleetWeighs(weights);
    var t, n, all := |run|, |weights|, Total(weights);
    var loads, bounds := LoadsAfter(run, n), seq(n, j requires 0 <= j < n => Bound(weights, 100, t, j));
    forall j | 0 <= j < n
      ensures loads[j] <= bounds[j] && bounds[j] * all == t * weights[j]
    {
      LoadNeverExceedsBound(weights, 100, run, j);
      BoundOfWholeShare(t, weights[j], all);
    }
    ScaledSum(bounds, weights, t, all);
    SameFactor(Total(bounds), t, all);
    LoadsTotal(weights, 100, run);
    SqueezedSums(loads, bounds);
    assert loads[i] == bounds[i];
  }

  lemma SameFactor(a: int, b: int, c: nat)
    requires c > 0 && a * c == b * c
    ensures a == b
  {
    assert (a - b) * c == 0;
  }

  // ----- how little a candidate can be left with

  /** What `i` must have received if everyone else was full after `s` requests. */
  ghost function Forced(weights: seq<nat>, factor: nat, s: nat, i: nat): int
    requires Fleet(weights) && i < |weights|
  {
    s - (Total(Bounds(weights, factor, s)) - Bound(weights, factor, s, i))
  }

  ghost function Bounds(weights: seq<nat>, factor: nat, s: nat): (r: seq<nat>)
    requires Fleet(weights)
    ensures |r| == |weights| && forall i :: 0 <= i < |weights| ==> r[i] == Bound(weights, factor, s, i)
  {
    seq(|weights|, i requires 0 <= i < |weights| => Bound(weights, factor, s, i))
  }

  lemma {:induction false} LoadMonotone(run: seq<nat>, s: nat, i: nat)
    requires s <= |run|
    ensures Load(run[..s], i) <= Load(run, i)
    decreases |run|
  {
    if s < |run| {
      assert run[..|run| - 1][..s] == run[..s];
      LoadMonotone(run[..|run| - 1], s, i);
    } else {
      assert run[..s] == run;
    }
  }

  lemma {:induction false} PrefixIsRun(weights: seq<nat>, factor: nat, run: seq<nat>, s: nat)
    requires Fleet(weights) && IsRun(weights, factor, run) && s <= |run|
    ensures IsRun(weights, factor, run[..s])
    decreases |run|
  {
    if s < |run| {
      assert run[..|run| - 1][..s] == run[..s];
      PrefixIsRun(weights, factor, run[..|run| - 1], s);
    } else {
      assert run[..s] == run;
    }
  }

  /** The others' bounds force a minimum on everyone, at every earlier moment. */
  lemma LoadAtLeastForced(weights: seq<nat>, factor: nat, run: seq<nat>, s: nat, i: nat)
    requires Fleet(weights) && IsRun(weights, factor, run) && s <= |run| && i < |weights|
    ensures Load(run, i) >= Forced(weights, factor, s, i)
  {
    var early := run[..s];
    PrefixIsRun(weights, factor, run, s);
    LoadsTotal(weights, factor, early);
    var loads := LoadsAfter(early, |weights|);
    var capped := Bounds(weights, factor, s)[i := Load(early, i)];
    forall j | 0 <= j < |weights|
      ensures loads[j] <= capped[j]
    {
      LoadNeverExceedsBound(weights, factor, early, j);
    }
    SqueezedSums(loads, capped);
    SumUpdate(Bounds(weights, factor, s), i, Load(early, i));
    LoadMonotone(run, s, i);
  }

  lemma ExtendRun(weights: seq<nat>, factor: nat, run: seq<nat>, next: nat)
    requires Fleet(weights) && IsRun(weights, factor, run)
    requires next < |weights| && Load(run, next) < Bound(weights, factor, |run| + 1, next)
    ensures IsRun(weights, factor, run + [next])
    ensures forall k: nat :: Load(run + [next], k) == Load(run, k) + if k == next then 1 else 0
  {
    assert (run + [next])[..|run|] == run;
  }

  /** The run that serves everyone else whenever it can starves `i` down to a forced amount. */
  lemma {:induction false} StarvingRun(weights: seq<nat>, factor: nat, t: nat, i: nat) returns (run: seq<nat>, s: nat)
    requires Fleet(weights) && factor >= 100 && i < |weights|
    ensures IsRun(weights, factor, run) && |run| == t && s <= t
    ensures Load(run, i) == Forced(weights, factor, s, i)
  {
    hide IsRun, Load, Forced, Bound, Fleet;
    if t == 0 {
      run, s := [], 0;
      NothingForcedAtStart(weights, factor, i);
    } else {
      run, s := StarvingRun(weights, factor, t - 1, i);
      if j: nat :| j < |weights| && j != i && Load(run, j) < Bound(weights, factor, t, j) {
        ExtendRun(weights, factor, run, j);
        run := run + [j];
      } else {
        RunCanContinue(weights, factor, run);
        ExtendRun(weights, factor, run, i);
        run, s := run + [i], t;
        OthersAreFull(weights, factor, run, i);
      }
    }
  }

  lemma NothingForcedAtStart(weights: seq<nat>, factor: nat, i: nat)
    requires Fleet(weights) && i < |weights|
    ensures IsRun(weights, factor, []) && Load([], i) == Forced(weights, factor, 0, i) == 0
  {
    FleetWeighs(weights);
    forall j | 0 <= j < |weights|
      ensures Bound(weights, factor, 0, j) == 0
    {
      CeilDivLeast(0, Total(weights) * 100, 0);
    }
    ZeroSum(Bounds(weights, factor, 0));
  }

  lemma OthersAreFull(weights: seq<nat>, factor: nat, run: seq<nat>, i: nat)
    requires Fleet(weights) && IsRun(weights, factor, run) && i < |weights|
    requires forall j :: 0 <= j < |weights| && j != i ==> Load(run, j) >= Bound(weights, factor, |run|, j)
    ensures Load(run, i) == Forced(weights, factor, |run|, i)
  {
    var loads, bounds := LoadsAfter(run, |weights|), Bounds(weights, factor, |run|);
    forall j | 0 <= j < |weights|
      ensures loads[j] == bounds[i := Load(run, i)][j]
    {
      LoadNeverExceedsBound(weights, factor, run, j);
    }
    assert loads == bounds[i := Load(run, i)];
    SumUpdate(bounds, i, Load(run, i));
    LoadsTotal(weights, factor, run);
  }
}
