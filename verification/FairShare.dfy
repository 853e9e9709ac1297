/** Whole-run laws of smooth weighted round robin: conservation, quotas, exact cycles. */
module FairShare {
  import opened Arith
  import opened Core
  import opened Listings
  import opened Sums
  import opened SmoothWeightedRoundRobin

  type Slice<Key> = seq<Candidate<Key>>

  /** A slice, in any order and with any ineligible extras, whose eligible members carry weights `w`. */
  ghost predicate Presents<Key>(cs: Slice<Key>, w: map<Key, int>) {
    UniqueEligible(cs) && AnyEligible(cs) && Weights(cs) == w
  }

  ghost predicate IsRun<Key>(run: seq<Slice<Key>>, w: map<Key, int>) {
    forall t :: 0 <= t < |run| ==> Presents(run[t], w)
  }

  /** The epoch counter after `t` picks from fresh state: it skips zero when it wraps. */
  function EpochAfter(t: nat): u64 {
    if t == 0 then 0 else (t - 1) % LAST_EPOCH + 1
  }

  /** Credits after a whole run from fresh state. */
  ghost function After<Key>(run: seq<Slice<Key>>, w: map<Key, int>): map<Key, int>
    requires IsRun(run, w)
    decreases |run|, 1
  {
    if run == [] then map[] else Step(Before(run, w), run[|run| - 1]).0
  }

  /** Credits the last pick of a run starts from: none of them survives a wrap of the epoch counter. */
  ghost function Before<Key>(run: seq<Slice<Key>>, w: map<Key, int>): map<Key, int>
    requires IsRun(run, w) && run != []
    decreases |run|, 0
  {
    Carried(EpochAfter(|run| - 1), After(run[..|run| - 1], w))
  }

  /** The identity chosen by the last pick of a run. */
  ghost function LastPicked<Key>(run: seq<Slice<Key>>, w: map<Key, int>): Key
    requires IsRun(run, w) && run != []
  {
    var cs := run[|run| - 1];
    cs[Step(Before(run, w), cs).1].id
  }

  ghost function Count<Key>(run: seq<Slice<Key>>, w: map<Key, int>, k: Key): nat
    requires IsRun(run, w)
  {
    if run == [] then 0 else
      Count(run[..|run| - 1], w, k) + if LastPicked(run, w) == k then 1 else 0
  }

  // ----- the policy itself along a run

  lemma EpochTicks(t: nat)
    ensures EpochAfter(0) == 0 && NextEpoch(EpochAfter(t)) == EpochAfter(t + 1)
    ensures t < LAST_EPOCH ==> EpochAfter(t) == t
  {
    if 0 < t {
      var q, r := (t - 1) / LAST_EPOCH, (t - 1) % LAST_EPOCH;
      assert t - 1 == LAST_EPOCH * q + r;
      if r + 1 == LAST_EPOCH {
        DivModUnique(t, LAST_EPOCH, q + 1, 0);
      } else {
        DivModUnique(t, LAST_EPOCH, q, r + 1);
      }
      if t < LAST_EPOCH {
        DivModUnique(t - 1, LAST_EPOCH, 0, t - 1);
      }
    }
  }

  /** Until the counter wraps, every pick starts from the credits the one before it left. */
  lemma NoWrapYet<Key>(run: seq<Slice<Key>>, w: map<Key, int>)
    requires IsRun(run, w) && 0 < |run| < U64_LIMIT
    ensures Before(run, w) == After(run[..|run| - 1], w)
  {
    EpochTicks(|run| - 1);
  }

  lemma WrapsWhen(t: nat)
    ensures EpochAfter(t) == LAST_EPOCH <==> t > 0 && t % LAST_EPOCH == 0
  {
    if t > 0 {
      var q, r := (t - 1) / LAST_EPOCH, (t - 1) % LAST_EPOCH;
      assert t - 1 == LAST_EPOCH * q + r;
      if r + 1 == LAST_EPOCH {
        DivModUnique(t, LAST_EPOCH, q + 1, 0);
      } else {
        DivModUnique(t, LAST_EPOCH, q, r + 1);
      }
    }
  }

  lemma InsideEra(t: nat, start: nat)
    requires start % LAST_EPOCH == 0 && start < t < start + LAST_EPOCH
    ensures EpochAfter(t) != LAST_EPOCH
  {
    WrapsWhen(t);
    DivModUnique(t, LAST_EPOCH, start / LAST_EPOCH, t - start);
  }

  /**
   * Each wrap of the epoch counter starts the policy afresh: credits and picks are those of a run that begins at
   * the latest wrap. So the laws below, stated up to the first wrap, hold between any two.
   */
  lemma {:induction false} WrapStartsAfresh<Key>(run: seq<Slice<Key>>, w: map<Key, int>, start: nat)
    requires IsRun(run, w) && start % LAST_EPOCH == 0 && start < |run| <= start + LAST_EPOCH
    ensures IsRun(run[start..], w) && After(run, w) == After(run[start..], w)
    ensures LastPicked(run, w) == LastPicked(run[start..], w)
    decreases |run|
  {
    hide Step, Presents, EpochAfter;
    var era := run[start..];
    assert Before(run, w) == Before(era, w) by {
      NoWrapYet(era, w);
      if |run| == start + 1 {
        WrapsWhen(start);
        EpochTicks(0);
        assert start == 0 ==> run[..0] == [];
        assert era[..0] == [];
      } else {
        var front := run[..|run| - 1];
        InsideEra(|run| - 1, start);
        WrapStartsAfresh(front, w, start);
        assert front[start..] == era[..|era| - 1];
      }
    }
  }

  lemma RunStarts<Key>(run: seq<Slice<Key>>, w: map<Key, int>)
    requires IsRun(run, w)
    ensures IsRun(run[..0], w) && After(run[..0], w) == map[]
  {
  }

  lemma RunGrows<Key>(run: seq<Slice<Key>>, w: map<Key, int>, t: nat)
    requires IsRun(run, w) && t < |run|
    ensures Presents(run[t], w) && IsRun(run[..t], w) && IsRun(run[..t + 1], w)
    ensures Before(run[..t + 1], w) == Carried(EpochAfter(t), After(run[..t], w))
    ensures After(run[..t + 1], w) == Step(Before(run[..t + 1], w), run[t]).0
    ensures LastPicked(run[..t + 1], w) == run[t][Step(Before(run[..t + 1], w), run[t]).1].id
  {
    hide Step, Weights, EpochAfter;
    assert run[..t + 1][..t] == run[..t];
  }

  lemma CountGrows<Key>(run: seq<Slice<Key>>, w: map<Key, int>, k: Key)
    requires IsRun(run, w) && run != []
    ensures IsRun(run[..|run| - 1], w)
    ensures Count(run, w, k) == Count(run[..|run| - 1], w, k) + if LastPicked(run, w) == k then 1 else 0
  {
    hide LastPicked;
  }

  lemma LastPickedIsWeighted<Key>(run: seq<Slice<Key>>, w: map<Key, int>)
    requires IsRun(run, w) && run != []
    ensures LastPicked(run, w) in w
  {
    hide Step, Weights;
    StepPaysTotal(Before(run, w), run[|run| - 1], w);
  }

  lemma IsPickable<Key>(cs: Slice<Key>, w: map<Key, int>)
    requires Presents(cs, w)
    ensures UniqueEligible(cs) && AnyEligible(cs)
  {
  }

  /**
   * Picking slice after slice from fresh state leaves the credits, and serves the identities, that the laws speak
   * of.
   */
  method PickAll<Key(==)>(policy: SmoothWeightedRoundRobin<Key>, run: seq<Slice<Key>>, ghost w: map<Key, int>)
    returns (picks: seq<nat>)
    requires policy.Valid() && policy.states == map[] && policy.epoch == 0 && IsRun(run, w)
    modifies policy
    ensures policy.Valid() && policy.Credits() == After(run, w) && policy.epoch == EpochAfter(|run|)
    ensures |picks| == |run|
    ensures forall t :: 0 <= t < |run| ==> picks[t] < |run[t]| && run[t][picks[t]].id == LastPicked(run[..t + 1], w)
  {
    hide Step, EpochAfter, Presents, Weights;
    picks := [];
    RunStarts(run, w);
    assert policy.Credits() == map[];
    EpochTicks(0);
    for t := 0 to |run|
      invariant policy.Valid() && |picks| == t && IsRun(run[..t], w)
      invariant policy.Credits() == After(run[..t], w) && policy.epoch == EpochAfter(t)
      invariant forall u :: 0 <= u < t ==> picks[u] < |run[u]| && run[u][picks[u]].id == LastPicked(run[..u + 1], w)
    {
      RunGrows(run, w, t);
      EpochTicks(t);
      IsPickable(run[t], w);
      var r := policy.Pick(run[t]);
      picks := picks + [r.value];
    }
    assert run[..|run|] == run;
  }

  // ----- one step

  /** Credit brought into a call by its own identities: everything except what will be pruned. */
  lemma CarriedSum<Key>(credits: map<Key, int>, w: map<Key, int>)
    ensures Sum(map k | k in w :: CreditOf(credits, k)) == Sum(credits) - Sum(credits - w.Keys)
  {
    var carried := map k | k in w :: CreditOf(credits, k);
    var known := map k | k in credits && k in w.Keys :: credits[k];
    SumSplit(credits, w.Keys);
    SumSplit(carried, credits.Keys);
    assert (map k | k in carried && k in credits.Keys :: carried[k]) == known;
    SumConstantZero(carried - credits.Keys);
  }

  lemma SumBumped<Key>(credits: map<Key, int>, w: map<Key, int>)
    ensures Sum(Bumped(credits, w)) == Sum(credits) - Sum(credits - w.Keys) + Sum(w)
  {
    SumAdd(map k | k in w :: CreditOf(credits, k), w, Bumped(credits, w));
    CarriedSum(credits, w);
  }

  /** Weights are positive, so a winning score is never below the average of the scores. */
  lemma WinnerScoreIsPositive<Key>(scores: map<Key, int>, cs: Slice<Key>)
    requires UniqueEligible(cs) && AnyEligible(cs) && scores.Keys == Weights(cs).Keys && Sum(scores) > 0
    ensures Scored(scores, cs) && scores[cs[Winner(scores, cs)].id] >= 1
  {
    WeightsKeys(cs);
    var i := Winner(scores, cs);
    if scores[cs[i].id] <= 0 {
      SumNonPositive(scores);
    }
  }

  lemma StepPaysTotal<Key>(credits: map<Key, int>, cs: Slice<Key>, w: map<Key, int>)
    requires Presents(cs, w)
    ensures var (next, i) := Step(credits, cs);
      && next.Keys == w.Keys && cs[i].id in w && w.Keys != {}
      && forall k :: k in w ==> next[k] == CreditOf(credits, k) + w[k] - if k == cs[i].id then Sum(w) else 0
  {
    WeightsKeys(cs);
  }

  /** Pruning aside, a pick moves credit between members without creating any. */
  lemma StepConservesCredit<Key>(credits: map<Key, int>, cs: Slice<Key>)
    requires UniqueEligible(cs) && AnyEligible(cs)
    ensures var pruned := credits - Weights(cs).Keys;
      Sum(Step(credits, cs).0) == Sum(credits) - Sum(pruned)
  {
    hide Weights, UniqueEligible, AnyEligible;
    var w := Weights(cs);
    WeightsKeys(cs);
    var bumped := Bumped(credits, w);
    var i := Step(credits, cs).1;
    SumBumped(credits, w);
    SumInsert(bumped, cs[i].id, bumped[cs[i].id] - Sum(w));
  }

  // ----- a whole run

  ghost predicate Balanced<Key>(run: seq<Slice<Key>>, w: map<Key, int>)
    requires IsRun(run, w)
  {
    var credits := After(run, w);
    && (if run == [] then credits == map[] else credits.Keys == w.Keys)
    && Sum(credits) == 0
    && (forall k :: k in w ==> CreditOf(credits, k) > -Sum(w))
  }

  lemma PositiveSum<Key>(cs: Slice<Key>, w: map<Key, int>)
    requires Presents(cs, w)
    ensures Sum(w) > 0
  {
    WeightsKeys(cs);
    SumAtLeast(w, 1);
    assert |w| > 0;
  }

  lemma StepKeepsBound<Key>(credits: map<Key, int>, cs: Slice<Key>, w: map<Key, int>)
    requires Presents(cs, w) && Sum(credits) == 0 && credits.Keys <= w.Keys
    requires forall k :: k in w ==> CreditOf(credits, k) > -Sum(w)
    ensures Sum(Step(credits, cs).0) == 0
    ensures forall k :: k in w ==> Step(credits, cs).0[k] > -Sum(w)
  {
    StepPaysTotal(credits, cs, w);
    StepConservesCredit(credits, cs);
    assert credits - w.Keys == map[];
    PositiveSum(cs, w);
    var bumped := Bumped(credits, w);
    SumBumped(credits, w);
    WinnerScoreIsPositive(bumped, cs);
    WeightsKeys(cs);
  }

  lemma OneMorePick(t: nat, count: nat, weight: int, total: int, picked: bool)
    ensures t * weight - count * total + weight - (if picked then total else 0)
         == (t + 1) * weight - (count + if picked then 1 else 0) * total
  {
  }

  lemma NothingIsBalanced<Key>(w: map<Key, int>)
    requires Sum(w) > 0
    ensures Sum<Key>(map[]) == 0 && forall k :: k in w ==> CreditOf(map[], k) > -Sum(w)
  {
  }

  /** Conservation and the strict floor, after every prefix, however long the run. */
  lemma {:induction false} RunIsBalanced<Key>(run: seq<Slice<Key>>, w: map<Key, int>)
    requires IsRun(run, w) && Sum(w) > 0
    ensures Balanced(run, w)
    decreases |run|
  {
    if run != [] {
      var t := |run| - 1;
      RunIsBalanced(run[..t], w);
      NothingIsBalanced(w);
      hide Step, Weights, Presents, Sum, EpochAfter;
      StepPaysTotal(Before(run, w), run[t], w);
      StepKeepsBound(Before(run, w), run[t], w);
    }
  }

  /** The closed form of one credit, until the epoch counter wraps. */
  lemma {:induction false} CreditFormula<Key>(run: seq<Slice<Key>>, w: map<Key, int>, k: Key)
    requires IsRun(run, w) && Sum(w) > 0 && k in w && |run| < U64_LIMIT
    ensures CreditOf(After(run, w), k) == |run| * w[k] - Count(run, w, k) * Sum(w)
    decreases |run|
  {
    hide Step, Weights, Presents, Sum, EpochAfter, Before;
    if run != [] {
      var t := |run| - 1;
      CreditFormula(run[..t], w, k);
      NoWrapYet(run, w);
      StepPaysTotal(After(run[..t], w), run[t], w);
      OneMorePick(t, Count(run[..t], w, k), w[k], Sum(w), LastPicked(run, w) == k);
    }
  }

  // ----- when members disappear

  ghost function PicksAmong<Key>(run: seq<Slice<Key>>, w: map<Key, int>, gone: set<Key>): nat
    requires IsRun(run, w)
  {
    if run == [] then 0 else
      PicksAmong(run[..|run| - 1], w, gone) + if LastPicked(run, w) in gone then 1 else 0
  }

  ghost function CountsOf<Key>(run: seq<Slice<Key>>, w: map<Key, int>, gone: set<Key>): map<Key, int>
    requires IsRun(run, w)
  {
    map k | k in gone :: Count(run, w, k)
  }

  ghost function WeightsOf<Key>(w: map<Key, int>, gone: set<Key>): map<Key, int>
    requires gone <= w.Keys
  {
    map k | k in gone :: w[k]
  }

  ghost function CreditsOf<Key>(credits: map<Key, int>, gone: set<Key>): map<Key, int> {
    map k | k in gone :: CreditOf(credits, k)
  }

  lemma {:induction false} PicksAmongIsSum<Key>(run: seq<Slice<Key>>, w: map<Key, int>, gone: set<Key>)
    requires IsRun(run, w)
    ensures Sum(CountsOf(run, w, gone)) == PicksAmong(run, w, gone)
  {
    hide Sum, LastPicked;
    var counts := CountsOf(run, w, gone);
    if run == [] {
      SumConstantZero(counts);
    } else {
      var before := CountsOf(run[..|run| - 1], w, gone);
      var last := LastPicked(run, w);
      PicksAmongIsSum(run[..|run| - 1], w, gone);
      if last in gone {
        assert counts == before[last := before[last] + 1];
        SumInsert(before, last, before[last] + 1);
      } else {
        assert counts == before;
      }
    }
  }

  lemma {:induction false} SumOfDifference<Key>(keys: set<Key>, f: map<Key, int>, g: map<Key, int>, a: int, b: int,
                                                d: map<Key, int>)
    requires f.Keys == g.Keys == d.Keys == keys && forall k :: k in keys ==> d[k] == a * f[k] - b * g[k]
    ensures Sum(d) == a * Sum(f) - b * Sum(g)
    decreases keys
  {
    if keys == {} {
      assert f == map[] && g == map[] && d == map[];
    } else {
      var k :| k in keys;
      SumRemove(f, k);
      SumRemove(g, k);
      SumRemove(d, k);
      SumOfDifference(keys - {k}, f - {k}, g - {k}, a, b, d - {k});
      Linear(a, f[k], Sum(f - {k}));
      Linear(b, g[k], Sum(g - {k}));
    }
  }

  lemma Linear(a: int, x: int, y: int)
    ensures a * (x + y) == a * x + a * y
  {
  }

  /** What the disappearing members are owed in total: their share of the picks so far, less the picks they had. */
  lemma CreditOfGone<Key>(run: seq<Slice<Key>>, w: map<Key, int>, gone: set<Key>)
    requires IsRun(run, w) && Sum(w) > 0 && |run| < U64_LIMIT && gone <= w.Keys
    ensures Sum(CreditsOf(After(run, w), gone)) ==
      |run| * Sum(WeightsOf(w, gone)) - Sum(w) * PicksAmong(run, w, gone)
  {
    hide Sum, After, Count, PicksAmong;
    var owed, weights, counts := CreditsOf(After(run, w), gone), WeightsOf(w, gone), CountsOf(run, w, gone);
    forall k | k in gone
      ensures owed[k] == |run| * weights[k] - Sum(w) * counts[k]
    {
      CreditFormula(run, w, k);
    }
    SumOfDifference(gone, weights, counts, |run|, Sum(w), owed);
    PicksAmongIsSum(run, w, gone);
  }

  lemma GoneArePruned<Key>(run: seq<Slice<Key>>, w: map<Key, int>, present: set<Key>)
    requires IsRun(run, w) && Balanced(run, w)
    ensures Sum(CreditsOf(After(run, w), w.Keys - present)) == Sum(After(run, w) - present)
  {
    hide Sum, After;
    var credits, owed := After(run, w), CreditsOf(After(run, w), w.Keys - present);
    if run == [] {
      assert credits - present == map[];
      SumConstantZero(owed);
      SumConstantZero(credits - present);
    } else {
      assert owed == credits - present;
    }
  }

  /**
   * After a run over members of weights `w`, a slice without the members of `gone` keeps the credit total at zero
   * if and only if those members had been picked exactly in their share so far.
   */
  lemma PruningKeepsZeroIff<Key>(run: seq<Slice<Key>>, w: map<Key, int>, cs: Slice<Key>)
    requires IsRun(run, w) && Sum(w) > 0 && |run| < U64_LIMIT - 1 && UniqueEligible(cs) && AnyEligible(cs)
    ensures var gone := w.Keys - Weights(cs).Keys;
      Sum(Step(After(run, w), cs).0) == 0 <==>
      |run| * Sum(WeightsOf(w, gone)) == Sum(w) * PicksAmong(run, w, gone)
  {
    hide Sum, After, Step, Weights, PicksAmong, CreditsOf, IsRun;
    var gone := w.Keys - Weights(cs).Keys;
    RunIsBalanced(run, w);
    StepConservesCredit(After(run, w), cs);
    CreditOfGone(run, w, gone);
    GoneArePruned(run, w, Weights(cs).Keys);
  }

  /** What a run leaves an identity: its share of the picks less what it received, or nothing for a newcomer. */
  ghost function Owed<Key>(run: seq<Slice<Key>>, w: map<Key, int>, k: Key): int
    requires IsRun(run, w)
  {
    if k in w then |run| * w[k] - Count(run, w, k) * Sum(w) else 0
  }

  lemma OwedIsCredit<Key>(run: seq<Slice<Key>>, w: map<Key, int>, k: Key)
    requires IsRun(run, w) && Sum(w) > 0 && |run| < U64_LIMIT
    ensures CreditOf(After(run, w), k) == Owed(run, w, k)
  {
    hide After, Count, Sum, IsRun;
    RunIsBalanced(run, w);
    if k in w {
      CreditFormula(run, w, k);
    }
  }

  /** A pick takes from the identity of greatest score, whichever it is. */
  lemma StepServesGreatest<Key>(credits: map<Key, int>, cs: Slice<Key>, w: map<Key, int>)
    requires Presents(cs, w)
    ensures var (next, i) := Step(credits, cs);
      && cs[i].id in w
      && (forall k :: k in w ==> CreditOf(credits, k) + w[k] <= CreditOf(credits, cs[i].id) + w[cs[i].id])
      && (forall k :: k in w ==>
            CreditOf(next, k) == CreditOf(credits, k) + w[k] - if k == cs[i].id then Sum(w) else 0)
  {
    WeightsKeys(cs);
    var bumped := Bumped(credits, w);
    var i := Step(credits, cs).1;
    assert IsWinner(bumped, cs, i);
    forall k | k in w
      ensures bumped[k] <= bumped[cs[i].id]
    {
      var j :| 0 <= j < |cs| && cs[j].eligible && cs[j].id == k;
    }
  }

  /**
   * After a run over members of weights `w`, a pick over any slice leaves everybody above minus the slice's
   * total if and only if what they are owed, weight included, is above that already and positive for somebody.
   */
  lemma DepartureKeepsFloorIff<Key>(run: seq<Slice<Key>>, w: map<Key, int>, cs: Slice<Key>)
    requires IsRun(run, w) && Sum(w) > 0 && |run| < U64_LIMIT - 1 && UniqueEligible(cs) && AnyEligible(cs)
    ensures var v := Weights(cs);
      (forall k :: k in v ==> CreditOf(Step(After(run, w), cs).0, k) > -Sum(v)) <==>
      && (forall k :: k in v ==> Owed(run, w, k) + v[k] > -Sum(v))
      && (exists k :: k in v && Owed(run, w, k) + v[k] > 0)
  {
    hide Sum, After, Step, Weights, IsRun, UniqueEligible, AnyEligible, CreditOf, Owed;
    var v := Weights(cs);
    assert Presents(cs, v);
    hide Presents;
    PositiveSum(cs, v);
    StepServesGreatest(After(run, w), cs, v);
    forall k | k in v
      ensures CreditOf(After(run, w), k) == Owed(run, w, k)
    {
      OwedIsCredit(run, w, k);
    }
  }

  /** Upper quota at every prefix: no member runs a full pick ahead of its share. */
  lemma QuotaUpperBound<Key>(run: seq<Slice<Key>>, w: map<Key, int>, k: Key)
    requires IsRun(run, w) && Sum(w) > 0 && k in w && |run| < U64_LIMIT
    ensures Count(run, w, k) * Sum(w) < |run| * w[k] + Sum(w)
  {
    RunIsBalanced(run, w);
    CreditFormula(run, w, k);
  }

  /** Values above a floor that sum to zero: none exceeds what the others' floors allow. */
  lemma CeilingFromFloor<Key>(credits: map<Key, int>, k: Key, floor: int)
    requires floor >= 0 && k in credits && Sum(credits) == 0 && forall j :: j in credits ==> credits[j] >= -floor
    ensures credits[k] <= (|credits| - 1) * floor
  {
    hide Sum;
    var rest := credits - {k};
    SumRemove(credits, k);
    SumAtLeast(rest, -floor);
    assert credits.Keys == rest.Keys + {k};
    FlipSign(|rest|, floor);
  }

  lemma FlipSign(n: nat, x: int)
    ensures n * -x == -(n * x)
  {
  }

  /** No member can be owed more than the others' floors together allow. */
  lemma CreditCeiling<Key>(run: seq<Slice<Key>>, w: map<Key, int>, k: Key)
    requires IsRun(run, w) && Sum(w) > 0 && k in w
    ensures CreditOf(After(run, w), k) <= (|w| - 1) * (Sum(w) - 1)
  {
    RunIsBalanced(run, w);
    if run != [] {
      hide After, IsRun, Presents, Sum, Step;
      var credits := After(run, w);
      CeilingFromFloor(credits, k, Sum(w) - 1);
      assert |credits| == |credits.Keys| && |w| == |w.Keys|;
    } else {
      NothingOwedYet(w, k);
    }
  }

  lemma NothingOwedYet<Key>(w: map<Key, int>, k: Key)
    requires k in w && Sum(w) > 0
    ensures 0 <= (|w| - 1) * (Sum(w) - 1)
  {
    hide Sum;
    assert w.Keys == (w - {k}).Keys + {k};
    NonNegativeProduct(|w| - 1, Sum(w) - 1);
  }

  lemma NonNegativeProduct(a: int, b: int)
    requires a >= 0 && b >= 0
    ensures a * b >= 0
  {
  }

  /** Lower quota at every prefix. */
  lemma QuotaLowerBound<Key>(run: seq<Slice<Key>>, w: map<Key, int>, k: Key)
    requires IsRun(run, w) && Sum(w) > 0 && k in w && |run| < U64_LIMIT
    ensures Count(run, w, k) * Sum(w) >= |run| * w[k] - (|w| - 1) * (Sum(w) - 1)
  {
    CreditFormula(run, w, k);
    CreditCeiling(run, w, k);
  }

  /** With fewer than 2^32 members every credit, and every score on the way, fits a signed 128-bit word. */
  lemma AccumulatorFits<Key>(run: seq<Slice<Key>>, w: map<Key, int>, k: Key)
    requires IsRun(run, w) && Sum(w) > 0 && k in w
    requires |w| < U32_LIMIT && forall j :: j in w ==> w[j] < U32_LIMIT
    ensures var half := U64_LIMIT * (U64_LIMIT / 2);
      -half < CreditOf(After(run, w), k) && CreditOf(After(run, w), k) + w[k] < half && Sum(w) < half
  {
    RunIsBalanced(run, w);
    CreditCeiling(run, w, k);
    hide Sum, After;
    TotalWeightFits(w);
    MulMonotone(|w| - 1, Sum(w) - 1, U32_LIMIT, U64_LIMIT);
  }

  lemma TotalWeightFits<Key>(w: map<Key, int>)
    requires w != map[] && Sum(w) > 0 && |w| < U32_LIMIT && forall j :: j in w ==> w[j] < U32_LIMIT
    ensures Sum(w) < U64_LIMIT && |w| >= 1
  {
    SumAtMost(w, U32_LIMIT - 1);
    hide Sum;
    MulMonotone(|w|, U32_LIMIT - 1, U32_LIMIT, U32_LIMIT);
  }

  lemma WholeCycleCredit(total: int, cycles: nat, weight: int, count: nat)
    requires total > 0 && cycles * total * weight - count * total > -total
    ensures cycles * total * weight - count * total >= 0
    ensures cycles * total * weight - count * total == 0 ==> count == cycles * weight
  {
    var x := cycles * weight - count;
    assert cycles * total * weight - count * total == total * x;
    assert x <= -1 ==> total * x <= -total;
    assert x >= 1 ==> total * x >= total;
  }

  /** After any whole number of cycles every member has exactly its weight per cycle and owes nothing. */
  lemma CyclesAreExact<Key>(run: seq<Slice<Key>>, w: map<Key, int>, cycles: nat)
    requires IsRun(run, w) && Sum(w) > 0 && |run| == cycles * Sum(w) < U64_LIMIT
    ensures forall k :: k in w ==> Count(run, w, k) == cycles * w[k] && CreditOf(After(run, w), k) == 0
  {
    RunIsBalanced(run, w);
    var credits := After(run, w);
    forall k | k in w
      ensures CreditOf(credits, k) >= 0 && (CreditOf(credits, k) == 0 ==> Count(run, w, k) == cycles * w[k])
    {
      CreditFormula(run, w, k);
      WholeCycleCredit(Sum(w), cycles, w[k], Count(run, w, k));
    }
    SumZero(credits);
  }
}
