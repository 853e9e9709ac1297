/** What priority routing promises over every membership and every draw. */
module PriorityLaws {
  import opened Arith
  import opened Core
  import opened Priority
  import opened PriorityGroups
  import opened SeqSums
  import opened Tickets
  import Sums

  /** The routed groups, and so every decision, depend only on the members: ties in the sort leave no trace. */
  lemma RoutingIsDetermined(
      ms: seq<MemberSample>, a: seq<PriorityGroup>, b: seq<PriorityGroup>, config: PriorityConfig)
    requires IsGrouping(ms, a, config.overprovisioningFactorPercent) && IsRouted(a, config)
    requires IsGrouping(ms, b, config.overprovisioningFactorPercent) && IsRouted(b, config)
    ensures a == b
  {
    GroupingIsUnique(ms, a, b, config.overprovisioningFactorPercent);
    hide IsGrouping, Share, Total, Panics;
    SameEffective(a, b);
    forall k | 0 <= k < |a|
      ensures a[k] == b[k]
    {
      SameFields(a[k], b[k]);
      PanicsAlike(a[k], b[k], Shortage(a), config);
    }
  }

  lemma PanicsAlike(a: PriorityGroup, b: PriorityGroup, shortage: bool, config: PriorityConfig)
    requires a.rawAvailability == b.rawAvailability
    ensures Panics(a, shortage, config) == Panics(b, shortage, config)
  {
  }

  /** Despite the rounding, the panic test is exact: the eligible weight is below the threshold share of the whole. */
  lemma PanicTestIsExact(
      g: PriorityGroup, shortage: bool, config: PriorityConfig, factorPercent: u32)
    requires Available(g, factorPercent)
    ensures Panics(g, shortage, config) <==>
      shortage && g.eligibleWeight * 100 < config.panicThresholdPercent * g.totalWeight
  {
    var threshold := config.panicThresholdPercent * 10_000;
    RatioIsFloor(g.eligibleWeight, g.totalWeight, 100, threshold);
    hide RatioUnits;
    var e, t, p: int := g.eligibleWeight, g.totalWeight, config.panicThresholdPercent;
    assert threshold * t * 100 == (p * t) * 1_000_000;
    assert e * 100 * TRAFFIC_UNITS == (e * 100) * 1_000_000;
    assert p == 0 ==> p * t == 0;
  }

  /** A uniform ticket reaches each priority in exactly its share, and the shares fill the whole or fall short of it. */
  lemma PriorityOwnsItsShare(gs: seq<PriorityGroup>, config: PriorityConfig, k: nat)
    requires IsRouted(gs, config) && k < |gs|
    ensures |Owned(Traffic(gs), k)| == gs[k].traffic == Share(Effective(gs), k)
    ensures Total(Traffic(gs)) == if Shortage(gs) then Total(Effective(gs)) else TRAFFIC_UNITS
  {
    hide Total, Owned, Share;
    TicketsOwned(Traffic(gs), k);
    RoutedTraffic(gs, config);
  }

  /** Once a scope is granted, a uniform ticket reaches each of its members in exactly its weight. */
  lemma MemberOwnsItsWeight(ms: seq<MemberSample>, scope: PriorityScope, k: nat)
    requires k < |ms|
    ensures |Owned(ScopeWeights(ms, scope), k)| == if MemberInScope(ms[k], scope) then ms[k].weight else 0
    ensures Total(ScopeWeights(ms, scope)) == WeightAt(ms, scope.priority, ColumnOf(scope.mode))
  {
    hide Total, Owned;
    TicketsOwned(ScopeWeights(ms, scope), k);
    ScopeWeightsTotal(ms, scope);
  }

  /** While the first priority's overprovisioned availability is whole, no draw reaches any other. */
  lemma WholePrimaryTakesAll(
      ms: seq<MemberSample>, gs: seq<PriorityGroup>, config: PriorityConfig, draw: nat)
    requires IsGrouping(ms, gs, config.overprovisioningFactorPercent) && IsRouted(gs, config) && gs != []
    requires gs[0].eligibleWeight * config.overprovisioningFactorPercent >= gs[0].totalWeight * 100
    ensures ScopeOf(gs, config, draw) == Ok(PriorityScope(gs[0].priority, HealthyMode))
    ensures forall m :: m in ms ==> gs[0].priority <= m.priority
  {
    hide Total, Owner, IsMerged, Share;
    var effs := Effective(gs);
    RatioIsFullIff(gs[0].eligibleWeight, gs[0].totalWeight, config.overprovisioningFactorPercent);
    FirstShare(effs);
    RoutedTraffic(gs, config);
    var ticket := draw % Total(Traffic(gs));
    FirstOwnsAll(Traffic(gs), ticket);
    FirstIsLeast(ms, gs);
  }

  lemma FirstShare(effs: seq<nat>)
    requires effs != [] && effs[0] == TRAFFIC_UNITS
    ensures Share(effs, 0) == TRAFFIC_UNITS <= Total(effs)
  {
    hide Total;
    TotalOfNone(effs);
    TotalStep(effs, 0);
    TotalOfWhole(effs, 0);
  }

  lemma FirstOwnsAll(ws: seq<nat>, t: nat)
    requires ws != [] && t < ws[0]
    ensures t < Total(ws) && Owner(ws, t) == 0
  {
    hide Total, Owner;
    TotalOfNone(ws);
    TotalStep(ws, 0);
    TotalOfWhole(ws, 0);
    OneOwner(ws, 0, Owner(ws, t), t);
  }

  lemma FirstIsLeast(ms: seq<MemberSample>, gs: seq<PriorityGroup>)
    requires IsMerged(ms, gs) && gs != []
    ensures forall m :: m in ms ==> gs[0].priority <= m.priority
  {
    forall m | m in ms
      ensures gs[0].priority <= m.priority
    {
      assert m.priority in Priorities(gs);
    }
  }

  /** Weight so scarce at every priority that each availability rounds down to nothing. */
  ghost predicate RoundsAway(ms: seq<MemberSample>, factorPercent: u32) {
    forall p :: p in MemberPriorities(ms) ==>
      WeightAt(ms, p, Healthy) * factorPercent * 10_000 < WeightAt(ms, p, Configured)
  }

  lemma NoAvailabilityIff(ms: seq<MemberSample>, gs: seq<PriorityGroup>, factorPercent: u32)
    requires IsGrouping(ms, gs, factorPercent)
    ensures Total(Effective(gs)) == 0 <==> RoundsAway(ms, factorPercent)
  {
    hide WeightAt, Total;
    TotalZeroIff(Effective(gs));
    forall k | 0 <= k < |gs|
      ensures gs[k].effectiveAvailability == 0 <==>
        WeightAt(ms, gs[k].priority, Healthy) * factorPercent * 10_000 < WeightAt(ms, gs[k].priority, Configured)
      ensures gs[k].priority in MemberPriorities(ms)
    {
      AvailabilityIsZeroIff(ms, gs, factorPercent, k);
    }
    forall p | p in MemberPriorities(ms)
      ensures exists k :: 0 <= k < |gs| && gs[k].priority == p
    {
      assert p in Priorities(gs);
    }
  }

  lemma AvailabilityIsZeroIff(
      ms: seq<MemberSample>, gs: seq<PriorityGroup>, factorPercent: u32, k: nat)
    requires IsGrouping(ms, gs, factorPercent) && k < |gs|
    ensures gs[k].effectiveAvailability == 0 <==>
      WeightAt(ms, gs[k].priority, Healthy) * factorPercent * 10_000 < WeightAt(ms, gs[k].priority, Configured)
    ensures gs[k].priority in MemberPriorities(ms)
  {
    hide WeightAt, RatioUnits, Increasing;
    RatioIsZeroIff(gs[k].eligibleWeight, gs[k].totalWeight, factorPercent);
    assert Weigh(gs[k], Healthy) == WeightAt(ms, gs[k].priority, Healthy);
    assert Weigh(gs[k], Configured) == WeightAt(ms, gs[k].priority, Configured);
    SamePriorities(gs, gs);
  }

  lemma RawAtMostEffective(g: PriorityGroup, factorPercent: u32)
    requires Available(g, factorPercent) && factorPercent >= 100 && g.effectiveAvailability == 0
    ensures g.rawAvailability == 0
  {
    RatioIsZeroIff(g.eligibleWeight, g.totalWeight, 100);
    RatioIsZeroIff(g.eligibleWeight, g.totalWeight, factorPercent);
    hide RatioUnits;
    MulMonotone(g.eligibleWeight, 100, g.eligibleWeight, factorPercent);
  }

  lemma AvailableHasEligible(
      ms: seq<MemberSample>, gs: seq<PriorityGroup>, factorPercent: u32, k: nat)
    requires IsGrouping(ms, gs, factorPercent) && k < |gs| && gs[k].effectiveAvailability > 0
    ensures gs[k].eligibleWeight > 0
  {
    RatioIsZeroIff(gs[k].eligibleWeight, gs[k].totalWeight, factorPercent);
  }

  /** Nobody may serve a panic. */
  predicate NoPanicMembers(ms: seq<MemberSample>) {
    forall m :: m in ms ==> !m.panicEligible
  }

  lemma PanicWeightIff(ms: seq<MemberSample>, gs: seq<PriorityGroup>, factorPercent: u32)
    requires IsGrouping(ms, gs, factorPercent)
    ensures (forall k :: 0 <= k < |gs| ==> gs[k].panicWeight == 0) <==> NoPanicMembers(ms)
  {
    hide WeightAt, RatioUnits, Increasing;
    forall k | 0 <= k < |gs|
      ensures gs[k].panicWeight == WeightAt(ms, gs[k].priority, PanicEligible)
      ensures gs[k].panicWeight > 0 <==> exists m :: m in ms && m.priority == gs[k].priority && Has(m, PanicEligible)
    {
      assert Weigh(gs[k], PanicEligible) == WeightAt(ms, gs[k].priority, PanicEligible);
      WeightPositiveIff(ms, gs[k].priority, PanicEligible);
    }
    forall m | m in ms
      ensures exists k :: 0 <= k < |gs| && gs[k].priority == m.priority
    {
      assert m.priority in Priorities(gs);
    }
  }

  lemma PanicTotalIff(ms: seq<MemberSample>, gs: seq<PriorityGroup>, config: PriorityConfig)
    requires IsGrouping(ms, gs, config.overprovisioningFactorPercent) && IsRouted(gs, config)
    requires Total(Effective(gs)) == 0
    ensures Total(PanicWeights(gs)) == 0 <==> config.panicThresholdPercent == 0 || NoPanicMembers(ms)
  {
    hide Total, WeightAt, RatioUnits, Share, IsMerged, NoPanicMembers;
    TotalZeroIff(Effective(gs));
    TotalZeroIff(PanicWeights(gs));
    PanicWeightIff(ms, gs, config.overprovisioningFactorPercent);
    forall k | 0 <= k < |gs|
      ensures gs[k].panic <==> config.panicThresholdPercent > 0
    {
      RawAtMostEffective(gs[k], config.overprovisioningFactorPercent);
    }
  }

  /** The group whose share of the traffic holds the draw. */
  function ChosenGroup(gs: seq<PriorityGroup>, draw: nat): PriorityGroup
    requires Total(Traffic(gs)) > 0
  {
    gs[Owner(Traffic(gs), draw % Total(Traffic(gs)))]
  }

  /**
   * "No eligible candidates" does not mean nobody was eligible. Where all availability rounds away, routing
   * answers so on every draw exactly when panic is off or nobody may serve one. Otherwise a draw is answered
   * so exactly when it falls to a panicking priority none of whose members may serve a panic.
   */
  lemma RefusalIff(ms: seq<MemberSample>, gs: seq<PriorityGroup>, config: PriorityConfig, draw: nat)
    requires IsGrouping(ms, gs, config.overprovisioningFactorPercent) && IsRouted(gs, config) && ms != []
    ensures RoundsAway(ms, config.overprovisioningFactorPercent) <==> Total(Traffic(gs)) == 0
    ensures ScopeOf(gs, config, draw) == Err(NoEligibleCandidates) <==>
      if RoundsAway(ms, config.overprovisioningFactorPercent) then
        config.panicThresholdPercent == 0 || NoPanicMembers(ms)
      else
        && config.panicMode == UseAll && ChosenGroup(gs, draw).panic
        && WeightAt(ms, ChosenGroup(gs, draw).priority, PanicEligible) == 0
  {
    hide Total, Owner, IsGrouping, Share, RoundsAway, NoPanicMembers, WeightAt;
    NoAvailabilityIff(ms, gs, config.overprovisioningFactorPercent);
    RoutedTraffic(gs, config);
    if Total(Effective(gs)) == 0 {
      PanicTotalIff(ms, gs, config);
      if 0 < Total(PanicWeights(gs)) {
        OwnerHasWeight(PanicWeights(gs), draw % Total(PanicWeights(gs)));
      }
    } else {
      var k := Owner(Traffic(gs), draw % Total(Traffic(gs)));
      OwnerHasWeight(Traffic(gs), draw % Total(Traffic(gs)));
      AvailableHasEligible(ms, gs, config.overprovisioningFactorPercent, k);
      GroupWeighs(ms, gs, config.overprovisioningFactorPercent, k);
    }
  }

  // ----- every outcome of a draw

  /** Panic-eligible weight of the whole membership. */
  function PanicPart(): MemberSample -> nat {
    (m: MemberSample) => if m.panicEligible then m.weight else 0
  }

  function WeightsAt(ms: seq<MemberSample>, gs: seq<PriorityGroup>, c: Column): (r: seq<nat>)
    ensures |r| == |gs| && forall k :: 0 <= k < |r| ==> r[k] == WeightAt(ms, gs[k].priority, c)
  {
    seq(|gs|, k requires 0 <= k < |gs| => WeightAt(ms, gs[k].priority, c))
  }

  lemma OneMoreMember(ms: seq<MemberSample>, m: MemberSample, gs: seq<PriorityGroup>, k: nat)
    requires Increasing(gs) && k < |gs| && gs[k].priority == m.priority
    ensures var before, after := WeightsAt(ms, gs, PanicEligible), WeightsAt(ms + [m], gs, PanicEligible);
      after == before[k := before[k] + if m.panicEligible then m.weight else 0]
  {
    assert (ms + [m])[..|ms|] == ms;
    hide SumBy;
    forall j | 0 <= j < |gs|
      ensures WeightAt(ms + [m], gs[j].priority, PanicEligible) ==
        WeightAt(ms, gs[j].priority, PanicEligible) + if j == k && m.panicEligible then m.weight else 0
    {
      SumStep(ms + [m], |ms|, MemberPart(gs[j].priority, PanicEligible));
      assert (ms + [m])[..|ms| + 1] == ms + [m];
    }
  }

  lemma {:induction false} WeightsAddUp(ms: seq<MemberSample>, gs: seq<PriorityGroup>)
    requires Increasing(gs) && forall m :: m in ms ==> m.priority in Priorities(gs)
    ensures Total(WeightsAt(ms, gs, PanicEligible)) == SumBy(ms, PanicPart())
  {
    if ms == [] {
      ZeroSum(WeightsAt(ms, gs, PanicEligible));
    } else {
      var last := |ms| - 1;
      var front, m := ms[..last], ms[last];
      WeightsAddUp(front, gs);
      assert ms == front + [m];
      assert m.priority in Priorities(gs);
      var k :| 0 <= k < |gs| && gs[k].priority == m.priority;
      OneMoreMember(front, m, gs, k);
      var before := WeightsAt(front, gs, PanicEligible);
      SumUpdate(before, k, before[k] + if m.panicEligible then m.weight else 0);
    }
  }

  /** Where all availability rounds away, everybody panics: the panic draw is over all panic-eligible weight. */
  lemma PanicWeightsAddUp(ms: seq<MemberSample>, gs: seq<PriorityGroup>, config: PriorityConfig)
    requires IsGrouping(ms, gs, config.overprovisioningFactorPercent) && IsRouted(gs, config)
    requires Total(Effective(gs)) == 0
    ensures Total(PanicWeights(gs)) == if config.panicThresholdPercent > 0 then SumBy(ms, PanicPart()) else 0
  {
    hide Total, WeightAt, RatioUnits, Share, SumBy;
    TotalZeroIff(Effective(gs));
    forall k | 0 <= k < |gs|
      ensures gs[k].panic <==> config.panicThresholdPercent > 0
      ensures gs[k].panicWeight == WeightAt(ms, gs[k].priority, PanicEligible)
    {
      RawAtMostEffective(gs[k], config.overprovisioningFactorPercent);
      GroupWeighs(ms, gs, config.overprovisioningFactorPercent, k);
    }
    if config.panicThresholdPercent > 0 {
      assert PanicWeights(gs) == WeightsAt(ms, gs, PanicEligible);
      MembersHaveGroups(ms, gs);
      WeightsAddUp(ms, gs);
    } else {
      TotalZeroIff(PanicWeights(gs));
    }
  }

  lemma MembersHaveGroups(ms: seq<MemberSample>, gs: seq<PriorityGroup>)
    requires IsMerged(ms, gs)
    ensures forall m :: m in ms ==> m.priority in Priorities(gs)
  {
    hide WeightAt;
    forall m | m in ms
      ensures m.priority in Priorities(gs)
    {
      assert m.priority in MemberPriorities(ms);
    }
  }

  /**
   * Panic is rejected exactly under the fail-closed mode, when the draw falls to a panicking priority or, where
   * all availability rounds away, when panic is on, somebody may serve one, and their weights fit.
   */
  lemma PanicRejectedIff(ms: seq<MemberSample>, gs: seq<PriorityGroup>, config: PriorityConfig, draw: nat)
    requires IsGrouping(ms, gs, config.overprovisioningFactorPercent) && IsRouted(gs, config) && ms != []
    ensures RoundsAway(ms, config.overprovisioningFactorPercent) <==> Total(Traffic(gs)) == 0
    ensures ScopeOf(gs, config, draw) == Err(PanicRejected) <==>
      && config.panicMode == FailClosed
      && if RoundsAway(ms, config.overprovisioningFactorPercent) then
           config.panicThresholdPercent > 0 && 0 < SumBy(ms, PanicPart()) < 0x1_0000_0000_0000_0000
         else ChosenGroup(gs, draw).panic
  {
    hide Total, Owner, IsGrouping, Share, RoundsAway, WeightAt, SumBy;
    NoAvailabilityIff(ms, gs, config.overprovisioningFactorPercent);
    RoutedTraffic(gs, config);
    if Total(Effective(gs)) == 0 {
      PanicWeightsAddUp(ms, gs, config);
    }
  }

  /** Routing itself overflows exactly where all availability rounds away and the panic-eligible weights do not fit. */
  lemma PanicOverflowsIff(ms: seq<MemberSample>, gs: seq<PriorityGroup>, config: PriorityConfig, draw: nat)
    requires IsGrouping(ms, gs, config.overprovisioningFactorPercent) && IsRouted(gs, config) && ms != []
    ensures ScopeOf(gs, config, draw) == Err(WeightOverflow) <==>
      && RoundsAway(ms, config.overprovisioningFactorPercent)
      && config.panicThresholdPercent > 0 && SumBy(ms, PanicPart()) >= 0x1_0000_0000_0000_0000
  {
    hide Total, Owner, IsGrouping, Share, RoundsAway, WeightAt, SumBy;
    NoAvailabilityIff(ms, gs, config.overprovisioningFactorPercent);
    RoutedTraffic(gs, config);
    if Total(Effective(gs)) == 0 {
      PanicWeightsAddUp(ms, gs, config);
    }
  }

  /** What a granted scope names: the priority the draw falls to, and whether that priority panics. */
  lemma GrantedScopeIs(
      ms: seq<MemberSample>, gs: seq<PriorityGroup>, config: PriorityConfig, draw: nat, scope: PriorityScope)
    requires IsGrouping(ms, gs, config.overprovisioningFactorPercent) && IsRouted(gs, config) && ms != []
    requires ScopeOf(gs, config, draw) == Ok(scope)
    ensures RoundsAway(ms, config.overprovisioningFactorPercent) <==> Total(Traffic(gs)) == 0
    ensures !RoundsAway(ms, config.overprovisioningFactorPercent) ==>
      var g := ChosenGroup(gs, draw);
      scope.priority == g.priority && (scope.mode == PanicMembers <==> g.panic)
    ensures RoundsAway(ms, config.overprovisioningFactorPercent) ==>
      && scope.mode == PanicMembers && config.panicMode == UseAll
      && Total(PanicWeights(gs)) > 0
      && scope.priority == gs[Owner(PanicWeights(gs), draw % Total(PanicWeights(gs)))].priority
  {
    hide Total, Owner, IsGrouping, Share, RoundsAway, WeightAt, SumBy;
    NoAvailabilityIff(ms, gs, config.overprovisioningFactorPercent);
    RoutedTraffic(gs, config);
    if Total(Effective(gs)) == 0 {
      OwnerHasWeight(PanicWeights(gs), draw % Total(PanicWeights(gs)));
    }
  }

  lemma GroupWeighs(ms: seq<MemberSample>, gs: seq<PriorityGroup>, factorPercent: u32, k: nat)
    requires IsGrouping(ms, gs, factorPercent) && k < |gs|
    ensures gs[k].panicWeight == WeightAt(ms, gs[k].priority, PanicEligible)
    ensures gs[k].eligibleWeight == WeightAt(ms, gs[k].priority, Healthy)
    ensures gs[k].totalWeight == WeightAt(ms, gs[k].priority, Configured) > 0
    ensures Available(gs[k], factorPercent) && gs[k].priority in MemberPriorities(ms)
  {
    hide WeightAt, RatioUnits, Increasing;
    assert Weigh(gs[k], PanicEligible) == WeightAt(ms, gs[k].priority, PanicEligible);
    assert Weigh(gs[k], Healthy) == WeightAt(ms, gs[k].priority, Healthy);
    assert Weigh(gs[k], Configured) == WeightAt(ms, gs[k].priority, Configured);
    SamePriorities(gs, gs);
  }

  // ----- the same answer in terms of the members alone

  /** Availability of one priority, from its members' weights. */
  function UnitsAt(ms: seq<MemberSample>, p: u32, factorPercent: u32): nat {
    var e, t := WeightAt(ms, p, Healthy), WeightAt(ms, p, Configured);
    if 0 < t < U64_LIMIT && e < U64_LIMIT then RatioUnits(e, t, factorPercent) else 0
  }

  ghost function UnitsBy(ms: seq<MemberSample>, ps: set<u32>, factorPercent: u32): map<u32, int> {
    map p | p in ps :: UnitsAt(ms, p, factorPercent)
  }

  /** Availability of the whole membership. */
  ghost function AvailableUnits(ms: seq<MemberSample>, factorPercent: u32): int {
    Sums.Sum(UnitsBy(ms, MemberPriorities(ms), factorPercent))
  }

  lemma OneMorePriority(ms: seq<MemberSample>, ps: set<u32>, p: u32, factorPercent: u32)
    requires p !in ps
    ensures Sums.Sum(UnitsBy(ms, ps + {p}, factorPercent)) ==
      Sums.Sum(UnitsBy(ms, ps, factorPercent)) + UnitsAt(ms, p, factorPercent)
  {
    hide UnitsAt, Sums.Sum;
    var before, after := UnitsBy(ms, ps, factorPercent), UnitsBy(ms, ps + {p}, factorPercent);
    assert after == before[p := UnitsAt(ms, p, factorPercent)];
    Sums.SumInsert(before, p, UnitsAt(ms, p, factorPercent));
  }

  lemma NextPriorityIsNew(gs: seq<PriorityGroup>, k: nat)
    requires Increasing(gs) && k < |gs|
    ensures Priorities(gs[..k + 1]) == Priorities(gs[..k]) + {gs[k].priority} && gs[k].priority !in Priorities(gs[..k])
  {
    PrioritiesGrow(gs, k);
  }

  lemma {:induction false} UnitsOfPrefix(ms: seq<MemberSample>, gs: seq<PriorityGroup>, factorPercent: u32, n: nat)
    requires IsGrouping(ms, gs, factorPercent) && n <= |gs|
    ensures Total(Effective(gs)[..n]) == Sums.Sum(UnitsBy(ms, Priorities(gs[..n]), factorPercent))
    decreases n
  {
    if n == 0 {
      TotalOfNone(Effective(gs));
    } else {
      var k := n - 1;
      GroupWeighs(ms, gs, factorPercent, k);
      NextPriorityIsNew(gs, k);
      hide Total, WeightAt, RatioUnits, Sums.Sum, UnitsBy, IsGrouping, Priorities;
      UnitsOfPrefix(ms, gs, factorPercent, k);
      TotalStep(Effective(gs), k);
      OneMorePriority(ms, Priorities(gs[..k]), gs[k].priority, factorPercent);
    }
  }

  lemma AvailabilityIsSum(ms: seq<MemberSample>, gs: seq<PriorityGroup>, factorPercent: u32)
    requires IsGrouping(ms, gs, factorPercent)
    ensures Total(Effective(gs)) == AvailableUnits(ms, factorPercent)
  {
    hide Total, UnitsBy, Sums.Sum, WeightAt, RatioUnits;
    UnitsOfPrefix(ms, gs, factorPercent, |gs|);
    assert gs[..|gs|] == gs && Effective(gs)[..|gs|] == Effective(gs);
  }

  /** A priority that carries traffic and panics, with nobody who may serve a panic. */
  predicate DeadEnd(ms: seq<MemberSample>, config: PriorityConfig, p: u32) {
    var healthy, configured := WeightAt(ms, p, Healthy), WeightAt(ms, p, Configured);
    && configured <= healthy * config.overprovisioningFactorPercent * 10_000
    && healthy * 100 < config.panicThresholdPercent * configured
    && WeightAt(ms, p, PanicEligible) == 0
  }

  /** Some request is refused although the members were accepted. */
  ghost predicate CanRefuse(ms: seq<MemberSample>, config: PriorityConfig) {
    if RoundsAway(ms, config.overprovisioningFactorPercent) then config.panicThresholdPercent == 0 || NoPanicMembers(ms)
    else
      && config.panicMode == UseAll && AvailableUnits(ms, config.overprovisioningFactorPercent) < TRAFFIC_UNITS
      && exists p :: p in MemberPriorities(ms) && DeadEnd(ms, config, p)
  }

  /** A group is a dead end for its draws exactly when its priority is one in the members' weights. */
  lemma DeadEndIff(ms: seq<MemberSample>, gs: seq<PriorityGroup>, config: PriorityConfig, k: nat)
    requires IsGrouping(ms, gs, config.overprovisioningFactorPercent) && IsRouted(gs, config) && k < |gs|
    ensures gs[k].priority in MemberPriorities(ms)
    ensures Shortage(gs) && DeadEnd(ms, config, gs[k].priority) <==>
      gs[k].traffic > 0 && gs[k].panic && WeightAt(ms, gs[k].priority, PanicEligible) == 0
  {
    GroupWeighs(ms, gs, config.overprovisioningFactorPercent, k);
    PanicTestIsExact(gs[k], Shortage(gs), config, config.overprovisioningFactorPercent);
    RatioIsZeroIff(gs[k].eligibleWeight, gs[k].totalWeight, config.overprovisioningFactorPercent);
    hide Total, WeightAt, RatioUnits, IsGrouping;
    assert Shortage(gs) ==> gs[k].traffic == gs[k].effectiveAvailability;
    assert gs[k].panic ==> Shortage(gs);
  }

  lemma SomeDrawReaches(gs: seq<PriorityGroup>, k: nat) returns (draw: nat)
    requires k < |gs| && gs[k].traffic > 0
    ensures Total(Traffic(gs)) > 0 && ChosenGroup(gs, draw) == gs[k]
  {
    hide Total, Owner;
    draw := Total(Traffic(gs)[..k]);
    FirstTicket(Traffic(gs), k);
    SmallRemainder(draw, Total(Traffic(gs)));
  }

  /** Whether some draw is refused depends on the members' weights alone, by a test a caller can make beforehand. */
  lemma SomeDrawRefusedIff(ms: seq<MemberSample>, gs: seq<PriorityGroup>, config: PriorityConfig)
    requires IsGrouping(ms, gs, config.overprovisioningFactorPercent) && IsRouted(gs, config) && ms != []
    ensures (exists draw :: ScopeOf(gs, config, draw) == Err(NoEligibleCandidates)) <==> CanRefuse(ms, config)
  {
    AvailabilityIsSum(ms, gs, config.overprovisioningFactorPercent);
    hide Total, ScopeOf, WeightAt, DeadEnd, Owner, RoundsAway, IsRouted, NoPanicMembers, AvailableUnits;
    if draw: nat :| ScopeOf(gs, config, draw) == Err(NoEligibleCandidates) {
      RefusalIff(ms, gs, config, draw);
      if Total(Traffic(gs)) > 0 {
        var k := Owner(Traffic(gs), draw % Total(Traffic(gs)));
        OwnerHasWeight(Traffic(gs), draw % Total(Traffic(gs)));
        DeadEndIff(ms, gs, config, k);
      }
    }
    RefusalIff(ms, gs, config, 0);
    if CanRefuse(ms, config) && Total(Traffic(gs)) > 0 {
      var p :| p in MemberPriorities(ms) && DeadEnd(ms, config, p);
      var k := GroupAt(ms, gs, config.overprovisioningFactorPercent, p);
      DeadEndIff(ms, gs, config, k);
      var draw := SomeDrawReaches(gs, k);
      RefusalIff(ms, gs, config, draw);
    }
  }

  lemma GroupAt(ms: seq<MemberSample>, gs: seq<PriorityGroup>, factorPercent: u32, p: u32) returns (k: nat)
    requires IsGrouping(ms, gs, factorPercent) && p in MemberPriorities(ms)
    ensures k < |gs| && gs[k].priority == p
  {
    assert p in Priorities(gs);
    k :| 0 <= k < |gs| && gs[k].priority == p;
  }

  // ----- two refusals with somebody eligible

  lemma PairIsGrouped(a: MemberSample, b: MemberSample, g: PriorityGroup, factorPercent: u32)
    requires a.priority == b.priority == g.priority && Available(g, factorPercent)
    requires forall c :: Weigh(g, c) == (if Has(a, c) then a.weight else 0) + (if Has(b, c) then b.weight else 0)
    ensures IsGrouping([a, b], [g], factorPercent)
  {
    hide SumBy, RatioUnits;
    forall c: Column
      ensures Weigh(g, c) == WeightAt([a, b], g.priority, c)
    {
      SumOfPair(a, b, MemberPart(g.priority, c));
    }
    assert Priorities([g]) == {g.priority} == MemberPriorities([a, b]);
  }

  lemma LoneGroupIsRouted(g: PriorityGroup, config: PriorityConfig)
    requires g.traffic == g.effectiveAvailability < TRAFFIC_UNITS && g.panic == Panics(g, true, config)
    ensures IsRouted([g], config)
  {
    var effs := Effective([g]);
    TotalOfNone(effs);
    TotalStep(effs, 0);
    assert effs[..1] == effs;
    hide Total;
  }

  const UP_AND_DOWN := [
    PriorityCandidate(Candidate(0, 1, true), 0, true, true),
    PriorityCandidate(Candidate(1, 2_000_000, false), 0, true, true)]
  const NO_PANIC: PriorityConfig := Settings(100, 0, UseAll)
  const ROUNDED := PriorityGroup(0, 2_000_001, 1, 2_000_001, 0, 0, 0, false)

  lemma SampleOfPair<Id>(a: PriorityCandidate<Id>, b: PriorityCandidate<Id>)
    requires a.isMember && b.isMember
    ensures Sample([a, b]) == [SampleOf([a, b], 0), SampleOf([a, b], 1)]
  {
    var cs := [a, b];
    assert Sample(cs[..1][..0]) == [];
    assert Sample(cs[..1]) == [SampleOf(cs[..1], 0)];
  }

  /** An eligible member of weight 1 beside an unavailable one of weight 2,000,000, panic off: refused on every draw. */
  lemma EligibleCanBeRefused(draw: nat)
    ensures UP_AND_DOWN[0].isMember && UP_AND_DOWN[0].base.eligible
    ensures IsGrouping(Sample(UP_AND_DOWN), [ROUNDED], NO_PANIC.overprovisioningFactorPercent)
    ensures IsRouted([ROUNDED], NO_PANIC) && ScopeOf([ROUNDED], NO_PANIC, draw) == Err(NoEligibleCandidates)
  {
    SampleOfPair(UP_AND_DOWN[0], UP_AND_DOWN[1]);
    var a, b := MemberSample(0, 0, 1, true, true), MemberSample(1, 0, 2_000_000, false, true);
    PairIsGrouped(a, b, ROUNDED, 100);
    LoneGroupIsRouted(ROUNDED, NO_PANIC);
    PairRoundsAway(a, b);
    hide ScopeOf, IsGrouping, IsRouted, WeightAt;
    RefusalIff([a, b], [ROUNDED], NO_PANIC, draw);
  }

  lemma PairRoundsAway(a: MemberSample, b: MemberSample)
    requires a == MemberSample(0, 0, 1, true, true) && b == MemberSample(1, 0, 2_000_000, false, true)
    ensures RoundsAway([a, b], 100)
  {
    hide SumBy;
    SumOfPair(a, b, MemberPart(0, Healthy));
    SumOfPair(a, b, MemberPart(0, Configured));
  }

  const RESERVED := [
    PriorityCandidate(Candidate(0, 1, true), 0, true, false),
    PriorityCandidate(Candidate(1, 9, false), 0, true, false)]
  const DEFAULT_CONFIG: PriorityConfig := Settings(140, 50, UseAll)
  const PANICKING := PriorityGroup(0, 10, 1, 0, 100_000, 140_000, 140_000, true)

  /** Under the default settings, an eligible member that opted out of panic is refused because its priority panics. */
  lemma PanicCanRefuseEligible(draw: nat)
    ensures RESERVED[0].isMember && RESERVED[0].base.eligible
    ensures IsGrouping(Sample(RESERVED), [PANICKING], DEFAULT_CONFIG.overprovisioningFactorPercent)
    ensures !RoundsAway(Sample(RESERVED), DEFAULT_CONFIG.overprovisioningFactorPercent)
    ensures IsRouted([PANICKING], DEFAULT_CONFIG)
    ensures ScopeOf([PANICKING], DEFAULT_CONFIG, draw) == Err(NoEligibleCandidates)
  {
    SampleOfPair(RESERVED[0], RESERVED[1]);
    var a, b := MemberSample(0, 0, 1, true, false), MemberSample(1, 0, 9, false, false);
    PairIsGrouped(a, b, PANICKING, 140);
    LoneGroupIsRouted(PANICKING, DEFAULT_CONFIG);
    hide ScopeOf, IsGrouping, WeightAt;
    RefusalIff([a, b], [PANICKING], DEFAULT_CONFIG, draw);
    RoutedTraffic([PANICKING], DEFAULT_CONFIG);
    hide IsRouted;
    LoneGroupTotals(PANICKING);
    GroupWeighs([a, b], [PANICKING], 140, 0);
  }

  lemma LoneGroupTotals(g: PriorityGroup)
    ensures Total(Effective([g])) == g.effectiveAvailability && Total(Traffic([g])) == g.traffic
  {
    var effs, shares := Effective([g]), Traffic([g]);
    TotalOfNone(effs);
    TotalOfNone(shares);
    TotalStep(effs, 0);
    TotalStep(shares, 0);
    assert effs[..1] == effs && shares[..1] == shares;
  }
}
