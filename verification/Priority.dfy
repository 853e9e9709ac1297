/** Priority routing, second half: traffic shares, panic, and the ticket draws. */
module Priority {
  import opened Core
  import opened PriorityGroups
  import opened SeqSums
  import opened Sorting
  import opened Tickets

  datatype PanicMode = UseAll | FailClosed

  datatype PriorityConfigError = Underprovisioned | InvalidPanicThreshold

  datatype Settings = Settings(overprovisioningFactorPercent: u32, panicThresholdPercent: u32, panicMode: PanicMode)

  type PriorityConfig = s: Settings | s.overprovisioningFactorPercent >= 100 && s.panicThresholdPercent <= 100
    witness Settings(140, 50, UseAll)

  function NewPriorityConfig(
      factor: u32, threshold: u32, mode: PanicMode): (r: Result<PriorityConfig, PriorityConfigError>)
    ensures r.Ok? <==> factor >= 100 && threshold <= 100
    ensures r.Ok? ==> r.value == Settings(factor, threshold, mode)
    ensures r == Err(Underprovisioned) <==> factor < 100
    ensures r == Err(InvalidPanicThreshold) <==> factor >= 100 && threshold > 100
  {
    if factor < 100 then Err(Underprovisioned)
    else if threshold > 100 then Err(InvalidPanicThreshold)
    else Ok(Settings(factor, threshold, mode))
  }

  datatype PriorityMode = HealthyMode | PanicMembers

  datatype PriorityScope = PriorityScope(priority: u32, mode: PriorityMode)

  datatype PriorityDecision = PriorityDecision(selection: nat, priority: u32, mode: PriorityMode)

  predicate MemberInScope(m: MemberSample, scope: PriorityScope) {
    m.priority == scope.priority && if scope.mode == HealthyMode then m.eligible else m.panicEligible
  }

  function Effective(gs: seq<PriorityGroup>): (r: seq<nat>)
    ensures |r| == |gs| && forall k :: 0 <= k < |r| ==> r[k] == gs[k].effectiveAvailability
  {
    seq(|gs|, k requires 0 <= k < |gs| => gs[k].effectiveAvailability)
  }

  function Traffic(gs: seq<PriorityGroup>): (r: seq<nat>)
    ensures |r| == |gs| && forall k :: 0 <= k < |r| ==> r[k] == gs[k].traffic
  {
    seq(|gs|, k requires 0 <= k < |gs| => gs[k].traffic)
  }

  /** Panic-eligible weight of the panicking groups. */
  function PanicWeights(gs: seq<PriorityGroup>): (r: seq<nat>)
    ensures |r| == |gs| && forall k :: 0 <= k < |r| ==> r[k] == if gs[k].panic then gs[k].panicWeight else 0
  {
    seq(|gs|, k requires 0 <= k < |gs| => if gs[k].panic then gs[k].panicWeight else 0)
  }

  predicate Shortage(gs: seq<PriorityGroup>) {
    Total(Effective(gs)) < TRAFFIC_UNITS
  }

  /** A group panics when capacity is short overall and its own availability is below the threshold. */
  predicate Panics(g: PriorityGroup, shortage: bool, config: PriorityConfig) {
    shortage && config.panicThresholdPercent > 0 && g.rawAvailability < config.panicThresholdPercent * 10_000
  }

  /** What group `k` should carry: its availability, but never more than earlier priorities leave over. */
  function Share(effs: seq<nat>, k: nat): nat
    requires k < |effs|
  {
    var before := Total(effs[..k]);
    if Total(effs) < TRAFFIC_UNITS || before + effs[k] <= TRAFFIC_UNITS then effs[k]
    else if before <= TRAFFIC_UNITS then TRAFFIC_UNITS - before
    else 0
  }

  ghost predicate IsRouted(gs: seq<PriorityGroup>, config: PriorityConfig) {
    && Flagged(gs, Shortage(gs), config)
    && (forall k :: 0 <= k < |gs| ==> gs[k].traffic == Share(Effective(gs), k))
  }

  lemma {:induction false} PrefixOfShares(effs: seq<nat>, shares: seq<nat>, k: nat)
    requires |shares| == |effs| && k <= |effs| && Total(effs) >= TRAFFIC_UNITS
    requires forall j :: 0 <= j < |effs| ==> shares[j] == Share(effs, j)
    ensures Total(shares[..k]) == if Total(effs[..k]) <= TRAFFIC_UNITS then Total(effs[..k]) else TRAFFIC_UNITS
    decreases k
  {
    hide Total;
    if k == 0 {
      TotalOfNone(effs);
      TotalOfNone(shares);
    } else {
      PrefixOfShares(effs, shares, k - 1);
      TotalStep(effs, k - 1);
      TotalStep(shares, k - 1);
    }
  }

  /**
   * Shares add up to exactly the whole when capacity suffices, and then a priority carries traffic
   * only once every earlier one carries all it can; under shortage each carries its full availability.
   */
  lemma SharesAreExact(effs: seq<nat>, shares: seq<nat>)
    requires |shares| == |effs|
    requires forall j :: 0 <= j < |effs| ==> shares[j] == Share(effs, j)
    ensures Total(effs) >= TRAFFIC_UNITS ==> Total(shares) == TRAFFIC_UNITS
    ensures Total(effs) < TRAFFIC_UNITS ==> shares == effs
    ensures forall j, k :: 0 <= j < k < |shares| && shares[k] > 0 ==> shares[j] == effs[j]
    ensures forall k :: 0 <= k < |shares| ==> shares[k] <= effs[k]
  {
    hide Total;
    TotalOfWhole(effs, |effs|);
    TotalOfWhole(shares, |shares|);
    if Total(effs) >= TRAFFIC_UNITS {
      PrefixOfShares(effs, shares, |effs|);
    }
    forall j, k | 0 <= j < k < |shares| && shares[k] > 0
      ensures shares[j] == effs[j]
    {
      TotalStep(effs, j);
      TotalMonotone(effs, j + 1, k);
    }
  }

  /** Panic and the member filter decide what a chosen group offers. */
  function GroupScope(g: PriorityGroup, mode: PanicMode): Result<PriorityScope, PickError> {
    if g.panic && mode == FailClosed then Err(PanicRejected)
    else if (if g.panic then g.panicWeight else g.eligibleWeight) == 0 then Err(NoEligibleCandidates)
    else Ok(PriorityScope(g.priority, if g.panic then PanicMembers else HealthyMode))
  }

  /** The routing decision as a function of the groups and one draw. */
  function ScopeOf(gs: seq<PriorityGroup>, config: PriorityConfig, draw: nat): Result<PriorityScope, PickError>
  {
    if Total(Effective(gs)) == 0 then
      var total := Total(PanicWeights(gs));
      if total >= U64_LIMIT then Err(WeightOverflow)
      else if total == 0 then Err(NoEligibleCandidates)
      else if config.panicMode == FailClosed then Err(PanicRejected)
      else GroupScope(gs[Owner(PanicWeights(gs), draw % total)], config.panicMode)
    else if Total(Traffic(gs)) == 0 then Err(NoEligibleCandidates)
    else GroupScope(gs[Owner(Traffic(gs), draw % Total(Traffic(gs)))], config.panicMode)
  }

  /** Under fail-closed panic nobody is ever served by a panicking priority. */
  lemma FailClosedNeverPanics(gs: seq<PriorityGroup>, config: PriorityConfig, draw: nat, scope: PriorityScope)
    requires config.panicMode == FailClosed && ScopeOf(gs, config, draw) == Ok(scope)
    ensures scope.mode == HealthyMode
  {
    hide Total, Owner;
  }

  /** Routed traffic is positive whenever any availability is. */
  lemma RoutedTraffic(gs: seq<PriorityGroup>, config: PriorityConfig)
    requires IsRouted(gs, config)
    ensures Total(Traffic(gs)) == if Shortage(gs) then Total(Effective(gs)) else TRAFFIC_UNITS
    ensures forall k :: 0 <= k < |gs| && gs[k].traffic > 0 ==> gs[k].effectiveAvailability > 0
  {
    hide Total, Share;
    SharesAreExact(Effective(gs), Traffic(gs));
  }

  /** Weights of the sampled members in scope, zero outside it. */
  function ScopeWeights(ms: seq<MemberSample>, scope: PriorityScope): (r: seq<nat>)
    ensures |r| == |ms| && forall k :: 0 <= k < |r| ==> r[k] == if MemberInScope(ms[k], scope) then ms[k].weight else 0
  {
    seq(|ms|, k requires 0 <= k < |ms| => if MemberInScope(ms[k], scope) then ms[k].weight else 0)
  }

  function ColumnOf(mode: PriorityMode): Column {
    if mode == HealthyMode then Healthy else PanicEligible
  }

  lemma ScopeWeightsTotal(ms: seq<MemberSample>, scope: PriorityScope)
    ensures Total(ScopeWeights(ms, scope)) == WeightAt(ms, scope.priority, ColumnOf(scope.mode))
  {
    TotalIsSum(ScopeWeights(ms, scope), ms, MemberPart(scope.priority, ColumnOf(scope.mode)));
  }

  /** A scope that routing granted always has endpoint tickets, and they fit the accumulator. */
  lemma GrantedScopeHasTickets(
      ms: seq<MemberSample>, gs: seq<PriorityGroup>, config: PriorityConfig, draw: nat, scope: PriorityScope)
    requires IsGrouping(ms, gs, config.overprovisioningFactorPercent) && IsRouted(gs, config)
    requires ScopeOf(gs, config, draw) == Ok(scope)
    ensures 0 < Total(ScopeWeights(ms, scope)) < U64_LIMIT
  {
    hide Total, WeightAt, IsRouted;
    ScopeWeightsTotal(ms, scope);
    var g :| g in gs && GroupScope(g, config.panicMode) == Ok(scope);
    var k :| 0 <= k < |gs| && gs[k] == g;
    var c := ColumnOf(scope.mode);
    assert Weigh(gs[k], c) == WeightAt(ms, gs[k].priority, c);
  }

  class PriorityWeightedRandom {
    const config: PriorityConfig
    var members: seq<MemberSample>
    var groups: seq<PriorityGroup>

    constructor (config: PriorityConfig)
      ensures this.config == config && members == [] && groups == []
    {
      this.config := config;
      members, groups := [], [];
    }

    method SampleMembers<Id>(cs: seq<PriorityCandidate<Id>>) returns (r: Result<(), PickError>)
      modifies this`members
      ensures r == if cs == [] then Err(Empty) else if Sample(cs) == [] then Err(NoEligibleCandidates) else Ok(())
      ensures cs != [] ==> members == Sample(cs)
    {
      if cs == [] {
        return Err(Empty);
      }
      members := [];
      for i := 0 to |cs|
        invariant members == Sample(cs[..i])
      {
        assert cs[..i + 1][..i] == cs[..i];
        if cs[i].isMember {
          members := members + [SampleOf(cs, i)];
        }
      }
      assert cs[..|cs|] == cs;
      return if members == [] then Err(NoEligibleCandidates) else Ok(());
    }

    /** Sort, compact in place, then fill in the availabilities. */
    method CalculateGroups() returns (r: Result<(), PickError>)
      modifies this`groups
      ensures r == if Overflows(members) then Err(WeightOverflow) else Ok(())
      ensures r.Ok? ==> IsGrouping(members, groups, config.overprovisioningFactorPercent)
    {
      hide Overflows, Compacting, IsMerged, RatioUnits, Merge;
      groups := SortUnstable(Singles(members), LeqPriority);
      ghost var sorted := groups;
      var write := 0;
      CompactStarts(sorted);
      for read := 0 to |groups|
        invariant |groups| == |sorted| && write <= |groups| && Compacting(groups, sorted, write, read)
      {
        CompactReadsOriginal(groups, sorted, write, read);
        var group := groups[read];
        if write > 0 && groups[write - 1].priority == group.priority {
          var current := groups[write - 1];
          if || current.totalWeight + group.totalWeight >= U64_LIMIT
             || current.eligibleWeight + group.eligibleWeight >= U64_LIMIT
             || current.panicWeight + group.panicWeight >= U64_LIMIT
          {
            ghost var c :| Weigh(current, c) + Weigh(group, c) >= U64_LIMIT;
            MergeFailsOnlyOnOverflow(members, groups, sorted, write, read, c);
            return Err(WeightOverflow);
          }
          CompactMerges(groups, sorted, write, read);
          groups := groups[write - 1 := Merge(current, group)];
        } else {
          CompactAppends(groups, sorted, write, read);
          groups := groups[write := group];
          write := write + 1;
        }
      }
      CompactedIsMerged(members, groups, sorted, write);
      groups := groups[..write];
      FillAvailability();
      return Ok(());
    }

    method FillAvailability()
      requires IsMerged(members, groups)
      modifies this`groups
      ensures IsGrouping(members, groups, config.overprovisioningFactorPercent)
    {
      hide RatioUnits, WeightAt, Priorities, MemberPriorities;
      ghost var merged := groups;
      for i := 0 to |groups|
        invariant |groups| == |merged|
        invariant forall k :: 0 <= k < i ==>
          groups[k] == WithAvailability(merged[k], config.overprovisioningFactorPercent)
        invariant forall k :: i <= k < |groups| ==> groups[k] == merged[k]
      {
        groups := groups[i := WithAvailability(groups[i], config.overprovisioningFactorPercent)];
      }
      AvailabilityCompletes(members, merged, groups, config.overprovisioningFactorPercent);
    }

    /** Combined availability, capped at the whole. */
    method TotalEffective() returns (total: nat)
      ensures total == if Shortage(groups) then Total(Effective(groups)) else TRAFFIC_UNITS
    {
      hide Total;
      ghost var effs := Effective(groups);
      total := 0;
      TotalOfNone(effs);
      for i := 0 to |groups|
        invariant total == if Total(effs[..i]) < TRAFFIC_UNITS then Total(effs[..i]) else TRAFFIC_UNITS
      {
        TotalStep(effs, i);
        total := total + groups[i].effectiveAvailability;
        if total > TRAFFIC_UNITS {
          total := TRAFFIC_UNITS;
        }
      }
      TotalOfWhole(effs, |effs|);
    }

    method FlagPanic(shortage: bool)
      modifies this`groups
      ensures SameAvailability(old(groups), groups) && Flagged(groups, shortage, config)
      ensures forall k :: 0 <= k < |groups| ==> groups[k].traffic == 0
    {
      ghost var before := groups;
      for i := 0 to |groups|
        invariant SameAvailability(before, groups)
        invariant forall k :: 0 <= k < i ==>
          (groups[k].panic <==> Panics(groups[k], shortage, config)) && groups[k].traffic == 0
      {
        groups := groups[i := groups[i].(panic := Panics(groups[i], shortage, config), traffic := 0)];
      }
    }

    /** Full availability under shortage; otherwise greedily in priority order. */
    method AssignTraffic(shortage: bool)
      requires shortage == Shortage(groups) && Flagged(groups, shortage, config)
      modifies this`groups
      ensures SameAvailability(old(groups), groups) && IsRouted(groups, config)
    {
      hide Total, Panics;
      ghost var before := groups;
      ghost var effs := Effective(groups);
      if shortage {
        for i := 0 to |groups|
          invariant SameAvailability(before, groups)
          invariant forall k :: 0 <= k < |groups| ==> groups[k].panic == before[k].panic
          invariant forall k :: 0 <= k < i ==> groups[k].traffic == effs[k]
        {
          groups := groups[i := groups[i].(traffic := groups[i].effectiveAvailability)];
        }
      } else {
        var remaining := TRAFFIC_UNITS;
        TotalOfNone(effs);
        for i := 0 to |groups|
          invariant SameAvailability(before, groups)
          invariant forall k :: 0 <= k < |groups| ==> groups[k].panic == before[k].panic
          invariant forall k :: 0 <= k < i ==> groups[k].traffic == Share(effs, k)
          invariant remaining == if Total(effs[..i]) < TRAFFIC_UNITS then TRAFFIC_UNITS - Total(effs[..i]) else 0
        {
          ShareOfRemaining(effs, i, remaining);
          TotalStep(effs, i);
          var effective := groups[i].effectiveAvailability;
          var traffic := if effective < remaining then effective else remaining;
          groups := groups[i := groups[i].(traffic := traffic)];
          remaining := remaining - traffic;
        }
      }
      PanicIgnoresTraffic(before, groups, shortage, config);
      SameEffective(before, groups);
    }

    method SelectGlobalPanicScope(draw: nat) returns (r: Result<PriorityScope, PickError>)
      requires Total(Effective(groups)) == 0
      ensures r == ScopeOf(groups, config, draw)
    {
      hide Total, Owner;
      ghost var weights := PanicWeights(groups);
      var panicWeight := 0;
      TotalOfNone(weights);
      for i := 0 to |groups|
        invariant panicWeight == Total(weights[..i]) < U64_LIMIT
      {
        TotalStep(weights, i);
        TotalOfWhole(weights, i);
        if groups[i].panic {
          if panicWeight + groups[i].panicWeight >= U64_LIMIT {
            return Err(WeightOverflow);
          }
          panicWeight := panicWeight + groups[i].panicWeight;
        }
      }
      TotalOfWhole(weights, |weights|);
      if panicWeight == 0 {
        return Err(NoEligibleCandidates);
      }
      if config.panicMode == FailClosed {
        return Err(PanicRejected);
      }
      var ticket := draw % panicWeight;
      var index := Scan(PanicWeights(groups), ticket);
      OneOwner(weights, index.value, Owner(weights, ticket), ticket);
      return GroupScope(groups[index.value], config.panicMode);
    }

    /** Sample, group, share out the traffic, and let one draw choose a priority. */
    method SelectScope<Id>(cs: seq<PriorityCandidate<Id>>, draw: nat) returns (r: Result<PriorityScope, PickError>)
      modifies this`members, this`groups
      ensures cs == [] ==> r == Err(Empty)
      ensures cs != [] ==> members == Sample(cs)
      ensures cs != [] && Sample(cs) == [] ==> r == Err(NoEligibleCandidates)
      ensures cs != [] && Sample(cs) != [] && Overflows(members) ==> r == Err(WeightOverflow)
      ensures cs != [] && Sample(cs) != [] && !Overflows(members) ==>
        && IsGrouping(members, groups, config.overprovisioningFactorPercent) && IsRouted(groups, config)
        && r == ScopeOf(groups, config, draw)
    {
      hide Total, Owner, IsMerged, Overflows, WeightAt, Share;
      var sampled := SampleMembers(cs);
      if sampled.Err? {
        return Err(sampled.error);
      }
      var calculated := CalculateGroups();
      if calculated.Err? {
        return Err(calculated.error);
      }
      ghost var grouped := groups;
      var totalEffective := TotalEffective();
      var shortage := totalEffective < TRAFFIC_UNITS;
      FlagPanic(shortage);
      SameEffective(grouped, groups);
      GroupingSurvives(members, grouped, groups, config.overprovisioningFactorPercent);
      if totalEffective == 0 {
        NothingToShare(groups, config);
        r := SelectGlobalPanicScope(draw);
        return;
      }
      ghost var flagged := groups;
      AssignTraffic(shortage);
      SameEffective(flagged, groups);
      GroupingSurvives(members, flagged, groups, config.overprovisioningFactorPercent);
      RoutedTraffic(groups, config);
      var total := if shortage then totalEffective else TRAFFIC_UNITS;
      var ticket := draw % total;
      var index := Scan(Traffic(groups), ticket);
      OneOwner(Traffic(groups), index.value, Owner(Traffic(groups), ticket), ticket);
      return GroupScope(groups[index.value], config.panicMode);
    }

    /** One member of the scope, by a draw over their weights. */
    method SelectMember(scope: PriorityScope, draw: nat) returns (r: Result<nat, PickError>)
      ensures var weights := ScopeWeights(members, scope);
        r == if Total(weights) == 0 then Err(NoEligibleCandidates)
             else if Total(weights) >= U64_LIMIT then Err(WeightOverflow)
             else Ok(members[Owner(weights, draw % Total(weights))].index)
    {
      hide Total, Owner;
      ghost var weights := ScopeWeights(members, scope);
      var total := 0;
      TotalOfNone(weights);
      for i := 0 to |members|
        invariant total == Total(weights[..i]) < U64_LIMIT
      {
        TotalStep(weights, i);
        TotalOfWhole(weights, i);
        if MemberInScope(members[i], scope) {
          if total + members[i].weight >= U64_LIMIT {
            return Err(WeightOverflow);
          }
          total := total + members[i].weight;
        }
      }
      TotalOfWhole(weights, |weights|);
      if total == 0 {
        return Err(NoEligibleCandidates);
      }
      var ticket := draw % total;
      var index := Scan(ScopeWeights(members, scope), ticket);
      OneOwner(weights, index.value, Owner(weights, ticket), ticket);
      return Ok(members[index.value].index);
    }

    /** Once routing grants a scope the endpoint draw cannot fail, and it lands on a member of that scope. */
    method Decide<Id>(cs: seq<PriorityCandidate<Id>>, groupDraw: nat, memberDraw: nat)
      returns (r: Result<PriorityDecision, PickError>)
      modifies this`members, this`groups
      ensures cs == [] ==> r == Err(Empty)
      ensures cs != [] && Sample(cs) == [] ==> r == Err(NoEligibleCandidates)
      ensures cs != [] && Sample(cs) != [] && Overflows(Sample(cs)) ==> r == Err(WeightOverflow)
      ensures cs != [] && Sample(cs) != [] && !Overflows(Sample(cs)) ==>
        && members == Sample(cs)
        && IsGrouping(members, groups, config.overprovisioningFactorPercent) && IsRouted(groups, config)
        && (match ScopeOf(groups, config, groupDraw)
            case Err(e) => r == Err(e)
            case Ok(scope) =>
              var weights := ScopeWeights(members, scope);
              && Total(weights) > 0
              && r == Ok(PriorityDecision(
                   members[Owner(weights, memberDraw % Total(weights))].index, scope.priority, scope.mode)))
      ensures r.Ok? ==>
        && r.value.selection < |cs| && cs[r.value.selection].isMember
        && cs[r.value.selection].priority == r.value.priority
        && if r.value.mode == HealthyMode then cs[r.value.selection].base.eligible
           else cs[r.value.selection].panicEligible
      ensures r.Ok? && config.panicMode == FailClosed ==>
        r.value.mode == HealthyMode && cs[r.value.selection].base.eligible
    {
      hide Total, IsGrouping, Share, ScopeOf;
      var scope := SelectScope(cs, groupDraw);
      if scope.Err? {
        return Err(scope.error);
      }
      RoutedTraffic(groups, config);
      if config.panicMode == FailClosed {
        FailClosedNeverPanics(groups, config, groupDraw, scope.value);
      }
      GrantedScopeHasTickets(members, groups, config, groupDraw, scope.value);
      ghost var weights := ScopeWeights(members, scope.value);
      var selection := SelectMember(scope.value, memberDraw);
      OwnerHasWeight(weights, memberDraw % Total(weights));
      return Ok(PriorityDecision(selection.value, scope.value.priority, scope.value.mode));
    }
  }

  ghost predicate Flagged(gs: seq<PriorityGroup>, shortage: bool, config: PriorityConfig) {
    forall k :: 0 <= k < |gs| ==> (gs[k].panic <==> Panics(gs[k], shortage, config))
  }

  ghost predicate SameAvailability(a: seq<PriorityGroup>, b: seq<PriorityGroup>) {
    && |a| == |b|
    && forall k :: 0 <= k < |a| ==> a[k].(traffic := 0, panic := false) == b[k].(traffic := 0, panic := false)
  }

  lemma ShareOfRemaining(effs: seq<nat>, i: nat, remaining: nat)
    requires i < |effs|
    requires remaining == if Total(effs[..i]) < TRAFFIC_UNITS then TRAFFIC_UNITS - Total(effs[..i]) else 0
    ensures Share(effs, i) ==
      if Total(effs) < TRAFFIC_UNITS || effs[i] < remaining then effs[i] else remaining
    ensures Total(effs) < TRAFFIC_UNITS ==> effs[i] <= remaining
  {
    hide Total;
    TotalStep(effs, i);
    TotalOfWhole(effs, i);
  }

  lemma PanicIgnoresTraffic(
      a: seq<PriorityGroup>, b: seq<PriorityGroup>, shortage: bool, config: PriorityConfig)
    requires SameAvailability(a, b) && Flagged(a, shortage, config)
    requires forall k :: 0 <= k < |a| ==> a[k].panic == b[k].panic
    ensures Flagged(b, shortage, config)
  {
    forall k | 0 <= k < |b|
      ensures Panics(a[k], shortage, config) == Panics(b[k], shortage, config)
    {
      SameFields(a[k], b[k]);
    }
  }

  lemma SameFields(a: PriorityGroup, b: PriorityGroup)
    requires a.(traffic := 0, panic := false) == b.(traffic := 0, panic := false)
    ensures a.rawAvailability == b.rawAvailability && a.effectiveAvailability == b.effectiveAvailability
    ensures a.priority == b.priority && a.totalWeight == b.totalWeight
    ensures a.eligibleWeight == b.eligibleWeight && a.panicWeight == b.panicWeight
  {
    var x, y := a.(traffic := 0, panic := false), b.(traffic := 0, panic := false);
    assert x.rawAvailability == y.rawAvailability && x.effectiveAvailability == y.effectiveAvailability;
    assert x.priority == y.priority && x.totalWeight == y.totalWeight;
    assert x.eligibleWeight == y.eligibleWeight && x.panicWeight == y.panicWeight;
  }

  lemma SameEffective(a: seq<PriorityGroup>, b: seq<PriorityGroup>)
    requires SameAvailability(a, b)
    ensures Effective(a) == Effective(b)
  {
    forall k | 0 <= k < |a|
      ensures a[k].effectiveAvailability == b[k].effectiveAvailability
    {
      SameFields(a[k], b[k]);
    }
  }

  lemma GroupingSurvives(
      ms: seq<MemberSample>, a: seq<PriorityGroup>, b: seq<PriorityGroup>, factor: u32)
    requires SameAvailability(a, b) && IsGrouping(ms, a, factor)
    ensures IsGrouping(ms, b, factor)
  {
    hide WeightAt, RatioUnits, Priorities, MemberPriorities;
    forall k | 0 <= k < |a|
      ensures a[k].priority == b[k].priority && Available(b[k], factor) && b[k].totalWeight > 0
      ensures forall c :: Weigh(b[k], c) == Weigh(a[k], c)
    {
      SameFields(a[k], b[k]);
    }
    SamePriorities(a, b);
    forall k, c | 0 <= k < |b|
      ensures Weigh(b[k], c) == WeightAt(ms, b[k].priority, c)
    {
      assert Weigh(b[k], c) == Weigh(a[k], c);
    }
  }

  /** With no availability anywhere the zero shares are the routed ones. */
  lemma NothingToShare(gs: seq<PriorityGroup>, config: PriorityConfig)
    requires Total(Effective(gs)) == 0 && Flagged(gs, true, config)
    requires forall k :: 0 <= k < |gs| ==> gs[k].traffic == 0
    ensures IsRouted(gs, config)
  {
    hide Total;
    var effs := Effective(gs);
    TotalZeroIff(effs);
  }
}
