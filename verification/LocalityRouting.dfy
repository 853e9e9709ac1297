/** Locality routing, second half: availability-scaled weights and the locality and endpoint draws. */
module LocalityRouting {
  import opened Arith
  import opened Core
  import opened LocalityGroups
  import opened Priority
  import opened PriorityGroups
  import opened SeqSums
  import opened Sorting
  import opened Tickets

  datatype LocalityDecision = LocalityDecision(
    selection: nat, priority: u32, mode: PriorityMode, localityWeight: Weight, effectiveLocalityWeight: u64)

  /** Configured weight scaled by availability; rounding never silences a locality with endpoints to offer. */
  function ScaledWeight(configured: Weight, selected: u64, total: u64, factorPercent: u32): (r: u64)
    requires total > 0
    ensures r > 0 <==> selected > 0
  {
    var units := RatioUnits(selected, total, factorPercent);
    RatioIsZeroIff(selected, total, factorPercent);
    var availability := if selected > 0 && units == 0 then 1 else units;
    ScaleFits(configured, availability);
    configured * availability
  }

  lemma ScaleFits(configured: Weight, availability: nat)
    requires availability <= TRAFFIC_UNITS
    ensures 0 <= configured * availability < U64_LIMIT
    ensures configured * availability > 0 <==> availability > 0
  {
    MulMonotone(configured, availability, U32_LIMIT - 1, TRAFFIC_UNITS);
    MulMonotone(1, availability, configured, availability);
  }

  /**
   * The scale is the greatest number of units the availability covers, but never less than one where anything is
   * selected.
   */
  lemma ScaleIsFloorOrOne(
      configured: Weight, selected: u64, total: u64, factorPercent: u32) returns (units: nat)
    requires total > 0
    ensures ScaledWeight(configured, selected, total, factorPercent) == configured * units
    ensures selected == 0 ==> units == 0
    ensures selected > 0 ==> 1 <= units <= TRAFFIC_UNITS
    ensures units > 1 ==> units * total * 100 <= selected * factorPercent * TRAFFIC_UNITS
    ensures units < TRAFFIC_UNITS ==> (units + 1) * total * 100 > selected * factorPercent * TRAFFIC_UNITS
  {
    var floor := RatioUnits(selected, total, factorPercent);
    RatioIsZeroIff(selected, total, factorPercent);
    units := if selected > 0 && floor == 0 then 1 else floor;
    RatioIsFloor(selected, total, factorPercent, units);
    if units < TRAFFIC_UNITS {
      RatioIsFloor(selected, total, factorPercent, units + 1);
    }
  }

  predicate Scaled(g: LocalityGroup, factorPercent: u32) {
    && 0 < g.total < U64_LIMIT && g.selected < U64_LIMIT
    && g.effectiveWeight == ScaledWeight(g.configuredWeight, g.selected, g.total, factorPercent)
  }

  ghost predicate IsScaled(gs: seq<LocalityGroup>, factorPercent: u32) {
    forall k :: 0 <= k < |gs| ==> Scaled(gs[k], factorPercent)
  }

  /** Some locality's endpoint weight does not fit 64 bits. */
  ghost predicate TooHeavy(es: seq<LocalityGroup>) {
    exists e, only :: e in es && SumBy(es, EntryPart(e.locality, only)) >= U64_LIMIT
  }

  function EffectiveWeights(gs: seq<LocalityGroup>): (r: seq<nat>)
    ensures |r| == |gs| && forall k :: 0 <= k < |r| ==> r[k] == gs[k].effectiveWeight
  {
    seq(|gs|, k requires 0 <= k < |gs| => gs[k].effectiveWeight)
  }

  /** Tickets of the endpoints the scope selects at one locality. */
  function EndpointWeights<Id>(
      cs: seq<LocalityCandidate<Id>>, ms: seq<MemberSample>, scope: PriorityScope, at: Locality): (r: seq<nat>)
    ensures |r| == |ms| && forall k :: 0 <= k < |r| ==> r[k] == EndpointPart(cs, scope, at, true)(ms[k])
  {
    seq<nat>(|ms|, k requires 0 <= k < |ms| => EndpointPart(cs, scope, at, true)(ms[k]))
  }

  lemma EntriesWeigh<Id>(
      cs: seq<LocalityCandidate<Id>>, ms: seq<MemberSample>, scope: PriorityScope, g: LocalityGroup)
    requires Indexed(ms, cs) && g.locality in Localities(Entries(cs, ms, scope))
    requires forall only :: Amount(g, only) == SumBy(Entries(cs, ms, scope), EntryPart(g.locality, only))
    ensures g.total > 0
  {
    hide SumBy;
    var es := Entries(cs, ms, scope);
    SumZeroIff(es, EntryPart(g.locality, false));
    var e :| e in es && e.locality == g.locality;
    var k :| 0 <= k < |es| && es[k] == e;
    assert Amount(g, false) == SumBy(es, EntryPart(g.locality, false)) > 0;
  }

  class LocalityWeightedRandom {
    const priority: PriorityWeightedRandom
    var localities: seq<LocalityGroup>

    constructor (priority: PriorityWeightedRandom)
      ensures this.priority == priority && localities == []
    {
      this.priority := priority;
      localities := [];
    }

    /** Push one entry per member of the priority. */
    method Gather<Id>(cs: seq<LocalityCandidate<Id>>, scope: PriorityScope)
      requires Indexed(priority.members, cs)
      modifies this`localities
      ensures localities == Entries(cs, priority.members, scope)
    {
      ghost var ms := priority.members;
      localities := [];
      for i := 0 to |priority.members|
        invariant localities == Entries(cs, ms[..i], scope)
      {
        assert ms[..i + 1][..i] == ms[..i];
        if priority.members[i].priority == scope.priority {
          localities := localities + [EntryOf(cs, priority.members[i], scope)];
        }
      }
      assert ms[..|ms|] == ms;
    }

    /** Sort, fold equal neighbours together, and report any locality left over twice. */
    method SortAndFold() returns (consistent: bool)
      modifies this`localities
      ensures consistent <==> !Clashes(old(localities))
      ensures consistent ==> IsLocalized(old(localities), localities)
    {
      hide Folding, Clashes, IsLocalized, HasRepeat;
      ghost var es := localities;
      var sorted := SortUnstable(localities, LeqLocality);
      var kept: seq<LocalityGroup> := [];
      FoldStarts(sorted);
      for read := 0 to |sorted|
        invariant Folding(kept, sorted, read)
      {
        var later := sorted[read];
        if kept == [] || kept[|kept| - 1].locality != later.locality {
          FoldOpens(kept, sorted, read);
          kept := kept + [later];
        } else if kept[|kept| - 1].configuredWeight != later.configuredWeight {
          FoldKeepsConflict(kept, sorted, read);
          kept := kept + [later];
        } else {
          FoldMerges(kept, sorted, read);
          kept := kept[|kept| - 1 := Fold(kept[|kept| - 1], later)];
        }
      }
      FoldDone(kept, sorted, es);
      localities := kept;
      consistent := NoRepeat(kept);
    }

    method ScaleWeights(ghost es: seq<LocalityGroup>) returns (r: Result<(), PickError>)
      requires IsLocalized(es, localities) && forall k :: 0 <= k < |localities| ==> localities[k].total > 0
      modifies this`localities
      ensures r == if TooHeavy(es) then Err(WeightOverflow) else Ok(())
      ensures r.Ok? ==>
        IsLocalized(es, localities) && IsScaled(localities, priority.config.overprovisioningFactorPercent)
    {
      hide SumBy, ScaledWeight, IsLocalized, TooHeavy;
      ghost var before := localities;
      for i := 0 to |localities|
        invariant Rescaled(before, localities)
          && IsScaled(localities[..i], priority.config.overprovisioningFactorPercent)
      {
        var g := localities[i];
        if g.total >= U64_LIMIT || g.selected >= U64_LIMIT {
          RescaledStaysLocalized(es, before, localities);
          HeavyGroup(es, localities, i);
          return Err(WeightOverflow);
        }
        SameGroup(before[i], g);
        var weight := ScaledWeight(g.configuredWeight, g.selected, g.total,
          priority.config.overprovisioningFactorPercent);
        ScaledStep(localities, i, weight, priority.config.overprovisioningFactorPercent);
        localities := localities[i := g.(effectiveWeight := weight)];
      }
      assert localities[..|localities|] == localities;
      RescaledStaysLocalized(es, before, localities);
      NoHeavyGroup(es, localities);
      return Ok(());
    }

    method CalculateLocalities<Id>(
        cs: seq<LocalityCandidate<Id>>, scope: PriorityScope) returns (r: Result<(), PickError>)
      requires Indexed(priority.members, cs)
      modifies this`localities
      ensures var es := Entries(cs, priority.members, scope);
        && r == (if Clashes(es) then Err(InconsistentTopology)
                 else if TooHeavy(es) then Err(WeightOverflow) else Ok(()))
        && (r.Ok? ==>
              IsLocalized(es, localities) && IsScaled(localities, priority.config.overprovisioningFactorPercent))
    {
      hide Clashes, TooHeavy, SumBy, ScaledWeight;
      Gather(cs, scope);
      ghost var es := localities;
      var consistent := SortAndFold();
      if !consistent {
        return Err(InconsistentTopology);
      }
      forall k | 0 <= k < |localities|
        ensures localities[k].total > 0
      {
        assert localities[k].locality in Localities(localities);
        EntriesWeigh(cs, priority.members, scope, localities[k]);
      }
      hide IsLocalized, Entries;
      r := ScaleWeights(es);
    }

    /** The two draws inside a granted scope; neither can come up empty. */
    method DecideInScope<Id>(cs: seq<LocalityCandidate<Id>>, scope: PriorityScope, localityDraw: nat, endpointDraw: nat)
      returns (r: Result<LocalityDecision, PickError>)
      requires Indexed(priority.members, cs) && HasCapacity(priority.members, scope)
      modifies this`localities
      ensures Outcome(cs, priority.members, scope, localities, priority.config.overprovisioningFactorPercent,
                      localityDraw, endpointDraw, r)
    {
      hide Total, Owner, Clashes, TooHeavy, Entries, IsLocalized, Scaled, HasCapacity, EndpointPart, SumBy;
      var calculated := CalculateLocalities(cs, scope);
      NeverTooHeavy(cs, priority.members, scope);
      if calculated.Err? {
        return Err(calculated.error);
      }
      ghost var gs, weights := localities, EffectiveWeights(localities);
      SomeLocalityOffers(cs, priority.members, scope, localities, priority.config.overprovisioningFactorPercent);
      var total := 0;
      TotalOfNone(weights);
      for i := 0 to |localities|
        invariant localities == gs && total == Total(weights[..i]) < U64_LIMIT
      {
        TotalStep(weights, i);
        TotalOfWhole(weights, i);
        if total + localities[i].effectiveWeight >= U64_LIMIT {
          return Err(WeightOverflow);
        }
        total := total + localities[i].effectiveWeight;
      }
      TotalOfWhole(weights, |weights|);
      var localityTicket := localityDraw % total;
      var at := Scan(EffectiveWeights(localities), localityTicket);
      OneOwner(weights, at.value, Owner(weights, localityTicket), localityTicket);
      OwnerHasWeight(weights, localityTicket);
      var chosen := localities[at.value];
      var endpoints := EndpointWeights(cs, priority.members, scope, chosen.locality);
      ChosenHasEndpoints(cs, priority.members, scope, localities, priority.config.overprovisioningFactorPercent,
        at.value);
      var endpointTicket := endpointDraw % chosen.selected;
      var selected := Scan(endpoints, endpointTicket);
      OneOwner(endpoints, selected.value, Owner(endpoints, endpointTicket), endpointTicket);
      return Ok(LocalityDecision(priority.members[selected.value].index, scope.priority, scope.mode,
                                 chosen.configuredWeight, chosen.effectiveWeight));
    }

    /** Choose a priority, then a locality by its scaled weight, then an endpoint by its own. */
    method Decide<Id>(cs: seq<LocalityCandidate<Id>>, groupDraw: nat, localityDraw: nat, endpointDraw: nat)
      returns (r: Result<LocalityDecision, PickError>)
      modifies this`localities, priority`members, priority`groups
      ensures var inner := Inner(cs);
        if cs == [] then r == Err(Empty)
        else if Sample(inner) == [] then r == Err(NoEligibleCandidates)
        else if Overflows(Sample(inner)) then r == Err(WeightOverflow)
        else
          && priority.members == Sample(inner)
          && IsGrouping(priority.members, priority.groups, priority.config.overprovisioningFactorPercent)
          && IsRouted(priority.groups, priority.config)
          && (match ScopeOf(priority.groups, priority.config, groupDraw)
              case Err(e) => r == Err(e)
              case Ok(scope) =>
                Outcome(cs, priority.members, scope, localities, priority.config.overprovisioningFactorPercent,
                        localityDraw, endpointDraw, r))
    {
      hide Total, Owner, ScopeOf, IsGrouping, IsRouted, Overflows, Outcome, WeightAt;
      var scope := priority.SelectScope(Inner(cs), groupDraw);
      if scope.Err? {
        return Err(scope.error);
      }
      GrantedHasCapacity(priority.members, priority.groups, priority.config, groupDraw, scope.value);
      r := DecideInScope(cs, scope.value, localityDraw, endpointDraw);
    }
  }

  /** The scope selects some weight, and its priority's weight fits 64 bits. */
  ghost predicate HasCapacity(ms: seq<MemberSample>, scope: PriorityScope) {
    && WeightAt(ms, scope.priority, ColumnOf(scope.mode)) > 0
    && WeightAt(ms, scope.priority, Configured) < U64_LIMIT
  }

  lemma GrantedHasCapacity(
      ms: seq<MemberSample>, gs: seq<PriorityGroup>, config: PriorityConfig, draw: nat, scope: PriorityScope)
    requires IsGrouping(ms, gs, config.overprovisioningFactorPercent) && IsRouted(gs, config)
    requires ScopeOf(gs, config, draw) == Ok(scope) && !Overflows(ms)
    ensures HasCapacity(ms, scope)
  {
    hide IsGrouping, IsRouted, ScopeOf, WeightAt, Total;
    GrantedScopeHasTickets(ms, gs, config, draw, scope);
    ScopeWeightsTotal(ms, scope);
  }

  /** What the two draws give: a conflict, an overflow of the scaled weights, or the owners of both tickets. */
  ghost predicate Outcome<Id>(
      cs: seq<LocalityCandidate<Id>>, ms: seq<MemberSample>, scope: PriorityScope, gs: seq<LocalityGroup>,
      factorPercent: u32, localityDraw: nat, endpointDraw: nat, r: Result<LocalityDecision, PickError>)
  {
    && Indexed(ms, cs)
    && var es := Entries(cs, ms, scope);
       if Clashes(es) then r == Err(InconsistentTopology)
       else
         && IsLocalized(es, gs) && IsScaled(gs, factorPercent)
         && var weights := EffectiveWeights(gs);
            if Total(weights) >= U64_LIMIT then r == Err(WeightOverflow)
            else
              && Total(weights) > 0
              && var g := gs[Owner(weights, localityDraw % Total(weights))];
                 var endpoints := EndpointWeights(cs, ms, scope, g.locality);
                 && Total(endpoints) > 0
                 && r == Ok(LocalityDecision(ms[Owner(endpoints, endpointDraw % Total(endpoints))].index,
                                             scope.priority, scope.mode, g.configuredWeight, g.effectiveWeight))
  }

  /** No locality outweighs its priority, so its sums always fit. */
  lemma NeverTooHeavy<Id>(
      cs: seq<LocalityCandidate<Id>>, ms: seq<MemberSample>, scope: PriorityScope)
    requires Indexed(ms, cs) && HasCapacity(ms, scope)
    ensures !TooHeavy(Entries(cs, ms, scope))
  {
    hide SumBy, Entries;
    forall at, only
      ensures SumBy(Entries(cs, ms, scope), EntryPart(at, only)) < U64_LIMIT
    {
      EntriesSum(cs, ms, scope, at, only);
      SumAtMost(ms, EndpointPart(cs, scope, at, only), MemberPart(scope.priority, Configured));
    }
  }

  /** Someone in scope belongs to a locality, and that locality keeps a positive weight. */
  lemma SomeLocalityOffers<Id>(
      cs: seq<LocalityCandidate<Id>>, ms: seq<MemberSample>, scope: PriorityScope, gs: seq<LocalityGroup>,
      factorPercent: u32)
    requires Indexed(ms, cs) && HasCapacity(ms, scope)
    requires IsLocalized(Entries(cs, ms, scope), gs) && IsScaled(gs, factorPercent)
    ensures Total(EffectiveWeights(gs)) > 0
  {
    hide SumBy, Total, Increasing;
    var es := Entries(cs, ms, scope);
    WeightPositiveIff(ms, scope.priority, ColumnOf(scope.mode));
    var m :| m in ms && m.priority == scope.priority && Has(m, ColumnOf(scope.mode));
    var e := EntryOf(cs, m, scope);
    assert e in es && e.locality in Localities(gs) && e.selected > 0;
    var g :| g in gs && g.locality == e.locality;
    var k :| 0 <= k < |gs| && gs[k] == g;
    SumZeroIff(es, EntryPart(g.locality, true));
    var j :| 0 <= j < |es| && es[j] == e;
    assert Amount(gs[k], true) == SumBy(es, EntryPart(gs[k].locality, true)) > 0;
    TotalZeroIff(EffectiveWeights(gs));
    assert EffectiveWeights(gs)[k] > 0;
  }

  /** The chosen locality's tickets are exactly its selected endpoint weight, and there is at least one. */
  lemma ChosenHasEndpoints<Id>(
      cs: seq<LocalityCandidate<Id>>, ms: seq<MemberSample>, scope: PriorityScope, gs: seq<LocalityGroup>,
      factorPercent: u32, k: nat)
    requires Indexed(ms, cs) && k < |gs|
    requires IsLocalized(Entries(cs, ms, scope), gs) && IsScaled(gs, factorPercent) && gs[k].effectiveWeight > 0
    ensures Total(EndpointWeights(cs, ms, scope, gs[k].locality)) == gs[k].selected > 0
  {
    hide SumBy, Total, Entries, ScaledWeight;
    var at := gs[k].locality;
    EntriesSum(cs, ms, scope, at, true);
    TotalIsSum(EndpointWeights(cs, ms, scope, at), ms, EndpointPart(cs, scope, at, true));
    assert Amount(gs[k], true) == SumBy(Entries(cs, ms, scope), EntryPart(at, true));
  }

  /** A decision names an endpoint of its priority, mode and locality, at the weight that endpoint advertises. */
  lemma DecisionIsConsistent<Id>(
      cs: seq<LocalityCandidate<Id>>, ms: seq<MemberSample>, scope: PriorityScope, gs: seq<LocalityGroup>,
      factorPercent: u32, localityDraw: nat, endpointDraw: nat, d: LocalityDecision)
    requires Outcome(cs, ms, scope, gs, factorPercent, localityDraw, endpointDraw, Ok(d))
    ensures exists m :: m in ms && m.index == d.selection < |cs| && MemberInScope(m, scope)
    ensures d.localityWeight == cs[d.selection].localityWeight && d.effectiveLocalityWeight > 0
  {
    hide SumBy, Total, Owner, Clashes;
    var weights := EffectiveWeights(gs);
    OwnerHasWeight(weights, localityDraw % Total(weights));
    var g := gs[Owner(weights, localityDraw % Total(weights))];
    var endpoints := EndpointWeights(cs, ms, scope, g.locality);
    var k := Owner(endpoints, endpointDraw % Total(endpoints));
    OwnerHasWeight(endpoints, endpointDraw % Total(endpoints));
    assert EndpointPart(cs, scope, g.locality, true)(ms[k]) > 0;
    assert EntryOf(cs, ms[k], scope) in Entries(cs, ms, scope);
  }

  method NoRepeat(gs: seq<LocalityGroup>) returns (r: bool)
    ensures r <==> !HasRepeat(gs)
  {
    for i := 0 to |gs|
      invariant forall j, k :: 0 <= j < k < i && k == j + 1 ==> gs[j].locality != gs[k].locality
    {
      if i > 0 && gs[i - 1].locality == gs[i].locality {
        return false;
      }
    }
    return true;
  }

  ghost predicate Rescaled(a: seq<LocalityGroup>, b: seq<LocalityGroup>) {
    |a| == |b| && forall k :: 0 <= k < |a| ==> a[k].(effectiveWeight := 0) == b[k].(effectiveWeight := 0)
  }

  lemma SameGroup(a: LocalityGroup, b: LocalityGroup)
    requires a.(effectiveWeight := 0) == b.(effectiveWeight := 0)
    ensures a.locality == b.locality && a.configuredWeight == b.configuredWeight
    ensures a.total == b.total && forall only :: Amount(a, only) == Amount(b, only)
  {
    var x, y := a.(effectiveWeight := 0), b.(effectiveWeight := 0);
    assert x.locality == y.locality && x.configuredWeight == y.configuredWeight && x.total == y.total
      && x.selected == y.selected;
  }

  lemma RescaledStaysLocalized(es: seq<LocalityGroup>, a: seq<LocalityGroup>, b: seq<LocalityGroup>)
    requires IsLocalized(es, a) && Rescaled(a, b)
    ensures IsLocalized(es, b)
  {
    hide SumBy;
    forall k | 0 <= k < |a|
      ensures a[k].locality == b[k].locality && a[k].configuredWeight == b[k].configuredWeight
      ensures forall only :: Amount(a[k], only) == Amount(b[k], only)
    {
      SameGroup(a[k], b[k]);
    }
    SameLocalities(a, b);
  }

  lemma ScaledStep(gs: seq<LocalityGroup>, i: nat, weight: u64, factorPercent: u32)
    requires i < |gs| && IsScaled(gs[..i], factorPercent) && Scaled(gs[i].(effectiveWeight := weight), factorPercent)
    ensures IsScaled(gs[i := gs[i].(effectiveWeight := weight)][..i + 1], factorPercent)
  {
    hide Scaled;
    assert gs[i := gs[i].(effectiveWeight := weight)][..i + 1] == gs[..i] + [gs[i].(effectiveWeight := weight)];
  }

  lemma HeavyGroup(es: seq<LocalityGroup>, gs: seq<LocalityGroup>, i: nat)
    requires IsLocalized(es, gs) && i < |gs| && (gs[i].total >= U64_LIMIT || gs[i].selected >= U64_LIMIT)
    ensures TooHeavy(es)
  {
    hide SumBy;
    assert gs[i].locality in Localities(gs);
    var e :| e in es && e.locality == gs[i].locality;
    var only := gs[i].total < U64_LIMIT;
    assert Amount(gs[i], only) == SumBy(es, EntryPart(e.locality, only));
  }

  lemma NoHeavyGroup(es: seq<LocalityGroup>, gs: seq<LocalityGroup>)
    requires IsLocalized(es, gs) && forall k :: 0 <= k < |gs| ==> gs[k].total < U64_LIMIT && gs[k].selected < U64_LIMIT
    ensures !TooHeavy(es)
  {
    hide SumBy;
    forall e, only | e in es
      ensures SumBy(es, EntryPart(e.locality, only)) < U64_LIMIT
    {
      assert e.locality in Localities(es);
      var g :| g in gs && g.locality == e.locality;
      var k :| 0 <= k < |gs| && gs[k] == g;
      assert Amount(gs[k], only) == SumBy(es, EntryPart(gs[k].locality, only));
    }
  }
}
