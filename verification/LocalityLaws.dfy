/** What locality routing promises over every draw, and that ties in its sort leave no trace. */
module LocalityLaws {
  import opened Core
  import opened LocalityGroups
  import opened LocalityRouting
  import opened Priority
  import opened PriorityGroups
  import opened SeqSums
  import opened Sorting
  import opened Tickets

  function Labels(gs: seq<LocalityGroup>): (r: seq<Locality>)
    ensures |r| == |gs| && forall k :: 0 <= k < |r| ==> r[k] == gs[k].locality
  {
    seq(|gs|, k requires 0 <= k < |gs| => gs[k].locality)
  }

  predicate AtMost(a: Locality, b: Locality) {
    a <= b
  }

  lemma LabelsOfGroups(gs: seq<LocalityGroup>, at: Locality)
    ensures at in Labels(gs) <==> at in Localities(gs)
  {
    if at in Labels(gs) {
      var k :| 0 <= k < |gs| && Labels(gs)[k] == at;
      assert gs[k] in gs;
    }
    if at in Localities(gs) {
      var k :| 0 <= k < |gs| && gs[k].locality == at;
      assert Labels(gs)[k] == at;
    }
  }

  lemma SameLabels(es: seq<LocalityGroup>, a: seq<LocalityGroup>, b: seq<LocalityGroup>)
    requires IsLocalized(es, a) && IsLocalized(es, b)
    ensures Labels(a) == Labels(b)
  {
    hide SumBy, Localities;
    forall at
      ensures at in Labels(a) <==> at in Labels(b)
    {
      LabelsOfGroups(a, at);
      LabelsOfGroups(b, at);
    }
    assert Distinct(Labels(a)) && Distinct(Labels(b));
    assert Sorted(Labels(a), AtMost) && Sorted(Labels(b), AtMost);
    SameElementsSameMultiset(Labels(a), Labels(b));
    SortedUnique(Labels(a), Labels(b), AtMost);
  }

  lemma GroupIsDetermined(es: seq<LocalityGroup>, a: seq<LocalityGroup>, b: seq<LocalityGroup>, k: nat)
    requires IsLocalized(es, a) && IsLocalized(es, b) && k < |a| && k < |b| && a[k].locality == b[k].locality
    ensures a[k].total == b[k].total && a[k].selected == b[k].selected
    ensures a[k].configuredWeight == b[k].configuredWeight
  {
    hide SumBy;
    assert Amount(a[k], false) == Amount(b[k], false) && Amount(a[k], true) == Amount(b[k], true);
    assert a[k].locality in Localities(es);
    var e :| e in es && e.locality == a[k].locality;
  }

  /** The localities routed between depend only on the members: however ties were sorted, the groups are the same. */
  lemma LocalitiesAreDetermined(
      es: seq<LocalityGroup>, a: seq<LocalityGroup>, b: seq<LocalityGroup>, factorPercent: u32)
    requires IsLocalized(es, a) && IsScaled(a, factorPercent) && IsLocalized(es, b) && IsScaled(b, factorPercent)
    ensures a == b
  {
    hide SumBy, ScaledWeight, IsLocalized, Localities;
    SameLabels(es, a, b);
    assert |Labels(a)| == |a| == |b|;
    forall k | 0 <= k < |a|
      ensures a[k] == b[k]
    {
      assert Labels(a)[k] == Labels(b)[k];
      GroupIsDetermined(es, a, b, k);
      assert Scaled(a[k], factorPercent) && Scaled(b[k], factorPercent);
    }
  }

  /** So two routings of the same members by the same draws decide alike. */
  lemma OutcomeIsDetermined<Id>(
      cs: seq<LocalityCandidate<Id>>, ms: seq<MemberSample>, scope: PriorityScope, a: seq<LocalityGroup>,
      b: seq<LocalityGroup>, factorPercent: u32, localityDraw: nat, endpointDraw: nat,
      r: Result<LocalityDecision, PickError>, s: Result<LocalityDecision, PickError>)
    requires Outcome(cs, ms, scope, a, factorPercent, localityDraw, endpointDraw, r)
    requires Outcome(cs, ms, scope, b, factorPercent, localityDraw, endpointDraw, s)
    ensures r == s
  {
    hide Total, Owner, Entries, Clashes, IsLocalized, IsScaled;
    if !Clashes(Entries(cs, ms, scope)) {
      LocalitiesAreDetermined(Entries(cs, ms, scope), a, b, factorPercent);
    }
  }

  /** A uniform ticket reaches each locality in exactly its scaled weight. */
  lemma LocalityOwnsItsWeight(gs: seq<LocalityGroup>, factorPercent: u32, k: nat)
    requires IsScaled(gs, factorPercent) && k < |gs|
    ensures |Owned(EffectiveWeights(gs), k)| ==
      ScaledWeight(gs[k].configuredWeight, gs[k].selected, gs[k].total, factorPercent)
  {
    hide Owned, ScaledWeight;
    assert Scaled(gs[k], factorPercent);
    TicketsOwned(EffectiveWeights(gs), k);
  }

  /**
   * Inside the chosen locality a uniform ticket reaches each endpoint in scope in exactly its weight, and nobody
   * else.
   */
  lemma EndpointOwnsItsWeight<Id>(
      cs: seq<LocalityCandidate<Id>>, ms: seq<MemberSample>, scope: PriorityScope, at: Locality, k: nat)
    requires Indexed(ms, cs) && k < |ms|
    ensures |Owned(EndpointWeights(cs, ms, scope, at), k)| ==
      if cs[ms[k].index].locality == at && MemberInScope(ms[k], scope) then ms[k].weight else 0
    ensures Total(EndpointWeights(cs, ms, scope, at)) == SumBy(Entries(cs, ms, scope), EntryPart(at, true))
  {
    hide Owned, Total, SumBy, Entries;
    TicketsOwned(EndpointWeights(cs, ms, scope, at), k);
    EntriesSum(cs, ms, scope, at, true);
    TotalIsSum(EndpointWeights(cs, ms, scope, at), ms, EndpointPart(cs, scope, at, true));
  }
}
