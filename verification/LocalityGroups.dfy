/** Locality routing, first half: sampled endpoints sorted and deduplicated into one group per locality. */
module LocalityGroups {
  import opened Core
  import opened Priority
  import opened PriorityGroups
  import opened SeqSums
  import opened Sorting

  /** Locality labels, numbered in their own order. */
  type Locality = int

  datatype LocalityCandidate<+Id> = LocalityCandidate(
    inner: PriorityCandidate<Id>, locality: Locality, localityWeight: Weight)

  datatype LocalityGroup = LocalityGroup(
    locality: Locality, configuredWeight: Weight, total: nat, selected: nat, effectiveWeight: u64)

  function Inner<Id>(cs: seq<LocalityCandidate<Id>>): (r: seq<PriorityCandidate<Id>>)
    ensures |r| == |cs| && forall k :: 0 <= k < |r| ==> r[k] == cs[k].inner
  {
    seq(|cs|, k requires 0 <= k < |cs| => cs[k].inner)
  }

  predicate Indexed<Id>(ms: seq<MemberSample>, cs: seq<LocalityCandidate<Id>>) {
    forall k :: 0 <= k < |ms| ==> ms[k].index < |cs|
  }

  function EntryOf<Id>(cs: seq<LocalityCandidate<Id>>, m: MemberSample, scope: PriorityScope): LocalityGroup
    requires m.index < |cs|
  {
    LocalityGroup(cs[m.index].locality, cs[m.index].localityWeight, m.weight,
                  if MemberInScope(m, scope) then m.weight else 0, 0)
  }

  /** One entry per member of the scope's priority. */
  function Entries<Id>(
      cs: seq<LocalityCandidate<Id>>, ms: seq<MemberSample>, scope: PriorityScope): (es: seq<LocalityGroup>)
    requires Indexed(ms, cs)
    ensures forall e :: e in es <==>
      exists m :: m in ms && m.priority == scope.priority && m.index < |cs| && e == EntryOf(cs, m, scope)
  {
    if ms == [] then [] else
      var last := |ms| - 1;
      assert ms == ms[..last] + [ms[last]];
      var es := Entries(cs, ms[..last], scope);
      if ms[last].priority == scope.priority then es + [EntryOf(cs, ms[last], scope)] else es
  }

  function Amount(g: LocalityGroup, selectedOnly: bool): nat {
    if selectedOnly then g.selected else g.total
  }

  function EntryPart(at: Locality, selectedOnly: bool): LocalityGroup -> nat {
    (g: LocalityGroup) => if g.locality == at then Amount(g, selectedOnly) else 0
  }

  /** Endpoint weight at a locality: of all its members, or of those the scope selects. */
  function EndpointPart<Id>(
      cs: seq<LocalityCandidate<Id>>, scope: PriorityScope, at: Locality, selectedOnly: bool): MemberSample -> nat {
    (m: MemberSample) =>
      if && m.index < |cs| && cs[m.index].locality == at && m.priority == scope.priority
         && (!selectedOnly || MemberInScope(m, scope))
      then m.weight else 0
  }

  lemma {:induction false} EntriesSum<Id>(
      cs: seq<LocalityCandidate<Id>>, ms: seq<MemberSample>, scope: PriorityScope, at: Locality, selectedOnly: bool)
    requires Indexed(ms, cs)
    ensures SumBy(Entries(cs, ms, scope), EntryPart(at, selectedOnly)) ==
      SumBy(ms, EndpointPart(cs, scope, at, selectedOnly))
  {
    if ms != [] {
      var last := |ms| - 1;
      EntriesSum(cs, ms[..last], scope, at, selectedOnly);
      var before, after := Entries(cs, ms[..last], scope), Entries(cs, ms, scope);
      assert after == if ms[last].priority == scope.priority then before + [EntryOf(cs, ms[last], scope)] else before;
      hide Entries;
      if ms[last].priority == scope.priority {
        assert after[..|after| - 1] == before;
      }
    }
  }

  /** Two members claim different weights for one locality. */
  ghost predicate Clashes(es: seq<LocalityGroup>) {
    exists x, y :: x in es && y in es && x.locality == y.locality && x.configuredWeight != y.configuredWeight
  }

  ghost predicate HasRepeat(gs: seq<LocalityGroup>) {
    exists j, k :: 0 <= j < k < |gs| && k == j + 1 && gs[j].locality == gs[k].locality
  }

  function Localities(gs: seq<LocalityGroup>): set<Locality> {
    set g | g in gs :: g.locality
  }

  /** One group per locality, in order, with the agreed weight and exact endpoint sums. */
  ghost predicate IsLocalized(es: seq<LocalityGroup>, gs: seq<LocalityGroup>) {
    && (forall j, k :: 0 <= j < k < |gs| ==> gs[j].locality < gs[k].locality)
    && Localities(gs) == Localities(es)
    && (forall k, only :: 0 <= k < |gs| ==> Amount(gs[k], only) == SumBy(es, EntryPart(gs[k].locality, only)))
    && (forall k, e :: 0 <= k < |gs| && e in es && e.locality == gs[k].locality ==>
      e.configuredWeight == gs[k].configuredWeight)
  }

  predicate LeqLocality(a: LocalityGroup, b: LocalityGroup) {
    a.locality <= b.locality
  }

  /** Deduplication so far: the first `read` sorted entries have been folded into `kept`. */
  ghost predicate Folding(kept: seq<LocalityGroup>, sorted: seq<LocalityGroup>, read: nat) {
    && read <= |sorted| && (kept == [] <==> read == 0)
    && (read > 0 ==>
          && kept[|kept| - 1].locality == sorted[read - 1].locality
          && kept[|kept| - 1].configuredWeight == sorted[read - 1].configuredWeight)
    && if Clashes(sorted[..read]) then HasRepeat(kept) else IsLocalized(sorted[..read], kept)
  }

  lemma LocalitiesGrow(gs: seq<LocalityGroup>, g: LocalityGroup)
    ensures Localities(gs + [g]) == Localities(gs) + {g.locality}
  {
  }

  lemma FoldStarts(sorted: seq<LocalityGroup>)
    ensures Folding([], sorted, 0)
  {
    assert sorted[..0] == [];
    assert !Clashes([]);
  }

  lemma RepeatStays(kept: seq<LocalityGroup>, g: LocalityGroup)
    requires HasRepeat(kept)
    ensures HasRepeat(kept + [g])
  {
    var j, k :| 0 <= j < k < |kept| && k == j + 1 && kept[j].locality == kept[k].locality;
    assert (kept + [g])[j] == kept[j] && (kept + [g])[k] == kept[k];
  }

  lemma ClashStays(sorted: seq<LocalityGroup>, read: nat)
    requires read < |sorted|
    ensures sorted[..read + 1] == sorted[..read] + [sorted[read]]
    ensures Clashes(sorted[..read]) ==> Clashes(sorted[..read + 1])
    ensures Clashes(sorted[..read + 1]) ==>
      || Clashes(sorted[..read])
      || (exists x :: x in sorted[..read] && x.locality == sorted[read].locality &&
                      x.configuredWeight != sorted[read].configuredWeight)
  {
  }

  /** An entry for a new locality opens a group of its own. */
  lemma FoldOpens(kept: seq<LocalityGroup>, sorted: seq<LocalityGroup>, read: nat)
    requires Folding(kept, sorted, read) && Sorted(sorted, LeqLocality) && read < |sorted|
    requires kept == [] || kept[|kept| - 1].locality != sorted[read].locality
    ensures Folding(kept + [sorted[read]], sorted, read + 1)
  {
    hide SumBy, Localities, HasRepeat;
    var g := sorted[read];
    ClashStays(sorted, read);
    forall x | x in sorted[..read]
      ensures x.locality < g.locality
    {
      var j :| 0 <= j < read && sorted[j] == x;
      assert LeqLocality(sorted[j], sorted[read - 1]) || j == read - 1;
      assert LeqLocality(sorted[read - 1], g);
    }
    if Clashes(sorted[..read]) {
      RepeatStays(kept, g);
    } else {
      OpenedIsLocalized(kept, sorted[..read], g);
    }
  }

  lemma OpenedIsLocalized(kept: seq<LocalityGroup>, es: seq<LocalityGroup>, g: LocalityGroup)
    requires IsLocalized(es, kept) && forall x :: x in es ==> x.locality < g.locality
    ensures IsLocalized(es + [g], kept + [g])
  {
    var after := kept + [g];
    assert forall k :: 0 <= k < |kept| ==> kept[k].locality < g.locality by {
      forall k | 0 <= k < |kept|
        ensures kept[k].locality < g.locality
      {
        assert kept[k].locality in Localities(kept);
      }
    }
    forall k, only | 0 <= k < |after|
      ensures Amount(after[k], only) == SumBy(es + [g], EntryPart(after[k].locality, only))
    {
      hide SumBy;
      var f := EntryPart(after[k].locality, only);
      SumStep(es + [g], |es|, f);
      assert (es + [g])[..|es|] == es && (es + [g])[..|es| + 1] == es + [g];
      if k == |kept| {
        SumZeroIff(es, f);
      }
    }
    LocalitiesGrow(es, g);
    LocalitiesGrow(kept, g);
  }

  function Fold(a: LocalityGroup, b: LocalityGroup): LocalityGroup {
    a.(total := a.total + b.total, selected := a.selected + b.selected)
  }

  /** An entry that agrees with the last group is added into it. */
  lemma FoldMerges(kept: seq<LocalityGroup>, sorted: seq<LocalityGroup>, read: nat)
    requires Folding(kept, sorted, read) && read < |sorted| && kept != []
    requires kept[|kept| - 1].locality == sorted[read].locality
    requires kept[|kept| - 1].configuredWeight == sorted[read].configuredWeight
    ensures Folding(kept[|kept| - 1 := Fold(kept[|kept| - 1], sorted[read])], sorted, read + 1)
  {
    hide SumBy, Localities, HasRepeat;
    var last := |kept| - 1;
    ClashStays(sorted, read);
    if Clashes(sorted[..read]) {
      RepeatSurvivesMerge(kept, sorted[read]);
    } else {
      assert forall x :: x in sorted[..read] && x.locality == kept[last].locality ==>
        x.configuredWeight == kept[last].configuredWeight;
      MergedIsLocalized(kept, sorted[..read], sorted[read]);
    }
  }

  lemma RepeatSurvivesMerge(kept: seq<LocalityGroup>, g: LocalityGroup)
    requires kept != [] && HasRepeat(kept)
    ensures HasRepeat(kept[|kept| - 1 := Fold(kept[|kept| - 1], g)])
  {
    var j, k :| 0 <= j < k < |kept| && k == j + 1 && kept[j].locality == kept[k].locality;
    var after := kept[|kept| - 1 := Fold(kept[|kept| - 1], g)];
    assert after[j].locality == after[k].locality;
  }

  lemma MergedIsLocalized(kept: seq<LocalityGroup>, es: seq<LocalityGroup>, g: LocalityGroup)
    requires IsLocalized(es, kept) && kept != []
    requires g.locality == kept[|kept| - 1].locality && g.configuredWeight == kept[|kept| - 1].configuredWeight
    ensures IsLocalized(es + [g], kept[|kept| - 1 := Fold(kept[|kept| - 1], g)])
  {
    hide SumBy;
    var last := |kept| - 1;
    var after := kept[last := Fold(kept[last], g)];
    forall k, only | 0 <= k < |after|
      ensures Amount(after[k], only) == SumBy(es + [g], EntryPart(after[k].locality, only))
    {
      var f := EntryPart(after[k].locality, only);
      SumStep(es + [g], |es|, f);
      assert (es + [g])[..|es|] == es && (es + [g])[..|es| + 1] == es + [g];
    }
    LocalitiesGrow(es, g);
    assert kept[last].locality in Localities(kept);
    SameLocalities(kept, after);
  }

  lemma SameLocalities(a: seq<LocalityGroup>, b: seq<LocalityGroup>)
    requires |a| == |b| && forall k :: 0 <= k < |a| ==> a[k].locality == b[k].locality
    ensures Localities(a) == Localities(b)
  {
    forall p
      ensures p in Localities(a) <==> p in Localities(b)
    {
      if p in Localities(a) {
        var k :| 0 <= k < |a| && a[k].locality == p;
        assert b[k] in b;
      }
      if p in Localities(b) {
        var k :| 0 <= k < |b| && b[k].locality == p;
        assert a[k] in a;
      }
    }
  }

  /** An entry that disagrees is kept beside the last group, for the validation pass to find. */
  lemma FoldKeepsConflict(kept: seq<LocalityGroup>, sorted: seq<LocalityGroup>, read: nat)
    requires Folding(kept, sorted, read) && read < |sorted| && kept != []
    requires kept[|kept| - 1].locality == sorted[read].locality
    requires kept[|kept| - 1].configuredWeight != sorted[read].configuredWeight
    ensures Folding(kept + [sorted[read]], sorted, read + 1) && Clashes(sorted[..read + 1])
  {
    var after := kept + [sorted[read]];
    assert sorted[read - 1] in sorted[..read + 1] && sorted[read] in sorted[..read + 1];
    assert after[|kept| - 1].locality == after[|kept|].locality;
  }

  /** The validation pass fires exactly on a conflict, however the sort ordered the entries. */
  lemma FoldDone(kept: seq<LocalityGroup>, sorted: seq<LocalityGroup>, es: seq<LocalityGroup>)
    requires Folding(kept, sorted, |sorted|) && multiset(sorted) == multiset(es)
    ensures HasRepeat(kept) <==> Clashes(es)
    ensures !Clashes(es) ==> IsLocalized(es, kept)
  {
    hide SumBy;
    assert sorted[..|sorted|] == sorted;
    assert forall e :: e in sorted <==> e in multiset(sorted);
    assert forall e :: e in es <==> e in multiset(es);
    if !Clashes(sorted) {
      forall k, only | 0 <= k < |kept|
        ensures Amount(kept[k], only) == SumBy(es, EntryPart(kept[k].locality, only))
      {
        SumOfPermutation(sorted, es, EntryPart(kept[k].locality, only));
      }
    }
  }
}
