/** Priority routing, first half: sampled members sorted and compacted into one group per priority. */
module PriorityGroups {
  import opened Arith
  import opened Core
  import opened SeqSums

  const TRAFFIC_UNITS: int := 1_000_000

  /** What the policy reads of one candidate. */
  datatype PriorityCandidate<+Id> = PriorityCandidate(
    base: Candidate<Id>, priority: u32, isMember: bool, panicEligible: bool)

  datatype MemberSample = MemberSample(index: nat, priority: u32, weight: Weight, eligible: bool, panicEligible: bool)

  datatype PriorityGroup = PriorityGroup(
    priority: u32, totalWeight: u64, eligibleWeight: u64, panicWeight: u64,
    rawAvailability: u64, effectiveAvailability: u64, traffic: u64, panic: bool)

  /** The three weights a group accumulates. */
  datatype Column = Configured | Healthy | PanicEligible

  predicate Has(m: MemberSample, c: Column) {
    c == Configured || (c == Healthy && m.eligible) || (c == PanicEligible && m.panicEligible)
  }

  function Weigh(g: PriorityGroup, c: Column): u64 {
    match c
    case Configured => g.totalWeight
    case Healthy => g.eligibleWeight
    case PanicEligible => g.panicWeight
  }

  /** The priority members among the candidates, in slice order. */
  function Sample<Id>(cs: seq<PriorityCandidate<Id>>): (ms: seq<MemberSample>)
    ensures forall k :: 0 <= k < |ms| ==>
      && ms[k].index < |cs| && cs[ms[k].index].isMember
      && ms[k] == SampleOf(cs, ms[k].index)
      && ms[k].priority == cs[ms[k].index].priority && ms[k].weight == cs[ms[k].index].base.weight
      && ms[k].eligible == cs[ms[k].index].base.eligible && ms[k].panicEligible == cs[ms[k].index].panicEligible
    ensures forall j, k :: 0 <= j < k < |ms| ==> ms[j].index < ms[k].index
    ensures forall i :: 0 <= i < |cs| && cs[i].isMember ==> SampleOf(cs, i) in ms
  {
    if cs == [] then [] else
      var last := |cs| - 1;
      var ms := Sample(cs[..last]);
      assert forall i :: 0 <= i < last ==> cs[..last][i] == cs[i];
      assert forall i :: 0 <= i < last && cs[i].isMember ==>
        SampleOf(cs[..last], i) == SampleOf(cs, i) && SampleOf(cs, i) in ms;
      if cs[last].isMember then ms + [SampleOf(cs, last)] else ms
  }

  function SampleOf<Id>(cs: seq<PriorityCandidate<Id>>, i: nat): MemberSample
    requires i < |cs|
  {
    MemberSample(i, cs[i].priority, cs[i].base.weight, cs[i].base.eligible, cs[i].panicEligible)
  }

  function FromMember(m: MemberSample): PriorityGroup {
    PriorityGroup(m.priority, m.weight, if m.eligible then m.weight else 0, if m.panicEligible then m.weight else 0,
                  0, 0, 0, false)
  }

  function MemberPart(p: u32, c: Column): MemberSample -> nat {
    (m: MemberSample) => if m.priority == p && Has(m, c) then m.weight else 0
  }

  function GroupPart(p: u32, c: Column): PriorityGroup -> nat {
    (g: PriorityGroup) => if g.priority == p then Weigh(g, c) else 0
  }

  /** Weight of the members at priority `p` that count in column `c`. */
  function WeightAt(ms: seq<MemberSample>, p: u32, c: Column): nat {
    SumBy(ms, MemberPart(p, c))
  }

  function SumAt(gs: seq<PriorityGroup>, p: u32, c: Column): nat {
    SumBy(gs, GroupPart(p, c))
  }

  function Singles(ms: seq<MemberSample>): (gs: seq<PriorityGroup>)
    ensures |gs| == |ms| && forall k :: 0 <= k < |gs| ==> gs[k] == FromMember(ms[k])
  {
    seq(|ms|, k requires 0 <= k < |ms| => FromMember(ms[k]))
  }

  /** Sorting the singletons moves no weight between priorities. */
  lemma SortedSum(ms: seq<MemberSample>, sorted: seq<PriorityGroup>, p: u32, c: Column)
    requires multiset(sorted) == multiset(Singles(ms))
    ensures SumAt(sorted, p, c) == WeightAt(ms, p, c)
  {
    SumOfPermutation(sorted, Singles(ms), GroupPart(p, c));
    SameSums(Singles(ms), ms, GroupPart(p, c), MemberPart(p, c));
  }

  lemma ColumnsNest(ms: seq<MemberSample>, p: u32, c: Column)
    ensures WeightAt(ms, p, c) <= WeightAt(ms, p, Configured)
  {
    SumAtMost(ms, MemberPart(p, c), MemberPart(p, Configured));
  }

  lemma WeightPositiveIff(ms: seq<MemberSample>, p: u32, c: Column)
    ensures WeightAt(ms, p, c) > 0 <==> exists m :: m in ms && m.priority == p && Has(m, c)
  {
    SumZeroIff(ms, MemberPart(p, c));
  }

  function Priorities(gs: seq<PriorityGroup>): set<u32> {
    set g | g in gs :: g.priority
  }

  function MemberPriorities(ms: seq<MemberSample>): set<u32> {
    set m | m in ms :: m.priority
  }

  ghost predicate Increasing(gs: seq<PriorityGroup>) {
    forall j, k :: 0 <= j < k < |gs| ==> gs[j].priority < gs[k].priority
  }

  /** Compaction so far: `sorted[..read]` has been merged into `gs[..write]`. */
  ghost predicate Compacting(gs: seq<PriorityGroup>, sorted: seq<PriorityGroup>, write: nat, read: nat) {
    && write <= read <= |sorted| == |gs|
    && (forall k :: read <= k < |gs| ==> gs[k] == sorted[k])
    && Increasing(gs[..write])
    && (forall k, c :: 0 <= k < write ==> Weigh(gs[k], c) == SumAt(sorted[..read], gs[k].priority, c))
    && Priorities(gs[..write]) == Priorities(sorted[..read])
    && (read > 0 ==> write > 0 && gs[write - 1].priority == sorted[read - 1].priority)
  }

  lemma CompactStarts(sorted: seq<PriorityGroup>)
    ensures Compacting(sorted, sorted, 0, 0)
  {
  }

  lemma CompactReadsOriginal(
      gs: seq<PriorityGroup>, sorted: seq<PriorityGroup>, write: nat, read: nat)
    requires Compacting(gs, sorted, write, read) && read < |sorted|
    ensures write <= read && gs[read] == sorted[read]
  {
  }

  ghost predicate ByPriority(gs: seq<PriorityGroup>) {
    forall j, k :: 0 <= j < k < |gs| ==> gs[j].priority <= gs[k].priority
  }

  function Merge(a: PriorityGroup, b: PriorityGroup): PriorityGroup
    requires forall c :: Weigh(a, c) + Weigh(b, c) < U64_LIMIT
  {
    assert Weigh(a, Configured) + Weigh(b, Configured) < U64_LIMIT;
    assert Weigh(a, Healthy) + Weigh(b, Healthy) < U64_LIMIT;
    assert Weigh(a, PanicEligible) + Weigh(b, PanicEligible) < U64_LIMIT;
    a.(totalWeight := a.totalWeight + b.totalWeight,
       eligibleWeight := a.eligibleWeight + b.eligibleWeight,
       panicWeight := a.panicWeight + b.panicWeight)
  }

  lemma MergeWeighs(a: PriorityGroup, b: PriorityGroup, c: Column)
    requires forall c :: Weigh(a, c) + Weigh(b, c) < U64_LIMIT
    ensures Weigh(Merge(a, b), c) == Weigh(a, c) + Weigh(b, c) && Merge(a, b).priority == a.priority
  {
  }

  lemma PrioritiesGrow(gs: seq<PriorityGroup>, i: nat)
    requires i < |gs|
    ensures Priorities(gs[..i + 1]) == Priorities(gs[..i]) + {gs[i].priority}
  {
    assert gs[..i + 1] == gs[..i] + [gs[i]];
  }

  lemma CompactMerges(gs: seq<PriorityGroup>, sorted: seq<PriorityGroup>, write: nat, read: nat)
    requires Compacting(gs, sorted, write, read) && read < |gs| && write > 0
    requires gs[write - 1].priority == gs[read].priority
    requires forall c :: Weigh(gs[write - 1], c) + Weigh(gs[read], c) < U64_LIMIT
    ensures Compacting(gs[write - 1 := Merge(gs[write - 1], gs[read])], sorted, write, read + 1)
  {
    hide SumBy, Weigh, Merge, Priorities;
    var m := write - 1;
    var after := gs[m := Merge(gs[m], gs[read])];
    forall k, c | 0 <= k < write
      ensures Weigh(after[k], c) == SumAt(sorted[..read + 1], after[k].priority, c)
    {
      SumStep(sorted, read, GroupPart(gs[k].priority, c));
      MergeWeighs(gs[m], gs[read], c);
    }
    MergeWeighs(gs[m], gs[read], Configured);
    PrioritiesGrow(sorted, read);
    assert gs[..write][m] in gs[..write];
    SamePriorities(gs[..write], after[..write]);
  }

  lemma SamePriorities(a: seq<PriorityGroup>, b: seq<PriorityGroup>)
    requires |a| == |b| && forall k :: 0 <= k < |a| ==> a[k].priority == b[k].priority
    ensures Priorities(a) == Priorities(b)
    ensures forall k :: 0 <= k < |a| ==> a[k].priority in Priorities(a)
  {
    forall p
      ensures p in Priorities(a) <==> p in Priorities(b)
    {
      if p in Priorities(a) {
        var k :| 0 <= k < |a| && a[k].priority == p;
        assert b[k] in b;
      }
      if p in Priorities(b) {
        var k :| 0 <= k < |b| && b[k].priority == p;
        assert a[k] in a;
      }
    }
    assert forall k :: 0 <= k < |a| ==> a[k] in a;
  }

  lemma CompactAppends(gs: seq<PriorityGroup>, sorted: seq<PriorityGroup>, write: nat, read: nat)
    requires Compacting(gs, sorted, write, read) && ByPriority(sorted) && read < |gs|
    requires write == 0 || gs[write - 1].priority != gs[read].priority
    ensures Compacting(gs[write := gs[read]], sorted, write + 1, read + 1)
  {
    hide SumBy, Weigh, Priorities;
    var after := gs[write := gs[read]];
    forall k | 0 <= k < write
      ensures gs[k].priority < gs[read].priority
    {
      assert sorted[read - 1].priority <= sorted[read].priority;
    }
    forall k, c | 0 <= k < write + 1
      ensures Weigh(after[k], c) == SumAt(sorted[..read + 1], after[k].priority, c)
    {
      SumStep(sorted, read, GroupPart(after[k].priority, c));
      if k == write {
        forall j | 0 <= j < read
          ensures sorted[..read][j].priority != gs[read].priority
        {
          assert sorted[j].priority <= sorted[read - 1].priority;
        }
        SumZeroIff(sorted[..read], GroupPart(gs[read].priority, c));
      }
    }
    PrioritiesGrow(sorted, read);
    PrioritiesGrow(after, write);
    assert after[..write] == gs[..write];
  }

  predicate LeqPriority(a: PriorityGroup, b: PriorityGroup) {
    a.priority <= b.priority
  }

  /** The fixed-point share of capacity available, capped at the whole. */
  function RatioUnits(available: u64, total: u64, factorPercent: u32): (r: u64)
    requires total > 0
    ensures r <= TRAFFIC_UNITS
  {
    QuotientAtLeast(available * factorPercent * TRAFFIC_UNITS, total * 100, 0);
    var q := available * factorPercent * TRAFFIC_UNITS / (total * 100);
    if q < TRAFFIC_UNITS then q else TRAFFIC_UNITS
  }

  lemma RatioProductsFit(available: u64, total: u64, factorPercent: u32)
    ensures available * factorPercent * TRAFFIC_UNITS < U128_LIMIT && total * 100 < U128_LIMIT
  {
    MulMonotone(available, factorPercent, U64_LIMIT - 1, U32_LIMIT - 1);
  }

  /** The greatest number of traffic units, up to the whole, that the scaled availability covers. */
  lemma RatioIsFloor(available: u64, total: u64, factorPercent: u32, units: nat)
    requires total > 0 && units <= TRAFFIC_UNITS
    ensures units <= RatioUnits(available, total, factorPercent) <==>
      units * total * 100 <= available * factorPercent * TRAFFIC_UNITS
  {
    QuotientAtLeast(available * factorPercent * TRAFFIC_UNITS, total * 100, units);
    Reassociate(units, total, 100);
  }

  lemma Reassociate(a: int, b: int, c: int)
    ensures (b * c) * a == a * b * c
  {
  }

  /** Rounding down loses an available share entirely exactly when it is under one unit. */
  lemma RatioIsZeroIff(available: u64, total: u64, factorPercent: u32)
    requires total > 0
    ensures RatioUnits(available, total, factorPercent) == 0 <==> available * factorPercent * 10_000 < total
  {
    var x: int := available * factorPercent;
    QuotientAtLeast(x * TRAFFIC_UNITS, total * 100, 1);
    QuotientAtLeast(x * TRAFFIC_UNITS, total * 100, 0);
  }

  /** Full availability is reached exactly at the overprovisioned share. */
  lemma RatioIsFullIff(available: u64, total: u64, factorPercent: u32)
    requires total > 0
    ensures RatioUnits(available, total, factorPercent) == TRAFFIC_UNITS <==> available * factorPercent >= total * 100
  {
    var x: int := available * factorPercent;
    QuotientAtLeast(x * TRAFFIC_UNITS, total * 100, TRAFFIC_UNITS);
  }

  /** One group per priority present, in priority order, with exact weights. */
  ghost predicate IsMerged(ms: seq<MemberSample>, gs: seq<PriorityGroup>) {
    && Increasing(gs)
    && Priorities(gs) == MemberPriorities(ms)
    && (forall k, c :: 0 <= k < |gs| ==> Weigh(gs[k], c) == WeightAt(ms, gs[k].priority, c))
    && (forall k :: 0 <= k < |gs| ==> gs[k].totalWeight > 0)
  }

  predicate Available(g: PriorityGroup, factorPercent: u32) {
    && g.totalWeight > 0
    && g.rawAvailability == RatioUnits(g.eligibleWeight, g.totalWeight, 100)
    && g.effectiveAvailability == RatioUnits(g.eligibleWeight, g.totalWeight, factorPercent)
  }

  ghost predicate IsGrouping(ms: seq<MemberSample>, gs: seq<PriorityGroup>, factorPercent: u32) {
    && IsMerged(ms, gs)
    && forall k :: 0 <= k < |gs| ==> Available(gs[k], factorPercent)
  }

  /** Some priority's configured weight does not fit the accumulator. */
  ghost predicate Overflows(ms: seq<MemberSample>) {
    exists p: u32 :: WeightAt(ms, p, Configured) >= U64_LIMIT
  }

  /** Merging the next group fails only when a priority's configured weight really is too large. */
  lemma MergeFailsOnlyOnOverflow(
      ms: seq<MemberSample>, gs: seq<PriorityGroup>, sorted: seq<PriorityGroup>, write: nat, read: nat, c: Column)
    requires Compacting(gs, sorted, write, read) && multiset(sorted) == multiset(Singles(ms))
    requires read < |gs| && write > 0 && gs[write - 1].priority == gs[read].priority
    requires Weigh(gs[write - 1], c) + Weigh(gs[read], c) >= U64_LIMIT
    ensures Overflows(ms)
  {
    hide SumBy, WeightAt, Weigh;
    var p := gs[read].priority;
    SumStep(sorted, read, GroupPart(p, c));
    SumMonotone(sorted, read + 1, GroupPart(p, c));
    SortedSum(ms, sorted, p, c);
    ColumnsNest(ms, p, c);
  }

  lemma PrioritiesOfSingles(ms: seq<MemberSample>, sorted: seq<PriorityGroup>)
    requires multiset(sorted) == multiset(Singles(ms))
    ensures Priorities(sorted) == MemberPriorities(ms)
  {
    var ss := Singles(ms);
    forall p
      ensures p in Priorities(sorted) <==> p in MemberPriorities(ms)
    {
      if p in Priorities(sorted) {
        var g :| g in sorted && g.priority == p;
        assert g in multiset(ss);
        var k :| 0 <= k < |ss| && ss[k] == g;
        assert ms[k] in ms;
      }
      if p in MemberPriorities(ms) {
        var m :| m in ms && m.priority == p;
        var k :| 0 <= k < |ms| && ms[k] == m;
        assert ss[k] in multiset(sorted);
      }
    }
  }

  lemma CompactedIsMerged(
      ms: seq<MemberSample>, gs: seq<PriorityGroup>, sorted: seq<PriorityGroup>, write: nat)
    requires Compacting(gs, sorted, write, |gs|) && multiset(sorted) == multiset(Singles(ms))
    ensures IsMerged(ms, gs[..write]) && !Overflows(ms)
  {
    hide SumBy, WeightAt, Priorities, MemberPriorities;
    var r := gs[..write];
    assert sorted[..|gs|] == sorted;
    PrioritiesOfSingles(ms, sorted);
    SamePriorities(r, r);
    forall k, c | 0 <= k < |r|
      ensures Weigh(r[k], c) == WeightAt(ms, r[k].priority, c)
    {
      SortedSum(ms, sorted, r[k].priority, c);
    }
    forall k | 0 <= k < |r|
      ensures r[k].totalWeight > 0
    {
      PresentHasWeight(ms, r[k].priority);
      assert Weigh(r[k], Configured) == WeightAt(ms, r[k].priority, Configured);
    }
    forall p: u32
      ensures WeightAt(ms, p, Configured) < U64_LIMIT
    {
      MergedFits(ms, r, p);
    }
  }

  lemma PresentHasWeight(ms: seq<MemberSample>, p: u32)
    ensures p in MemberPriorities(ms) <==> WeightAt(ms, p, Configured) > 0
  {
    hide WeightAt;
    WeightPositiveIff(ms, p, Configured);
  }

  lemma MergedFits(ms: seq<MemberSample>, r: seq<PriorityGroup>, p: u32)
    requires Priorities(r) == MemberPriorities(ms)
    requires forall k, c :: 0 <= k < |r| ==> Weigh(r[k], c) == WeightAt(ms, r[k].priority, c)
    ensures WeightAt(ms, p, Configured) < U64_LIMIT
  {
    hide WeightAt;
    PresentHasWeight(ms, p);
    if p in Priorities(r) {
      var k :| 0 <= k < |r| && r[k].priority == p;
      assert Weigh(r[k], Configured) == WeightAt(ms, p, Configured);
    }
  }

  function WithAvailability(g: PriorityGroup, factorPercent: u32): (r: PriorityGroup)
    requires g.totalWeight > 0
    ensures Available(r, factorPercent)
  {
    g.(rawAvailability := RatioUnits(g.eligibleWeight, g.totalWeight, 100),
       effectiveAvailability := RatioUnits(g.eligibleWeight, g.totalWeight, factorPercent))
  }

  lemma AvailabilityCompletes(
      ms: seq<MemberSample>, merged: seq<PriorityGroup>, gs: seq<PriorityGroup>, factorPercent: u32)
    requires IsMerged(ms, merged) && |gs| == |merged|
    requires forall k :: 0 <= k < |gs| ==> gs[k] == WithAvailability(merged[k], factorPercent)
    ensures IsGrouping(ms, gs, factorPercent)
  {
    hide WeightAt, RatioUnits, Priorities, MemberPriorities;
    SamePriorities(merged, gs);
    forall k, c | 0 <= k < |gs|
      ensures Weigh(gs[k], c) == WeightAt(ms, gs[k].priority, c)
    {
      assert Weigh(gs[k], c) == Weigh(merged[k], c);
    }
  }

  /** However ties were sorted, two groupings of the same members agree on everything routing reads. */
  lemma GroupingIsUnique(
      ms: seq<MemberSample>, a: seq<PriorityGroup>, b: seq<PriorityGroup>, factorPercent: u32)
    requires IsGrouping(ms, a, factorPercent) && IsGrouping(ms, b, factorPercent)
    ensures |a| == |b|
    ensures forall k :: 0 <= k < |a| ==> a[k].(traffic := 0, panic := false) == b[k].(traffic := 0, panic := false)
  {
    hide WeightAt, RatioUnits;
    SameStrictKeys(a, b);
    forall k | 0 <= k < |a|
      ensures a[k].(traffic := 0, panic := false) == b[k].(traffic := 0, panic := false)
    {
      assert forall c :: Weigh(a[k], c) == Weigh(b[k], c);
      assert Weigh(a[k], Configured) == Weigh(b[k], Configured);
      assert Weigh(a[k], Healthy) == Weigh(b[k], Healthy);
      assert Weigh(a[k], PanicEligible) == Weigh(b[k], PanicEligible);
    }
  }

  lemma LastIsGreatest(gs: seq<PriorityGroup>)
    requires Increasing(gs) && gs != []
    ensures var last := |gs| - 1;
      && gs[last].priority in Priorities(gs)
      && Priorities(gs[..last]) == Priorities(gs) - {gs[last].priority}
      && (forall p :: p in Priorities(gs) ==> p <= gs[last].priority)
  {
    var last := |gs| - 1;
    assert gs[..last + 1] == gs;
    PrioritiesGrow(gs, last);
    assert forall g :: g in gs[..last] ==> g.priority < gs[last].priority;
  }

  /** A strictly increasing list of priorities is determined by its set. */
  lemma {:induction false} SameStrictKeys(a: seq<PriorityGroup>, b: seq<PriorityGroup>)
    requires Increasing(a) && Increasing(b) && Priorities(a) == Priorities(b)
    ensures |a| == |b| && forall k :: 0 <= k < |a| ==> a[k].priority == b[k].priority
    decreases |a|
  {
    if a == [] || b == [] {
      if a != [] {
        LastIsGreatest(a);
        assert false;
      }
      if b != [] {
        LastIsGreatest(b);
        assert false;
      }
    } else {
      LastIsGreatest(a);
      LastIsGreatest(b);
      hide Priorities;
      var x, y := |a| - 1, |b| - 1;
      SameStrictKeys(a[..x], b[..y]);
      assert forall k :: 0 <= k < x ==> a[k] == a[..x][k] && b[k] == b[..x][k];
    }
  }
}
