/** The cached ring-hash policy: gcd-normalised points, staged rebuilds, and the uncached answer. */
module RingHashPolicy {
  import opened Core
  import opened Listings
  import opened Arith
  import opened Primality
  import opened Sorting
  import opened WeightGcd
  import opened Ring

  datatype RingHashConfigError = UnitWeightExceedsCapacity

  datatype Member<+Key> = Member(key: Key, index: nat, weight: Weight)

  datatype RingUpdate = Unchanged | Rebuilt(members: nat, virtualNodes: nat)

  /** The hash builder, as the two functions reconciliation derives from it. */
  datatype Hashes<!Key> = Hashes(ownerOf: Key -> u64, positionOf: (Key, nat) -> u64)

  /** The cap must leave room for a single member of weight one. */
  function NewConfig(perWeight: u32, maxNodes: usize): (r: Result<(u32, usize), RingHashConfigError>)
    ensures r == Ok((perWeight, maxNodes)) <==> perWeight <= maxNodes
    ensures r == Err(UnitWeightExceedsCapacity) <==> perWeight > maxNodes
  {
    if perWeight > maxNodes then Err(UnitWeightExceedsCapacity) else Ok((perWeight, maxNodes))
  }

  function MemberOf<Key>(c: Candidate<Key>, i: nat): Member<Key> {
    Member(c.id, i, c.weight)
  }

  function Members<Key>(cs: seq<Candidate<Key>>): seq<Member<Key>> {
    Listing(cs, MemberOf)
  }

  function WeightsOf<Key>(ms: seq<Member<Key>>): (r: seq<nat>)
    ensures |r| == |ms| && forall i :: 0 <= i < |r| ==> r[i] == ms[i].weight
  {
    seq(|ms|, i requires 0 <= i < |ms| => ms[i].weight)
  }

  /** Points a member owns: its reduced weight times the configured multiplicity. */
  function PointsFor(reduced: u32, perWeight: u32): u64 {
    ProductFits(reduced, perWeight);
    reduced * perWeight
  }

  lemma ProductFits(a: u32, b: u32)
    ensures 0 <= a * b < U64_LIMIT
  {
    ProductBelow(a, b, U32_LIMIT, U32_LIMIT);
    MulMonotone(0, 0, a, b);
  }

  lemma ReducedFits(w: Weight, g: nat)
    requires g > 0
    ensures 0 <= w / g < U32_LIMIT
  {
    QuotientAtLeast(w, g, U32_LIMIT);
    MulMonotone(1, U32_LIMIT, g, U32_LIMIT);
  }

  function Replicas<Key>(e: Member<Key>, g: nat, perWeight: u32): u64
    requires g > 0
  {
    ReducedFits(e.weight, g);
    PointsFor(e.weight / g, perWeight)
  }

  function PointOf<Key>(h: Hashes<Key>, e: Member<Key>, replica: nat): Point {
    Point(h.positionOf(e.key, replica), h.ownerOf(e.key), replica, e.index)
  }

  function MemberPoints<Key>(h: Hashes<Key>, e: Member<Key>, count: nat): (r: seq<Point>)
    ensures |r| == count
  {
    seq(count, replica requires 0 <= replica < count => PointOf(h, e, replica))
  }

  function AllPoints<Key>(h: Hashes<Key>, ms: seq<Member<Key>>, g: nat, perWeight: u32): seq<Point>
    requires g > 0 || ms == []
  {
    if ms == [] then [] else
      var last := ms[|ms| - 1];
      AllPoints(h, ms[..|ms| - 1], g, perWeight) + MemberPoints(h, last, Replicas(last, g, perWeight))
  }

  function Total<Key>(ms: seq<Member<Key>>, g: nat, perWeight: u32): nat
    requires g > 0 || ms == []
  {
    if ms == [] then 0 else
      Total(ms[..|ms| - 1], g, perWeight) + Replicas(ms[|ms| - 1], g, perWeight)
  }

  function Divisor<Key>(ms: seq<Member<Key>>): (g: nat)
    ensures ms != [] ==> g > 0
  {
    if ms == [] then 0 else
      GcdOfPositive(WeightsOf(ms));
      GcdOf(WeightsOf(ms))
  }

  ghost function RingOf<Key>(h: Hashes<Key>, ms: seq<Member<Key>>, perWeight: u32): seq<Point> {
    SortBy(AllPoints(h, ms, Divisor(ms), perWeight), PointLeq)
  }

  ghost predicate DistinctKeys<Key>(ms: seq<Member<Key>>) {
    forall j, k :: 0 <= j < k < |ms| ==> ms[j].key != ms[k].key
  }

  lemma DistinctKeysMeansUniqueEligible<Key>(cs: seq<Candidate<Key>>)
    ensures DistinctKeys(Members(cs)) <==> UniqueEligible(cs)
  {
    hide Listing;
    ListingKeepsUniqueness(cs, MemberOf, (e: Member<Key>) => e.key);
  }

  /** What building from nothing yields for a slice. */
  ghost function FreshOutcome<Key>(h: Hashes<Key>, perWeight: u32, maxNodes: usize, cs: seq<Candidate<Key>>)
    : Result<(seq<Member<Key>>, seq<Point>), PickError>
  {
    var ms := Members(cs);
    if !UniqueEligible(cs) then Err(DuplicateIdentity)
    else if Total(ms, Divisor(ms), perWeight) > maxNodes then Err(StateCapacityExceeded)
    else Ok((ms, RingOf(h, ms, perWeight)))
  }

  /** The pick of a policy with no history and no sorted ring: scan every point clockwise. */
  ghost function FreshPick<Key>(h: Hashes<Key>, perWeight: u32, maxNodes: usize, cs: seq<Candidate<Key>>, request: u64)
    : Result<nat, PickError>
  {
    match FreshOutcome(h, perWeight, maxNodes, cs)
    case Err(e) => Err(e)
    case Ok((ms, _)) =>
      var points := AllPoints(h, ms, Divisor(ms), perWeight);
      if points == [] then Err(NoCandidateError(|cs|)) else Ok(ClockwiseScan(points, request).index)
  }

  lemma RingMirrorsPoints<Key>(h: Hashes<Key>, ms: seq<Member<Key>>, perWeight: u32)
    ensures var points, ring := AllPoints(h, ms, Divisor(ms), perWeight), RingOf(h, ms, perWeight);
      Sorted(ring, PointLeq) && multiset(ring) == multiset(points) && |ring| == |points|
      && forall q :: q in ring <==> q in points
  {
    var points, ring := AllPoints(h, ms, Divisor(ms), perWeight), RingOf(h, ms, perWeight);
    PointLeqIsTotalPreorder();
    SortBySorted(points, PointLeq);
    assert |ring| == |multiset(ring)| == |points|;
    forall q
      ensures q in ring <==> q in points
    {
      assert q in multiset(ring) <==> q in multiset(points);
    }
  }

  /** Every field takes part in the order, so the unstable sort has one possible outcome. */
  lemma SortIsDetermined(points: seq<Point>, sorted: seq<Point>)
    requires Sorted(sorted, PointLeq) && multiset(sorted) == multiset(points)
    ensures sorted == SortBy(points, PointLeq)
  {
    PointLeqIsTotalPreorder();
    SortBySorted(points, PointLeq);
    SortedUnique(sorted, SortBy(points, PointLeq), PointLeq);
  }

  // ----- accumulation over a slice prefix

  lemma {:induction false} TotalGrows<Key>(ms: seq<Member<Key>>, n: nat, g: nat, perWeight: u32)
    requires n <= |ms| && g > 0
    ensures Total(ms[..n], g, perWeight) <= Total(ms, g, perWeight)
    decreases |ms|
  {
    if n < |ms| {
      assert ms[..|ms| - 1][..n] == ms[..n];
      TotalGrows(ms[..|ms| - 1], n, g, perWeight);
    } else {
      assert ms[..n] == ms;
    }
  }

  lemma WeightsOfAppend<Key>(ms: seq<Member<Key>>, e: Member<Key>)
    ensures GcdOf(WeightsOf(ms + [e])) == Gcd(GcdOf(WeightsOf(ms)), e.weight)
  {
    assert WeightsOf(ms + [e])[..|ms|] == WeightsOf(ms);
  }

  /** Ids of the eligible candidates among the first `i`. */
  ghost function SeenIds<Key>(cs: seq<Candidate<Key>>, i: nat): set<Key>
    requires i <= |cs|
  {
    set j | 0 <= j < i && cs[j].eligible :: cs[j].id
  }

  lemma FoldStep<Key>(cs: seq<Candidate<Key>>, i: nat)
    requires i < |cs| && UniqueEligible(cs[..i])
    ensures !cs[i].eligible ==>
      && SeenIds(cs, i + 1) == SeenIds(cs, i) && UniqueEligible(cs[..i + 1])
      && GcdOf(WeightsOf(Members(cs[..i + 1]))) == GcdOf(WeightsOf(Members(cs[..i])))
    ensures cs[i].eligible && cs[i].id !in SeenIds(cs, i) ==>
      && SeenIds(cs, i + 1) == SeenIds(cs, i) + {cs[i].id} && UniqueEligible(cs[..i + 1])
      && GcdOf(WeightsOf(Members(cs[..i + 1]))) == Gcd(GcdOf(WeightsOf(Members(cs[..i]))), cs[i].weight)
    ensures cs[i].eligible && cs[i].id in SeenIds(cs, i) ==> !UniqueEligible(cs)
  {
    hide GcdOf, Gcd, WeightsOf;
    assert cs[..i + 1][..i] == cs[..i];
    if cs[i].eligible {
      WeightsOfAppend(Members(cs[..i]), Member(cs[i].id, i, cs[i].weight));
    } else {
      assert Members(cs[..i + 1]) == Members(cs[..i]);
    }
  }

  lemma CountStep<Key>(cs: seq<Candidate<Key>>, i: nat, g: nat, perWeight: u32)
    requires i < |cs| && g > 0
    ensures Total(Members(cs[..i + 1]), g, perWeight) <= Total(Members(cs), g, perWeight)
    ensures Total(Members(cs[..i + 1]), g, perWeight) == Total(Members(cs[..i]), g, perWeight)
      + if cs[i].eligible then Replicas(Member(cs[i].id, i, cs[i].weight), g, perWeight) else 0
  {
    hide Replicas;
    assert cs[..i + 1][..i] == cs[..i];
    var before, after := Members(cs[..i]), Members(cs[..i + 1]);
    ListingPrefix(cs, MemberOf, i + 1);
    assert Members(cs)[..|after|] == after;
    TotalGrows(Members(cs), |after|, g, perWeight);
    if cs[i].eligible {
      assert after == before + [Member(cs[i].id, i, cs[i].weight)];
      assert after[..|before|] == before;
    } else {
      assert after == before;
    }
  }

  class RingHash<Key(==)> {
    const perWeight: u32
    const maxNodes: usize
    const hashes: Hashes<Key>
    var members: seq<Member<Key>>
    var points: seq<Point>
    var generation: u64

    ghost predicate Valid()
      reads this
    {
      && 1 <= perWeight <= maxNodes
      && DistinctKeys(members) && Total(members, Divisor(members), perWeight) <= maxNodes
      && points == RingOf(hashes, members, perWeight)
    }

    constructor (perWeight: u32, maxNodes: usize, hashes: Hashes<Key>)
      requires 1 <= perWeight && 1 <= maxNodes && NewConfig(perWeight, maxNodes).Ok?
      ensures Valid() && members == [] && generation == 0
      ensures this.perWeight == perWeight && this.maxNodes == maxNodes && this.hashes == hashes
    {
      this.perWeight, this.maxNodes, this.hashes := perWeight, maxNodes, hashes;
      members, points, generation := [], [], 0;
    }

    method Reset()
      requires Valid()
      modifies this
      ensures Valid() && members == [] && points == [] && generation == 0
    {
      members, points, generation := [], [], 0;
    }

    method Matches(cs: seq<Candidate<Key>>) returns (same: bool)
      ensures same <==> members == Members(cs)
    {
      var next := 0;
      var i := 0;
      while i < |cs|
        invariant 0 <= i <= |cs| && 0 <= next <= |members|
        invariant members[..next] == Members(cs[..i])
      {
        assert cs[..i + 1][..i] == cs[..i];
        ListingPrefix(cs, MemberOf, i + 1);
        if cs[i].eligible {
          ghost var expected := Members(cs[..i + 1]);
          assert expected == members[..next] + [Member(cs[i].id, i, cs[i].weight)];
          if next == |members| {
            return false;
          }
          if members[next].index != i || members[next].weight != cs[i].weight || members[next].key != cs[i].id {
            assert expected[next] == Members(cs)[next];
            return false;
          }
          next := next + 1;
        }
        i := i + 1;
      }
      assert cs[..i] == cs;
      return next == |members|;
    }

    /** One pass rejects repeated identities and folds Euclid's loop over the weights. */
    method FoldDivisor(cs: seq<Candidate<Key>>) returns (r: Result<u32, PickError>)
      ensures r == if UniqueEligible(cs) then Ok(GcdOf(WeightsOf(Members(cs)))) else Err(DuplicateIdentity)
    {
      var seen: set<Key> := {};
      var divisor: u32 := 0;
      var i := 0;
      assert UniqueEligible(cs[..0]) && GcdOf(WeightsOf(Members(cs[..0]))) == 0;
      hide UniqueEligible, GcdOf, Gcd, WeightsOf, Members;
      while i < |cs|
        invariant 0 <= i <= |cs| && seen == SeenIds(cs, i)
        invariant UniqueEligible(cs[..i]) && divisor == GcdOf(WeightsOf(Members(cs[..i])))
      {
        FoldStep(cs, i);
        if cs[i].eligible {
          if cs[i].id in seen {
            return Err(DuplicateIdentity);
          }
          seen := seen + {cs[i].id};
          divisor := GreatestCommonDivisor(divisor, cs[i].weight);
        }
        i := i + 1;
      }
      assert cs[..i] == cs;
      return Ok(divisor);
    }

    /** The capacity check, refusing as soon as the running total passes the cap or the word size. */
    method CountPoints(cs: seq<Candidate<Key>>, divisor: u32) returns (r: Result<usize, PickError>)
      requires divisor > 0
      ensures r == if Total(Members(cs), divisor, perWeight) > maxNodes then Err(StateCapacityExceeded)
                   else Ok(Total(Members(cs), divisor, perWeight))
    {
      var total: usize := 0;
      var i := 0;
      assert Total(Members(cs[..0]), divisor, perWeight) == 0;
      hide Members, Total, PointsFor;
      while i < |cs|
        invariant 0 <= i <= |cs| && total == Total(Members(cs[..i]), divisor, perWeight) <= maxNodes
      {
        CountStep(cs, i, divisor, perWeight);
        if cs[i].eligible {
          ReducedFits(cs[i].weight, divisor);
          var points := PointsFor(cs[i].weight / divisor, perWeight);
          if total + points >= U64_LIMIT {
            return Err(StateCapacityExceeded);
          }
          if total + points > maxNodes {
            return Err(StateCapacityExceeded);
          }
          total := total + points;
        }
        i := i + 1;
      }
      assert cs[..i] == cs;
      return Ok(total);
    }

    /** The staged point list, member by member and replica by replica. */
    method StagePoints(ms: seq<Member<Key>>, divisor: u32) returns (staged: seq<Point>)
      requires divisor > 0
      ensures staged == AllPoints(hashes, ms, divisor, perWeight)
    {
      staged := [];
      var i := 0;
      while i < |ms|
        invariant 0 <= i <= |ms| && staged == AllPoints(hashes, ms[..i], divisor, perWeight)
      {
        assert ms[..i + 1][..i] == ms[..i];
        var replicas := Replicas(ms[i], divisor, perWeight);
        ghost var before := staged;
        var replica: u64 := 0;
        while replica < replicas
          invariant 0 <= replica <= replicas && staged == before + MemberPoints(hashes, ms[i], replica)
        {
          assert MemberPoints(hashes, ms[i], replica + 1) ==
                 MemberPoints(hashes, ms[i], replica) + [PointOf(hashes, ms[i], replica)];
          staged := staged + [PointOf(hashes, ms[i], replica)];
          replica := replica + 1;
        }
        i := i + 1;
      }
      assert ms[..i] == ms;
    }

    /** An error leaves the cache alone; success leaves exactly what a fresh build would hold. */
    method Reconcile(cs: seq<Candidate<Key>>) returns (r: Result<RingUpdate, PickError>)
      requires Valid()
      modifies this
      ensures Valid()
      ensures FreshOutcome(hashes, perWeight, maxNodes, cs).Err? ==>
        r == Err(FreshOutcome(hashes, perWeight, maxNodes, cs).error) && unchanged(this)
      ensures FreshOutcome(hashes, perWeight, maxNodes, cs).Ok? ==>
        && (members, points) == FreshOutcome(hashes, perWeight, maxNodes, cs).value
        && (if old(members) == Members(cs) then
              r == Ok(Unchanged) && generation == old(generation)
            else
              r == Ok(Rebuilt(|members|, |points|)) && generation == (old(generation) + 1) % U64_LIMIT)
    {
      hide Members, UniqueEligible, SortBy, AllPoints, Total;
      DistinctKeysMeansUniqueEligible(cs);
      var same := Matches(cs);
      if same {
        return Ok(Unchanged);
      }
      var divisor := FoldDivisor(cs);
      if divisor.Err? {
        return Err(divisor.error);
      }
      var nextMembers := Members(cs);
      var nextPoints := [];
      NoMembersNoPoints(hashes, perWeight);
      if nextMembers != [] {
        GcdOfPositive(WeightsOf(nextMembers));
        var total := CountPoints(cs, divisor.value);
        if total.Err? {
          return Err(total.error);
        }
        nextPoints := StagePoints(nextMembers, divisor.value);
      }
      var sorted := SortPoints(nextPoints);
      SortIsDetermined(nextPoints, sorted);
      members := nextMembers;
      points := sorted;
      generation := (generation + 1) % U64_LIMIT;
      return Ok(Rebuilt(|members|, |points|));
    }

    /** Whatever was cached, binary search over the ring gives the answer of an uncached clockwise scan. */
    method Pick(cs: seq<Candidate<Key>>, request: u64) returns (r: Result<nat, PickError>)
      requires Valid()
      modifies this
      ensures Valid()
      ensures r == FreshPick(hashes, perWeight, maxNodes, cs, request)
    {
      hide Members, UniqueEligible, SortBy, AllPoints, Total, RingOf, ClockwiseScan;
      var update := Reconcile(cs);
      if update.Err? {
        return Err(update.error);
      }
      RingMirrorsPoints(hashes, members, perWeight);
      if |points| == 0 {
        return Err(NoCandidateError(|cs|));
      }
      var cut := PartitionPoint(points, request);
      CutIsNearest(points, request, cut);
      var found := if cut < |points| then points[cut] else points[0];
      ghost var naive := AllPoints(hashes, members, Divisor(members), perWeight);
      NearestIgnoresOrder(points, naive, request, found);
      NearestIsUnique(naive, request, found, ClockwiseScan(naive, request));
      return Ok(found.index);
    }
  }

  method SortPoints(points: seq<Point>) returns (sorted: seq<Point>)
    ensures Sorted(sorted, PointLeq) && multiset(sorted) == multiset(points)
  {
    PointLeqIsTotalPreorder();
    sorted := SortUnstable(points, PointLeq);
  }

  lemma NoMembersNoPoints<Key>(h: Hashes<Key>, perWeight: u32)
    ensures AllPoints(h, [], 0, perWeight) == [] && Total<Key>([], 0, perWeight) == 0
  {
  }
}
