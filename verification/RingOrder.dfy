/** What reordering a slice leaves alone on the ring. */
module RingOrder {
  import opened Arith
  import opened Core
  import opened Listings
  import opened Primality
  import opened Ring
  import opened RingHashPolicy
  import opened RingLaws
  import opened WeightGcd
  import Sums

  /** The same eligible identities at the same weights, in whatever order and among whatever others. */
  ghost predicate SameMembership<Key>(a: seq<Candidate<Key>>, b: seq<Candidate<Key>>) {
    UniqueEligible(a) && UniqueEligible(b) && Weights(a) == Weights(b)
  }

  /** No two identities place a replica at the same position under the same owner hash. */
  ghost predicate NoCompleteCollision<Key>(h: Hashes<Key>, ids: set<Key>) {
    forall x, y, replica :: x in ids && y in ids && x != y ==>
      h.ownerOf(x) != h.ownerOf(y) || h.positionOf(x, replica) != h.positionOf(y, replica)
  }

  lemma Counterpart<Key>(a: seq<Candidate<Key>>, b: seq<Candidate<Key>>, i: nat) returns (j: nat)
    requires SameMembership(a, b) && i < |a| && a[i].eligible
    ensures j < |b| && b[j].eligible && b[j].id == a[i].id && b[j].weight == a[i].weight
  {
    hide UniqueEligible, Weights;
    PresentedWeight(a, i);
    WeightsKeys(b);
    j :| 0 <= j < |b| && b[j].eligible && b[j].id == a[i].id;
    PresentedWeight(b, j);
  }

  // ----- the divisor

  lemma MembersWeigh<Key>(cs: seq<Candidate<Key>>, k: nat) returns (i: nat)
    requires k < |Members(cs)|
    ensures i < |cs| && cs[i].eligible && Members(cs)[k] == MemberOf(cs[i], i)
  {
    hide Listing;
    ListingMirrors(cs, MemberOf);
    i := EligibleIndices(cs)[k];
  }

  lemma MemberListed<Key>(cs: seq<Candidate<Key>>, i: nat) returns (k: nat)
    requires i < |cs| && cs[i].eligible
    ensures k < |Members(cs)| && Members(cs)[k] == MemberOf(cs[i], i)
  {
    hide Listing;
    ListingCovers(cs, MemberOf);
    k :| 0 <= k < |Members(cs)| && Members(cs)[k] == MemberOf(cs[i], i);
  }

  lemma BothHaveMembers<Key>(a: seq<Candidate<Key>>, b: seq<Candidate<Key>>)
    requires SameMembership(a, b) && Members(b) != []
    ensures Members(a) != []
  {
    hide Members, SameMembership;
    var i := MembersWeigh(b, 0);
    SameMembershipSymmetric(a, b);
    var j := Counterpart(b, a, i);
    var l := MemberListed(a, j);
  }

  lemma SameMembershipSymmetric<Key>(a: seq<Candidate<Key>>, b: seq<Candidate<Key>>)
    requires SameMembership(a, b)
    ensures SameMembership(b, a)
  {
  }

  lemma DivisorDividesMember<Key>(cs: seq<Candidate<Key>>, i: nat)
    requires i < |cs| && cs[i].eligible
    ensures Divisor(Members(cs)) > 0 && Divides(Divisor(Members(cs)), cs[i].weight)
  {
    hide Members, GcdOf;
    var k := MemberListed(cs, i);
    var g := Divisor(Members(cs));
    MultipleIsDivisible(g, 1);
    GcdOfDivisors(WeightsOf(Members(cs)), g);
    assert Divides(g, WeightsOf(Members(cs))[k]);
  }

  lemma DivisorDividesOther<Key>(a: seq<Candidate<Key>>, b: seq<Candidate<Key>>)
    requires SameMembership(a, b) && Members(a) != [] && Members(b) != []
    ensures Divides(Divisor(Members(a)), Divisor(Members(b)))
  {
    hide Members, GcdOf, SameMembership;
    var g, ws := Divisor(Members(a)), WeightsOf(Members(b));
    SameMembershipSymmetric(a, b);
    forall k | 0 <= k < |ws|
      ensures Divides(g, ws[k])
    {
      var i := MembersWeigh(b, k);
      var j := Counterpart(b, a, i);
      DivisorDividesMember(a, j);
    }
    GcdOfDivisors(ws, g);
  }

  lemma MutualDivisors(g: nat, h: nat)
    requires g > 0 && h > 0 && Divides(g, h) && Divides(h, g)
    ensures g == h
  {
    assert h == g * (h / g) && g == h * (g / h);
    MulMonotone(g, 1, g, h / g);
    MulMonotone(h, 1, h, g / h);
  }

  /** The divisor depends on the membership, not on the slice. */
  lemma SameDivisor<Key>(a: seq<Candidate<Key>>, b: seq<Candidate<Key>>)
    requires SameMembership(a, b)
    ensures Members(a) == [] <==> Members(b) == []
    ensures Divisor(Members(a)) == Divisor(Members(b))
  {
    hide Members, SameMembership, GcdOf;
    SameMembershipSymmetric(a, b);
    if Members(a) != [] || Members(b) != [] {
      if Members(a) == [] {
        BothHaveMembers(a, b);
      } else {
        BothHaveMembers(b, a);
      }
      DivisorDividesOther(a, b);
      DivisorDividesOther(b, a);
      MutualDivisors(Divisor(Members(a)), Divisor(Members(b)));
    }
  }

  // ----- the number of points

  function PointShare(weight: int, g: nat, perWeight: u32): int
    requires g > 0
  {
    (weight / g) * perWeight
  }

  function PointShares<Key>(w: map<Key, int>, g: nat, perWeight: u32): map<Key, int>
    requires g > 0
  {
    map k | k in w :: PointShare(w[k], g, perWeight)
  }

  lemma OneMoreShare<Key>(w: map<Key, int>, k: Key, weight: int, g: nat, perWeight: u32)
    requires g > 0 && k !in w
    ensures Sums.Sum(PointShares(w[k := weight], g, perWeight)) ==
      Sums.Sum(PointShares(w, g, perWeight)) + PointShare(weight, g, perWeight)
  {
    hide PointShare, Sums.Sum;
    var before, after := PointShares(w, g, perWeight), PointShares(w[k := weight], g, perWeight);
    assert after == before[k := PointShare(weight, g, perWeight)];
    Sums.SumInsert(before, k, PointShare(weight, g, perWeight));
  }

  lemma TotalAppends<Key>(ms: seq<Member<Key>>, e: Member<Key>, g: nat, perWeight: u32)
    requires g > 0
    ensures Total(ms + [e], g, perWeight) == Total(ms, g, perWeight) + PointShare(e.weight, g, perWeight)
  {
    assert (ms + [e])[..|ms|] == ms;
  }

  lemma MembersAppend<Key>(cs: seq<Candidate<Key>>)
    requires cs != []
    ensures var n := |cs| - 1;
      Members(cs) == if cs[n].eligible then Members(cs[..n]) + [MemberOf(cs[n], n)] else Members(cs[..n])
  {
  }

  lemma NoShares<Key>(cs: seq<Candidate<Key>>, g: nat, perWeight: u32)
    requires cs == [] && g > 0
    ensures Total(Members(cs), g, perWeight) == 0 == Sums.Sum(PointShares(Weights(cs), g, perWeight))
  {
    assert PointShares(Weights(cs), g, perWeight) == map[];
  }

  lemma SharesStep<Key>(cs: seq<Candidate<Key>>, g: nat, perWeight: u32)
    requires cs != [] && UniqueEligible(cs) && g > 0
    ensures var n := |cs| - 1;
      Sums.Sum(PointShares(Weights(cs), g, perWeight)) == Sums.Sum(PointShares(Weights(cs[..n]), g, perWeight))
        + if cs[n].eligible then PointShare(cs[n].weight, g, perWeight) else 0
  {
    var n := |cs| - 1;
    if cs[n].eligible {
      NewIdentity(cs);
      OneMoreShare(Weights(cs[..n]), cs[n].id, cs[n].weight, g, perWeight);
    }
  }

  lemma UniqueFront<Key>(cs: seq<Candidate<Key>>)
    requires cs != [] && UniqueEligible(cs)
    ensures UniqueEligible(cs[..|cs| - 1])
  {
  }

  lemma {:induction false} TotalIsSumOfShares<Key>(cs: seq<Candidate<Key>>, g: nat, perWeight: u32)
    requires UniqueEligible(cs) && g > 0
    ensures Total(Members(cs), g, perWeight) == Sums.Sum(PointShares(Weights(cs), g, perWeight))
  {
    hide Members, Total, PointShares, PointShare, Weights, Sums.Sum, UniqueEligible;
    if cs == [] {
      NoShares(cs, g, perWeight);
    } else {
      var n := |cs| - 1;
      UniqueFront(cs);
      TotalIsSumOfShares(cs[..n], g, perWeight);
      MembersAppend(cs);
      SharesStep(cs, g, perWeight);
      if cs[n].eligible {
        TotalAppends(Members(cs[..n]), MemberOf(cs[n], n), g, perWeight);
      }
    }
  }

  lemma SameTotal<Key>(a: seq<Candidate<Key>>, b: seq<Candidate<Key>>, perWeight: u32)
    requires SameMembership(a, b)
    ensures Total(Members(a), Divisor(Members(a)), perWeight) == Total(Members(b), Divisor(Members(b)), perWeight)
  {
    hide Members, Divisor, PointShares;
    SameDivisor(a, b);
    if Members(a) != [] {
      TotalIsSumOfShares(a, Divisor(Members(a)), perWeight);
      TotalIsSumOfShares(b, Divisor(Members(a)), perWeight);
    }
  }

  // ----- the winner

  lemma PointHasCounterpart<Key>(h: Hashes<Key>, a: seq<Candidate<Key>>, b: seq<Candidate<Key>>, g: nat,
                                 perWeight: u32, q: Point) returns (r: Point)
    requires SameMembership(a, b) && g > 0 && OnRing(h, a, g, perWeight, q)
    ensures OnRing(h, b, g, perWeight, r) && r == q.(index := r.index) && b[r.index].id == a[q.index].id
  {
    hide SameMembership;
    var j := Counterpart(a, b, q.index);
    r := q.(index := j);
  }

  /** Neither nearest point beats the other's counterpart, so they differ at most in index. */
  lemma SameOwnerNearest<Key>(h: Hashes<Key>, a: seq<Candidate<Key>>, b: seq<Candidate<Key>>, g: nat,
                              perWeight: u32, request: u64, p: Point, q: Point)
    requires SameMembership(a, b) && g > 0 && NoCompleteCollision(h, Weights(a).Keys)
    requires IsNearest(AllPoints(h, Members(a), g, perWeight), request, p)
    requires IsNearest(AllPoints(h, Members(b), g, perWeight), request, q)
    ensures p.index < |a| && q.index < |b| && a[p.index].eligible && b[q.index].eligible
    ensures a[p.index].id == b[q.index].id
  {
    hide AllPoints, Members, SameMembership, Weights;
    PointsAreOnRing(h, a, g, perWeight, p);
    PointsAreOnRing(h, b, g, perWeight, q);
    SameMembershipSymmetric(a, b);
    var p' := PointHasCounterpart(h, a, b, g, perWeight, p);
    var q' := PointHasCounterpart(h, b, a, g, perWeight, q);
    PointsAreOnRing(h, b, g, perWeight, p');
    PointsAreOnRing(h, a, g, perWeight, q');
    NearerUpToIndex(request, p, q', q, p');
    WeightsKeys(a);
    assert a[p.index].id in Weights(a) && a[q'.index].id in Weights(a);
  }

  /** Each no farther than the other, indices aside: the two points collide completely. */
  lemma NearerUpToIndex(request: u64, p: Point, q': Point, q: Point, p': Point)
    requires Nearer(request, p, q') && Nearer(request, q, p')
    requires q' == q.(index := q'.index) && p' == p.(index := p'.index)
    ensures p.position == q.position && p.ownerHash == q.ownerHash && p.replica == q.replica
  {
    ClockwiseValue(request, p.position);
    ClockwiseValue(request, q.position);
  }

  /** Reordering a slice keeps the winning identity of every request, short of complete hash collisions. */
  lemma ReorderingKeepsWinner<Key>(h: Hashes<Key>, perWeight: u32, maxNodes: usize, a: seq<Candidate<Key>>,
                                   b: seq<Candidate<Key>>, request: u64)
    requires SameMembership(a, b) && NoCompleteCollision(h, Weights(a).Keys)
    ensures FreshPick(h, perWeight, maxNodes, a, request).Ok? <==> FreshPick(h, perWeight, maxNodes, b, request).Ok?
    ensures FreshPick(h, perWeight, maxNodes, a, request).Ok? ==>
      var i, j := FreshPick(h, perWeight, maxNodes, a, request).value,
        FreshPick(h, perWeight, maxNodes, b, request).value;
      i < |a| && j < |b| && a[i].eligible && b[j].eligible && a[i].id == b[j].id
  {
    hide AllPoints, Members, Total, Divisor, ClockwiseScan, RingOf, Weights, NoCompleteCollision;
    SameDivisor(a, b);
    SameTotal(a, b, perWeight);
    var g := Divisor(Members(a));
    PointCountIsExact(h, Members(a), g, perWeight);
    PointCountIsExact(h, Members(b), g, perWeight);
    if FreshPick(h, perWeight, maxNodes, a, request).Ok? {
      NonemptyRing(h, a, perWeight);
      SameOwnerNearest(h, a, b, g, perWeight, request, ClockwiseScan(AllPoints(h, Members(a), g, perWeight), request),
                       ClockwiseScan(AllPoints(h, Members(b), g, perWeight), request));
    }
  }

  // ----- the exception

  function Pair<Key>(x: Key, y: Key): seq<Candidate<Key>> {
    [Candidate(x, 1, true), Candidate(y, 1, true)]
  }

  lemma PairMembers<Key>(x: Key, y: Key)
    ensures Members(Pair(x, y)) == [Member(x, 0, 1), Member(y, 1, 1)] && Divisor(Members(Pair(x, y))) == 1
  {
    var cs := Pair(x, y);
    var one, none := cs[..1], cs[..0];
    assert one == [Candidate(x, 1, true)] && one[..0] == none == [];
    assert Members(none) == [];
    MembersAppend(one);
    MembersAppend(cs);
    var ws := WeightsOf(Members(cs));
    assert ws == [1, 1] && ws[..1] == [1] && ws[..1][..0] == [];
    assert GcdOf(ws[..1]) == Gcd(0, 1) == Gcd(1, 0) == 1;
    assert Gcd(1, 1) == Gcd(1, 0) == 1;
  }

  lemma UnitPoints<Key>(h: Hashes<Key>, ms: seq<Member<Key>>, e: Member<Key>)
    requires e.weight == 1
    ensures AllPoints(h, ms + [e], 1, 1) == AllPoints(h, ms, 1, 1) + [PointOf(h, e, 0)]
    ensures Total(ms + [e], 1, 1) == Total(ms, 1, 1) + 1
  {
    assert (ms + [e])[..|ms|] == ms;
    assert Replicas(e, 1, 1) == 1;
    assert MemberPoints(h, e, 1) == [PointOf(h, e, 0)];
  }

  lemma NoPoints<Key>(h: Hashes<Key>, none: seq<Member<Key>>)
    requires none == []
    ensures AllPoints(h, none, 1, 1) == [] && Total(none, 1, 1) == 0
  {
  }

  lemma PairPoints<Key>(h: Hashes<Key>, x: Key, y: Key)
    ensures var ms := [Member(x, 0, 1), Member(y, 1, 1)];
      AllPoints(h, ms, 1, 1) == [PointOf(h, ms[0], 0), PointOf(h, ms[1], 0)] && Total(ms, 1, 1) == 2
  {
    hide AllPoints, Total, PointOf;
    var none: seq<Member<Key>>, e, f: Member<Key> := [], Member(x, 0, 1), Member(y, 1, 1);
    NoPoints(h, none);
    UnitPoints(h, none, e);
    UnitPoints(h, [e], f);
    assert none + [e] == [e] && [e] + [f] == [e, f];
  }

  /**
   * Two members whose hashes collide completely: whichever the slice lists first wins, so reordering moves every
   * key.
   */
  lemma CollisionFollowsOrder<Key>(h: Hashes<Key>, x: Key, y: Key, request: u64)
    requires x != y && h.ownerOf(x) == h.ownerOf(y) && h.positionOf(x, 0) == h.positionOf(y, 0)
    ensures SameMembership(Pair(x, y), Pair(y, x))
    ensures FreshPick(h, 1, 2, Pair(x, y), request) == Ok(0) && FreshPick(h, 1, 2, Pair(y, x), request) == Ok(0)
  {
    SameEntriesSameWeights(Pair(x, y), Pair(y, x));
    FirstOfCollidingWins(h, x, y, request);
    FirstOfCollidingWins(h, y, x, request);
  }

  lemma FirstOfCollidingWins<Key>(h: Hashes<Key>, x: Key, y: Key, request: u64)
    requires x != y && h.ownerOf(x) == h.ownerOf(y) && h.positionOf(x, 0) == h.positionOf(y, 0)
    ensures FreshPick(h, 1, 2, Pair(x, y), request) == Ok(0)
  {
    hide Members, Divisor, AllPoints, Total, RingOf;
    PairMembers(x, y);
    PairPoints(h, x, y);
    var points := AllPoints(h, [Member(x, 0, 1), Member(y, 1, 1)], 1, 1);
    assert IsNearest(points, request, points[0]);
    NearestIsUnique(points, request, points[0], ClockwiseScan(points, request));
  }
}
