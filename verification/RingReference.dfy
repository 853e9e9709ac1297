/** The ring-hash answer read straight off the hashes: the nearest replica of any eligible identity. */
module RingReference {
  import opened Arith
  import opened Core
  import opened Listings
  import opened Primality
  import opened WeightGcd
  import opened Ring
  import opened RingHashPolicy
  import opened RingLaws
  import opened RingOrder
  import Sums

  /** The candidate at `i` has a replica numbered `r`. */
  predicate Placed<Key>(cs: seq<Candidate<Key>>, g: nat, perWeight: u32, i: nat, r: nat)
    requires g > 0
  {
    i < |cs| && cs[i].eligible && r < (cs[i].weight / g) * perWeight
  }

  /** How far clockwise of the request a position lies on the circle of 2^64 positions. */
  function Distance(request: u64, position: u64): nat {
    if position >= request then position - request else position + 0x1_0000_0000_0000_0000 - request
  }

  /** Replica `r` of candidate `i` is met no later than replica `q` of candidate `j`. */
  predicate NoLater<Key>(
      h: Hashes<Key>, cs: seq<Candidate<Key>>, request: u64, i: nat, r: nat, j: nat, q: nat)
    requires i < |cs| && j < |cs|
  {
    var here, there := Distance(request, h.positionOf(cs[i].id, r)), Distance(request, h.positionOf(cs[j].id, q));
    var mine, other := h.ownerOf(cs[i].id), h.ownerOf(cs[j].id);
    || here < there
    || (here == there && (mine < other || (mine == other && (r < q || (r == q && i <= j)))))
  }

  /** The divisor is the greatest common one of the eligible weights. */
  lemma DivisorIsGreatest<Key>(cs: seq<Candidate<Key>>, d: nat)
    requires d > 0
    ensures Divides(d, Divisor(Members(cs))) <==>
      forall i :: 0 <= i < |cs| && cs[i].eligible ==> Divides(d, cs[i].weight)
    ensures Members(cs) != [] ==> Divisor(Members(cs)) > 0
  {
    hide Members, GcdOf, Divides;
    var ms := Members(cs);
    if ms == [] {
      NothingDivides(d);
      NobodyListed(cs);
    } else {
      GcdOfDivisors(WeightsOf(ms), d);
      forall i | 0 <= i < |cs| && cs[i].eligible
        ensures exists k :: 0 <= k < |ms| && ms[k].weight == cs[i].weight
      {
        var k := MemberListed(cs, i);
        assert ms[k].weight == cs[i].weight;
      }
      forall k | 0 <= k < |ms|
        ensures exists i :: 0 <= i < |cs| && cs[i].eligible && cs[i].weight == WeightsOf(ms)[k]
      {
        var i := MembersWeigh(cs, k);
        assert cs[i].weight == WeightsOf(ms)[k];
      }
      if Divides(d, Divisor(ms)) {
        forall i | 0 <= i < |cs| && cs[i].eligible
          ensures Divides(d, cs[i].weight)
        {
          var k :| 0 <= k < |ms| && ms[k].weight == cs[i].weight;
          assert WeightsOf(ms)[k] == cs[i].weight;
        }
      }
    }
  }

  lemma NothingDivides(d: nat)
    requires d > 0
    ensures Divides(d, 0)
  {
    DivModUnique(0, d, 0, 0);
  }

  lemma ReplicasArePlaced<Key>(cs: seq<Candidate<Key>>, g: nat, perWeight: u32, i: nat, r: nat)
    requires g > 0 && i < |cs| && cs[i].eligible
    ensures r < Replicas(MemberOf(cs[i], i), g, perWeight) <==> Placed(cs, g, perWeight, i, r)
  {
  }

  lemma NearerIsNoLater<Key>(h: Hashes<Key>, cs: seq<Candidate<Key>>, request: u64, i: nat, r: nat, j: nat, q: nat)
    requires i < |cs| && j < |cs|
    requires Nearer(request, Point(h.positionOf(cs[i].id, r), h.ownerOf(cs[i].id), r, i),
                    Point(h.positionOf(cs[j].id, q), h.ownerOf(cs[j].id), q, j))
    ensures NoLater(h, cs, request, i, r, j, q)
  {
    ClockwiseValue(request, h.positionOf(cs[i].id, r));
    ClockwiseValue(request, h.positionOf(cs[j].id, q));
  }

  lemma PlacedIsOnRing<Key>(
      h: Hashes<Key>, cs: seq<Candidate<Key>>, g: nat, perWeight: u32, i: nat, r: nat)
    requires g > 0 && Placed(cs, g, perWeight, i, r)
    ensures Point(h.positionOf(cs[i].id, r), h.ownerOf(cs[i].id), r, i) in AllPoints(h, Members(cs), g, perWeight)
  {
    var p := Point(h.positionOf(cs[i].id, r), h.ownerOf(cs[i].id), r, i);
    ReplicasArePlaced(cs, g, perWeight, i, r);
    hide AllPoints, Members;
    PointsAreOnRing(h, cs, g, perWeight, p);
  }

  lemma OnRingIsPlaced<Key>(
      h: Hashes<Key>, cs: seq<Candidate<Key>>, g: nat, perWeight: u32, p: Point)
    requires g > 0 && p in AllPoints(h, Members(cs), g, perWeight)
    ensures Placed(cs, g, perWeight, p.index, p.replica)
    ensures p == Point(h.positionOf(cs[p.index].id, p.replica), h.ownerOf(cs[p.index].id), p.replica, p.index)
  {
    PointsAreOnRing(h, cs, g, perWeight, p);
    hide AllPoints, Members;
    ReplicasArePlaced(cs, g, perWeight, p.index, p.replica);
  }

  /** A winner exists unless an identity repeats, nobody is eligible, or the replicas exceed the cap. */
  lemma PickSucceedsIff<Key>(
      h: Hashes<Key>, perWeight: u32, maxNodes: usize, cs: seq<Candidate<Key>>, request: u64)
    requires perWeight >= 1
    ensures FreshPick(h, perWeight, maxNodes, cs, request).Ok? <==>
      && UniqueEligible(cs) && Divisor(Members(cs)) > 0
      && Sums.Sum(PointShares(Weights(cs), Divisor(Members(cs)), perWeight)) <= maxNodes
    ensures Divisor(Members(cs)) > 0 <==> exists i :: 0 <= i < |cs| && cs[i].eligible
  {
    hide AllPoints, Members, Total, ClockwiseScan, RingOf, GcdOf, Sums.Sum, PointShares;
    var ms, g := Members(cs), Divisor(Members(cs));
    PointCountIsExact(h, ms, g, perWeight);
    if ms == [] {
      NobodyListed(cs);
      NoMembersNoPoints(h, perWeight);
    } else {
      var i := MembersWeigh(cs, 0);
      SomePoint(ms, perWeight);
      if UniqueEligible(cs) {
        TotalIsSumOfShares(cs, g, perWeight);
      }
    }
  }

  /** An empty slice and one with nobody eligible are told apart, and nothing else is reported so. */
  lemma NobodyToPick<Key>(
      h: Hashes<Key>, perWeight: u32, maxNodes: usize, cs: seq<Candidate<Key>>, request: u64)
    requires perWeight >= 1
    ensures FreshPick(h, perWeight, maxNodes, cs, request) == Err(Empty) <==> cs == []
    ensures FreshPick(h, perWeight, maxNodes, cs, request) == Err(NoEligibleCandidates) <==>
      cs != [] && forall i :: 0 <= i < |cs| ==> !cs[i].eligible
  {
    PickSucceedsIff(h, perWeight, maxNodes, cs, request);
    hide AllPoints, Members, ClockwiseScan, RingOf, GcdOf, UniqueEligible;
    if Members(cs) == [] {
      NobodyListed(cs);
      assert UniqueEligible(cs) by { NobodyIsUnique(cs); }
    } else {
      var i := MembersWeigh(cs, 0);
      PointCountIsExact(h, Members(cs), Divisor(Members(cs)), perWeight);
      SomePoint(Members(cs), perWeight);
    }
  }

  lemma NobodyIsUnique<Key>(cs: seq<Candidate<Key>>)
    requires forall i :: 0 <= i < |cs| ==> !cs[i].eligible
    ensures UniqueEligible(cs)
  {
  }

  lemma NobodyListed<Key>(cs: seq<Candidate<Key>>)
    requires Members(cs) == []
    ensures forall i :: 0 <= i < |cs| ==> !cs[i].eligible
  {
    if i :| 0 <= i < |cs| && cs[i].eligible {
      var k := MemberListed(cs, i);
    }
  }

  lemma SomePoint<Key>(ms: seq<Member<Key>>, perWeight: u32)
    requires ms != [] && perWeight >= 1
    ensures Divisor(ms) > 0 && Total(ms, Divisor(ms), perWeight) > 0
  {
    EveryMemberOwnsPoints(ms, |ms| - 1, perWeight);
    hide Replicas, Divisor;
  }

  /**
   * The winner holds the replica first met going clockwise from the request, among all replicas of all eligible
   * identities; replicas at one position are told apart by owner hash, then number, then place in the slice.
   */
  lemma WinnerIsNearest<Key>(
      h: Hashes<Key>, perWeight: u32, maxNodes: usize, cs: seq<Candidate<Key>>, request: u64)
    returns (i: nat, r: nat)
    requires FreshPick(h, perWeight, maxNodes, cs, request).Ok?
    ensures Divisor(Members(cs)) > 0 && FreshPick(h, perWeight, maxNodes, cs, request) == Ok(i)
    ensures Placed(cs, Divisor(Members(cs)), perWeight, i, r)
    ensures forall j: nat, q: nat :: Placed(cs, Divisor(Members(cs)), perWeight, j, q) ==>
      NoLater(h, cs, request, i, r, j, q)
  {
    hide AllPoints, Members, ClockwiseScan, Divisor, RingOf, UniqueEligible, Total, NoLater, Nearer;
    var g := Divisor(Members(cs));
    NonemptyRing(h, cs, perWeight);
    var points := AllPoints(h, Members(cs), g, perWeight);
    var p := ClockwiseScan(points, request);
    OnRingIsPlaced(h, cs, g, perWeight, p);
    i, r := p.index, p.replica;
    forall j: nat, q: nat | Placed(cs, g, perWeight, j, q)
      ensures NoLater(h, cs, request, i, r, j, q)
    {
      PlacedInSlice(cs, g, perWeight, i, r);
      PlacedInSlice(cs, g, perWeight, j, q);
      PlacedIsOnRing(h, cs, g, perWeight, j, q);
      NearerIsNoLater(h, cs, request, i, r, j, q);
    }
  }

  lemma PlacedInSlice<Key>(cs: seq<Candidate<Key>>, g: nat, perWeight: u32, i: nat, r: nat)
    requires g > 0 && Placed(cs, g, perWeight, i, r)
    ensures i < |cs| && cs[i].eligible
  {
  }

  /** Every replica serves the requests that fall exactly on it, unless another identity stands there too. */
  lemma ReplicaServesItsPosition<Key>(
      h: Hashes<Key>, perWeight: u32, maxNodes: usize, cs: seq<Candidate<Key>>, request: u64, i: nat, r: nat)
    requires FreshPick(h, perWeight, maxNodes, cs, request).Ok? && Divisor(Members(cs)) > 0
    requires Placed(cs, Divisor(Members(cs)), perWeight, i, r) && request == h.positionOf(cs[i].id, r)
    requires forall j: nat, q: nat :: Placed(cs, Divisor(Members(cs)), perWeight, j, q) && j != i ==>
      h.positionOf(cs[j].id, q) != request
    ensures FreshPick(h, perWeight, maxNodes, cs, request) == Ok(i)
  {
    hide Members, Divisor, FreshPick;
    var w, v := WinnerIsNearest(h, perWeight, maxNodes, cs, request);
    PlacedInSlice(cs, Divisor(Members(cs)), perWeight, w, v);
    PlacedInSlice(cs, Divisor(Members(cs)), perWeight, i, r);
    assert NoLater(h, cs, request, w, v, i, r);
  }
}
