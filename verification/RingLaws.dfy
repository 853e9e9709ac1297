/** What the ring promises its users: proportional points, scale freedom, minimal disruption. */
module RingLaws {
  import opened Core
  import opened Listings
  import opened Arith
  import opened Primality
  import opened WeightGcd
  import opened Ring
  import opened RingHashPolicy

  // ----- how many points

  function ReducedTotal<Key>(ms: seq<Member<Key>>, g: nat): nat
    requires g > 0 || ms == []
  {
    if ms == [] then 0 else ReducedTotal(ms[..|ms| - 1], g) + ms[|ms| - 1].weight / g
  }

  /** The ring holds exactly multiplicity times the sum of reduced weights. */
  lemma {:induction false} PointCountIsExact<Key>(h: Hashes<Key>, ms: seq<Member<Key>>, g: nat, perWeight: u32)
    requires g > 0 || ms == []
    ensures |AllPoints(h, ms, g, perWeight)| == Total(ms, g, perWeight) == perWeight * ReducedTotal(ms, g)
  {
    if ms != [] {
      var n := |ms| - 1;
      PointCountIsExact(h, ms[..n], g, perWeight);
      var reduced := ms[n].weight / g;
      assert perWeight * (ReducedTotal(ms[..n], g) + reduced) ==
        perWeight * ReducedTotal(ms[..n], g) + reduced * perWeight;
    }
  }

  /** The common divisor divides each weight, so reduction is exact and leaves everybody at least one unit. */
  lemma EveryMemberOwnsPoints<Key>(ms: seq<Member<Key>>, k: nat, perWeight: u32)
    requires k < |ms|
    ensures var g := Divisor(ms);
      g > 0 && g * (ms[k].weight / g) == ms[k].weight && Replicas(ms[k], g, perWeight) >= perWeight
  {
    var g, w := Divisor(ms), ms[k].weight;
    MultipleIsDivisible(g, 1);
    GcdOfDivisors(WeightsOf(ms), g);
    assert Divides(g, WeightsOf(ms)[k]);
    assert w == g * (w / g);
    MulMonotone(1, perWeight, w / g, perWeight);
  }

  // ----- scaling every weight

  ghost predicate ScaledCopy<Key>(ms: seq<Member<Key>>, scaled: seq<Member<Key>>, c: nat) {
    && |scaled| == |ms|
    && forall k :: 0 <= k < |ms| ==>
         scaled[k].key == ms[k].key && scaled[k].index == ms[k].index && scaled[k].weight == c * ms[k].weight
  }

  lemma {:induction false} ScaledPoints<Key>(h: Hashes<Key>, ms: seq<Member<Key>>, scaled: seq<Member<Key>>,
                                             c: nat, g: nat, perWeight: u32)
    requires c > 0 && g > 0 && ScaledCopy(ms, scaled, c)
    ensures c * g > 0 && AllPoints(h, scaled, c * g, perWeight) == AllPoints(h, ms, g, perWeight)
  {
    MulMonotone(1, 1, c, g);
    if ms != [] {
      var n := |ms| - 1;
      assert ScaledCopy(ms[..n], scaled[..n], c);
      ScaledPoints(h, ms[..n], scaled[..n], c, g, perWeight);
      ScaledQuotient(ms[n].weight, g, c);
      var count := Replicas(ms[n], g, perWeight);
      assert MemberPoints(h, scaled[n], count) == MemberPoints(h, ms[n], count);
    }
  }

  /** Only weight ratios matter: a common factor changes neither the points nor their order. */
  lemma ScalingKeepsRing<Key>(h: Hashes<Key>, ms: seq<Member<Key>>, scaled: seq<Member<Key>>,
                              c: nat, perWeight: u32)
    requires c > 0 && ScaledCopy(ms, scaled, c)
    ensures AllPoints(h, scaled, Divisor(scaled), perWeight) == AllPoints(h, ms, Divisor(ms), perWeight)
    ensures RingOf(h, scaled, perWeight) == RingOf(h, ms, perWeight)
  {
    if ms != [] {
      assert WeightsOf(scaled) == Scaled(WeightsOf(ms), c);
      GcdOfScales(WeightsOf(ms), c);
      ScaledPoints(h, ms, scaled, c, Divisor(ms), perWeight);
    }
  }

  // ----- adding or removing one candidate

  /** A point belongs to the ring when its owner is eligible and its replica number is within the owner's count. */
  ghost predicate OnRing<Key>(h: Hashes<Key>, cs: seq<Candidate<Key>>, g: nat, perWeight: u32, q: Point)
    requires g > 0
  {
    && q.index < |cs| && cs[q.index].eligible
    && var e := Member(cs[q.index].id, q.index, cs[q.index].weight);
       q.replica < Replicas(e, g, perWeight) && q == PointOf(h, e, q.replica)
  }

  ghost predicate OfMember<Key>(h: Hashes<Key>, e: Member<Key>, g: nat, perWeight: u32, q: Point)
    requires g > 0
  {
    q.replica < Replicas(e, g, perWeight) && q == PointOf(h, e, q.replica)
  }

  lemma {:induction false} PointsOfMembers<Key>(h: Hashes<Key>, ms: seq<Member<Key>>, g: nat, perWeight: u32, q: Point)
    requires g > 0
    ensures q in AllPoints(h, ms, g, perWeight) <==> exists k :: 0 <= k < |ms| && OfMember(h, ms[k], g, perWeight, q)
  {
    if ms != [] {
      var n := |ms| - 1;
      PointsOfMembers(h, ms[..n], g, perWeight, q);
      var own := MemberPoints(h, ms[n], Replicas(ms[n], g, perWeight));
      if q in own {
        var r :| 0 <= r < |own| && own[r] == q;
        assert OfMember(h, ms[n], g, perWeight, q);
      }
      if OfMember(h, ms[n], g, perWeight, q) {
        assert own[q.replica] == q;
      }
      if k :| 0 <= k < |ms| && OfMember(h, ms[k], g, perWeight, q) {
        assert k < n ==> ms[..n][k] == ms[k];
      }
      if k :| 0 <= k < n && OfMember(h, ms[..n][k], g, perWeight, q) {
        assert ms[..n][k] == ms[k];
      }
    }
  }

  lemma PointsAreOnRing<Key>(
      h: Hashes<Key>, cs: seq<Candidate<Key>>, g: nat, perWeight: u32, q: Point)
    requires g > 0
    ensures q in AllPoints(h, Members(cs), g, perWeight) <==> OnRing(h, cs, g, perWeight, q)
  {
    hide AllPoints, Listing, Replicas;
    ListingMirrors(cs, MemberOf);
    ListingCovers(cs, MemberOf);
    PointsOfMembers(h, Members(cs), g, perWeight, q);
    var ms := Members(cs);
    if OnRing(h, cs, g, perWeight, q) {
      var e := MemberOf(cs[q.index], q.index);
      var k :| 0 <= k < |ms| && ms[k] == e;
      assert OfMember(h, ms[k], g, perWeight, q);
    }
  }

  function Inserted<Key>(cs: seq<Candidate<Key>>, at: nat, c: Candidate<Key>): seq<Candidate<Key>>
    requires at <= |cs|
  {
    cs[..at] + [c] + cs[at..]
  }

  /** Where a position of the shorter slice sits in the longer one. */
  function Shifted(at: nat, i: nat): nat {
    if i >= at then i + 1 else i
  }

  lemma InsertShiftsPoints<Key>(h: Hashes<Key>, cs: seq<Candidate<Key>>, at: nat, c: Candidate<Key>,
                                g: nat, perWeight: u32, q: Point)
    requires g > 0 && at <= |cs|
    ensures OnRing(h, cs, g, perWeight, q) <==>
      OnRing(h, Inserted(cs, at, c), g, perWeight, q.(index := Shifted(at, q.index)))
  {
    if q.index < |cs| {
      assert Inserted(cs, at, c)[Shifted(at, q.index)] == cs[q.index];
    }
  }

  /** Shifting keeps the order of points, collisions included. */
  lemma ShiftKeepsNearer(request: u64, at: nat, p: Point, q: Point)
    ensures Nearer(request, p, q) <==>
      Nearer(request, p.(index := Shifted(at, p.index)), q.(index := Shifted(at, q.index)))
  {
  }

  /** The nearest point of the longer ring is the newcomer's, or the shifted nearest point of the shorter ring. */
  lemma NearestAfterInsert<Key>(h: Hashes<Key>, cs: seq<Candidate<Key>>, at: nat, c: Candidate<Key>,
                                g: nat, perWeight: u32, request: u64, p: Point, p': Point)
    requires g > 0 && at <= |cs|
    requires IsNearest(AllPoints(h, Members(cs), g, perWeight), request, p)
    requires IsNearest(AllPoints(h, Members(Inserted(cs, at, c)), g, perWeight), request, p')
    ensures p'.index == at || p' == p.(index := Shifted(at, p.index))
  {
    hide AllPoints, Members, OnRing, Inserted;
    var points, points' :=
      AllPoints(h, Members(cs), g, perWeight), AllPoints(h, Members(Inserted(cs, at, c)), g, perWeight);
    if p'.index != at {
      var u := p'.(index := if p'.index > at then p'.index - 1 else p'.index);
      assert p' == u.(index := Shifted(at, u.index));
      InsertShiftsPoints(h, cs, at, c, g, perWeight, u);
      PointsAreOnRing(h, cs, g, perWeight, u);
      PointsAreOnRing(h, Inserted(cs, at, c), g, perWeight, p');
      var shifted := p.(index := Shifted(at, p.index));
      InsertShiftsPoints(h, cs, at, c, g, perWeight, p);
      PointsAreOnRing(h, cs, g, perWeight, p);
      PointsAreOnRing(h, Inserted(cs, at, c), g, perWeight, shifted);
      ShiftKeepsNearer(request, at, u, p);
      BothNearer(request, p, u);
    }
  }

  lemma BothNearer(request: u64, p: Point, q: Point)
    requires Nearer(request, p, q) && Nearer(request, q, p)
    ensures p == q
  {
    ClockwiseValue(request, p.position);
    ClockwiseValue(request, q.position);
  }

  /**
   * Minimal disruption, read in both directions: as long as the weight divisor is unchanged, adding
   * a candidate only moves keys to it, and removing it only moves the keys it held.
   */
  lemma MembershipChangeMovesOnlyItsKeys<Key>(
    h: Hashes<Key>, perWeight: u32, maxNodes: usize, cs: seq<Candidate<Key>>, at: nat, c: Candidate<Key>, request: u64)
    requires at <= |cs| && Divisor(Members(cs)) == Divisor(Members(Inserted(cs, at, c)))
    requires FreshPick(h, perWeight, maxNodes, cs, request).Ok?
    requires FreshPick(h, perWeight, maxNodes, Inserted(cs, at, c), request).Ok?
    ensures var i, j := FreshPick(h, perWeight, maxNodes, cs, request).value,
                        FreshPick(h, perWeight, maxNodes, Inserted(cs, at, c), request).value;
      && i < |cs| && j < |cs| + 1
      && (j == at || (j == Shifted(at, i) && Inserted(cs, at, c)[j] == cs[i]))
  {
    hide AllPoints, Members, ClockwiseScan, Divisor, RingOf, UniqueEligible;
    var longer := Inserted(cs, at, c);
    var ms, ms', g := Members(cs), Members(longer), Divisor(Members(cs));
    NonemptyRing(h, cs, perWeight);
    NonemptyRing(h, longer, perWeight);
    var p := ClockwiseScan(AllPoints(h, ms, g, perWeight), request);
    var p' := ClockwiseScan(AllPoints(h, ms', g, perWeight), request);
    PointsAreOnRing(h, cs, g, perWeight, p);
    PointsAreOnRing(h, longer, g, perWeight, p');
    NearestAfterInsert(h, cs, at, c, g, perWeight, request, p, p');
  }

  lemma NonemptyRing<Key>(h: Hashes<Key>, cs: seq<Candidate<Key>>, perWeight: u32)
    ensures AllPoints(h, Members(cs), Divisor(Members(cs)), perWeight) != [] ==> Divisor(Members(cs)) > 0
  {
  }
}
