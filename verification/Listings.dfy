/** Lists with one entry per eligible candidate, in slice order: what the cached policies commit. */
module Listings {
  import opened Core

  function Listing<Id, E>(cs: seq<Candidate<Id>>, entry: (Candidate<Id>, nat) -> E): seq<E> {
    if cs == [] then [] else
      var last := |cs| - 1;
      Listing(cs[..last], entry) + if cs[last].eligible then [entry(cs[last], last)] else []
  }

  lemma {:induction false} ListingMirrors<Id, E>(cs: seq<Candidate<Id>>, entry: (Candidate<Id>, nat) -> E)
    ensures var es, indices := Listing(cs, entry), EligibleIndices(cs);
      |es| == |indices| && forall k :: 0 <= k < |es| ==> es[k] == entry(cs[indices[k]], indices[k])
  {
    if cs != [] {
      ListingMirrors(cs[..|cs| - 1], entry);
    }
  }

  lemma ListingCovers<Id, E>(cs: seq<Candidate<Id>>, entry: (Candidate<Id>, nat) -> E)
    ensures forall i :: 0 <= i < |cs| && cs[i].eligible ==> entry(cs[i], i) in Listing(cs, entry)
  {
    hide Listing;
    ListingMirrors(cs, entry);
    var indices := EligibleIndices(cs);
    forall i | 0 <= i < |cs| && cs[i].eligible
      ensures entry(cs[i], i) in Listing(cs, entry)
    {
      var k :| 0 <= k < |indices| && indices[k] == i;
      assert Listing(cs, entry)[k] == entry(cs[i], i);
    }
  }

  lemma {:induction false} ListingPrefix<Id, E>(cs: seq<Candidate<Id>>, entry: (Candidate<Id>, nat) -> E, i: nat)
    requires i <= |cs|
    ensures Listing(cs[..i], entry) <= Listing(cs, entry)
    decreases |cs|
  {
    if i < |cs| {
      var last := |cs| - 1;
      assert cs[..last][..i] == cs[..i];
      ListingPrefix(cs[..last], entry, i);
    } else {
      assert cs[..i] == cs;
    }
  }

  /** No two of these positions hold the same identity. */
  ghost predicate UniqueAt<Id>(cs: seq<Candidate<Id>>, indices: seq<nat>)
    requires forall k :: 0 <= k < |indices| ==> indices[k] < |cs|
  {
    forall j, k :: 0 <= j < k < |indices| ==> cs[indices[j]].id != cs[indices[k]].id
  }

  lemma UniqueByIndex<Id>(cs: seq<Candidate<Id>>)
    ensures UniqueEligible(cs) <==> UniqueAt(cs, EligibleIndices(cs))
  {
    hide EligibleIndices;
    var indices := EligibleIndices(cs);
    if UniqueAt(cs, indices) {
      forall i, j | 0 <= i < j < |cs| && cs[i].eligible && cs[j].eligible
        ensures cs[i].id != cs[j].id
      {
        var x :| 0 <= x < |indices| && indices[x] == i;
        var y :| 0 <= y < |indices| && indices[y] == j;
        assert x < y;
      }
    }
  }

  /** A listing repeats no identity exactly when the slice repeats none among its eligible candidates. */
  lemma ListingKeepsUniqueness<Id, E>(
      cs: seq<Candidate<Id>>, entry: (Candidate<Id>, nat) -> E, key: E -> Id)
    requires forall i :: 0 <= i < |cs| ==> key(entry(cs[i], i)) == cs[i].id
    ensures UniqueEligible(cs) <==>
      forall j, k :: 0 <= j < k < |Listing(cs, entry)| ==> key(Listing(cs, entry)[j]) != key(Listing(cs, entry)[k])
  {
    hide Listing, EligibleIndices, UniqueEligible;
    ListingMirrors(cs, entry);
    UniqueByIndex(cs);
    var es, indices := Listing(cs, entry), EligibleIndices(cs);
    assert forall k :: 0 <= k < |es| ==> key(es[k]) == cs[indices[k]].id;
  }

  // ----- the weights a slice presents

  /** Weight of every eligible identity in a slice. */
  ghost function Weights<Key>(cs: seq<Candidate<Key>>): map<Key, int> {
    if cs == [] then map[] else
      var last := |cs| - 1;
      var w := Weights(cs[..last]);
      if cs[last].eligible then w[cs[last].id := cs[last].weight] else w
  }

  lemma {:induction false} WeightsKeys<Key>(cs: seq<Candidate<Key>>)
    ensures forall i :: 0 <= i < |cs| && cs[i].eligible ==> cs[i].id in Weights(cs)
    ensures forall k :: k in Weights(cs) ==>
      Weights(cs)[k] >= 1 && exists i :: 0 <= i < |cs| && cs[i].eligible && cs[i].id == k
  {
    if cs != [] {
      var last := |cs| - 1;
      WeightsKeys(cs[..last]);
      forall i | 0 <= i < |cs| && cs[i].eligible
        ensures cs[i].id in Weights(cs)
      {
        assert i < last ==> cs[..last][i] == cs[i];
      }
      forall k | k in Weights(cs)
        ensures Weights(cs)[k] >= 1 && exists i :: 0 <= i < |cs| && cs[i].eligible && cs[i].id == k
      {
        if !(cs[last].eligible && cs[last].id == k) {
          var i :| 0 <= i < last && cs[..last][i].eligible && cs[..last][i].id == k;
          assert cs[i].eligible && cs[i].id == k;
        }
      }
    }
  }

  lemma NewIdentity<Key>(cs: seq<Candidate<Key>>)
    requires cs != [] && UniqueEligible(cs) && cs[|cs| - 1].eligible
    ensures cs[|cs| - 1].id !in Weights(cs[..|cs| - 1])
  {
    WeightsKeys(cs[..|cs| - 1]);
  }

  /** An eligible candidate's weight is the one its identity presents, when identities do not repeat. */
  lemma {:induction false} PresentedWeight<Key>(cs: seq<Candidate<Key>>, i: nat)
    requires UniqueEligible(cs) && i < |cs| && cs[i].eligible
    ensures cs[i].id in Weights(cs) && Weights(cs)[cs[i].id] == cs[i].weight
  {
    var last := |cs| - 1;
    if i < last {
      PresentedWeight(cs[..last], i);
    }
  }

  /** Slices with the same eligible entries, in any order, present the same weights. */
  lemma SameEntriesSameWeights<Key>(a: seq<Candidate<Key>>, b: seq<Candidate<Key>>)
    requires UniqueEligible(a) && UniqueEligible(b)
    requires forall c :: c in a && c.eligible ==> c in b
    requires forall c :: c in b && c.eligible ==> c in a
    ensures Weights(a) == Weights(b)
  {
    SomeEntriesSomeWeights(a, b);
    SomeEntriesSomeWeights(b, a);
  }

  lemma SomeEntriesSomeWeights<Key>(a: seq<Candidate<Key>>, b: seq<Candidate<Key>>)
    requires UniqueEligible(a) && UniqueEligible(b)
    requires forall c :: c in a && c.eligible ==> c in b
    ensures forall k :: k in Weights(a) ==> k in Weights(b) && Weights(a)[k] == Weights(b)[k]
  {
    hide Weights, UniqueEligible;
    WeightsKeys(a);
    forall k | k in Weights(a)
      ensures k in Weights(b) && Weights(a)[k] == Weights(b)[k]
    {
      var i :| 0 <= i < |a| && a[i].eligible && a[i].id == k;
      var j :| 0 <= j < |b| && b[j] == a[i];
      PresentedWeight(a, i);
      PresentedWeight(b, j);
    }
  }
}
