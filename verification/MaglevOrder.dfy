/** Policy-level laws of Maglev: shares per candidate, and independence from slice order. */
module MaglevOrder {
  import opened Core
  import opened Arith
  import opened Primality
  import opened Sorting
  import opened MaglevTable
  import opened MaglevBalance
  import opened MaglevPolicy

  ghost function EligibleIds<Key>(cs: seq<Candidate<Key>>): set<Key> {
    set i | 0 <= i < |cs| && cs[i].eligible :: cs[i].id
  }

  function OrderKey<Key>(hash: (nat, Key) -> u64, k: Key): (u64, u64) {
    (hash(8, k), hash(9, k))
  }

  ghost predicate DistinctOrderKeys<Key(!new)>(hash: (nat, Key) -> u64, ids: set<Key>) {
    forall x, y :: x in ids && y in ids && OrderKey(hash, x) == OrderKey(hash, y) ==> x == y
  }

  /** The sorted permutations, seen as a list of candidate identities. */
  ghost predicate IsKeyList<Key>(hash: (nat, Key) -> u64, m: usize, cs: seq<Candidate<Key>>,
                                 sp: seq<Permutation>, ks: seq<Key>)
    requires m >= 2
  {
    && |ks| == |sp|
    && forall i :: 0 <= i < |sp| ==>
         && sp[i].index < |cs| && cs[sp[i].index].eligible && cs[sp[i].index].id == ks[i]
         && sp[i] == PermutationFor(hash, m, Member(ks[i], sp[i].index))
  }

  lemma SortedIndicesDistinct<Key>(
      hash: (nat, Key) -> u64, m: usize, cs: seq<Candidate<Key>>, sp: seq<Permutation>)
    requires IsPrime(m) && sp == SortedPermutations(hash, m, Members(cs))
    ensures forall i, j :: 0 <= i < j < |sp| ==> sp[i].index != sp[j].index
    ensures forall i :: 0 <= i < |cs| && cs[i].eligible ==> exists j :: 0 <= j < |sp| && sp[j].index == i
  {
    hide IsPrime;
    var ms := Members(cs);
    assert m >= 2 by { PrimeAtLeastTwo(m); }
    var ps := PermutationsFor(hash, m, ms);
    MembersMirrorCandidates(cs);
    SortedPermutationsMirrorMembers(hash, m, ms);

    assert Distinct(ps) by {
      assert forall j, k :: 0 <= j < k < |ps| ==> ps[j].index < ps[k].index;
    }
    PermutationKeepsDistinct(ps, sp);
    forall i, j | 0 <= i < j < |sp|
      ensures sp[i].index != sp[j].index
    {
      assert sp[i] in ps && sp[j] in ps;
    }
    forall i | 0 <= i < |cs| && cs[i].eligible
      ensures exists j :: 0 <= j < |sp| && sp[j].index == i
    {
      var k :| 0 <= k < |ms| && ms[k] == MemberOf(cs[i], i);
      assert ps[k] in sp;
    }
  }

  lemma KeyList<Key>(
      hash: (nat, Key) -> u64, m: usize, cs: seq<Candidate<Key>>, sp: seq<Permutation>)
    returns (ks: seq<Key>)
    requires IsPrime(m) && sp == SortedPermutations(hash, m, Members(cs)) && UniqueEligible(cs)
    ensures IsKeyList(hash, m, cs, sp, ks) && Distinct(ks)
    ensures forall k :: k in ks <==> k in EligibleIds(cs)
  {
    hide IsPrime, SortBy, Members, SortedPermutations, WellFormed;
    var ms := Members(cs);
    MembersMirrorCandidates(cs);
    SortedPermutationsMirrorMembers(hash, m, ms);
    SortedIndicesDistinct(hash, m, cs, sp);
    assert forall p :: p in sp ==> p.index < |cs|;
    ks := seq(|sp|, i requires 0 <= i < |sp| => assert sp[i] in sp; cs[sp[i].index].id);
    assert m >= 2 by { PrimeAtLeastTwo(m); }
    forall i | 0 <= i < |sp|
      ensures sp[i].index < |cs| && cs[sp[i].index].eligible && cs[sp[i].index].id == ks[i]
      ensures sp[i] == PermutationFor(hash, m, Member(ks[i], sp[i].index))
    {
      assert sp[i] in sp;
      var e :| e in ms && sp[i] == PermutationFor(hash, m, e);
    }
    forall k | k in EligibleIds(cs)
      ensures k in ks
    {
      var i :| 0 <= i < |cs| && cs[i].eligible && cs[i].id == k;
      var j :| 0 <= j < |sp| && sp[j].index == i;
      assert ks[j] == k;
    }
  }

  lemma KeyListSorted<Key(!new)>(
      hash: (nat, Key) -> u64, m: usize, cs: seq<Candidate<Key>>, sp: seq<Permutation>, ks: seq<Key>)
    requires IsPrime(m) && sp == SortedPermutations(hash, m, Members(cs))
    requires IsKeyList(hash, m, cs, sp, ks)
    ensures Sorted(ks, (x, y) => LexLeq(OrderKey(hash, x), OrderKey(hash, y)))
  {
    SortedPermutationsMirrorMembers(hash, m, Members(cs));
    forall i, j | 0 <= i < j < |ks|
      ensures LexLeq(OrderKey(hash, ks[i]), OrderKey(hash, ks[j]))
    {
      assert OrderLeq(sp[i], sp[j]);
    }
  }

  /** Distinct order keys make the sorted identity list a function of the identity set. */
  lemma KeyListsAgree<Key(!new)>(hash: (nat, Key) -> u64, ka: seq<Key>, kb: seq<Key>, ids: set<Key>)
    requires Sorted(ka, (x, y) => LexLeq(OrderKey(hash, x), OrderKey(hash, y)))
    requires Sorted(kb, (x, y) => LexLeq(OrderKey(hash, x), OrderKey(hash, y)))
    requires Distinct(ka) && Distinct(kb) && DistinctOrderKeys(hash, ids)
    requires forall k :: k in ka <==> k in ids
    requires forall k :: k in kb <==> k in ids
    ensures ka == kb
  {
    var leq := (x, y) => LexLeq(OrderKey(hash, x), OrderKey(hash, y));
    SameElementsSameMultiset(ka, kb);
    SortedUnique(ka, kb, leq);
  }

  lemma AlignedKeyLists<Key(!new)>(hash: (nat, Key) -> u64, m: usize,
                            a: seq<Candidate<Key>>, b: seq<Candidate<Key>>)
    returns (ks: seq<Key>)
    requires IsPrime(m) && UniqueEligible(a) && UniqueEligible(b) && EligibleIds(a) == EligibleIds(b)
    requires DistinctOrderKeys(hash, EligibleIds(a))
    ensures IsKeyList(hash, m, a, SortedPermutations(hash, m, Members(a)), ks)
    ensures IsKeyList(hash, m, b, SortedPermutations(hash, m, Members(b)), ks)
  {
    hide IsPrime, SortBy, Members, UniqueEligible, EligibleIds, DistinctOrderKeys;
    assert m >= 2 by { PrimeAtLeastTwo(m); }
    var sa, sb := SortedPermutations(hash, m, Members(a)), SortedPermutations(hash, m, Members(b));
    var ka := KeyList(hash, m, a, sa);
    var kb := KeyList(hash, m, b, sb);
    KeyListSorted(hash, m, a, sa, ka);
    KeyListSorted(hash, m, b, sb, kb);
    KeyListsAgree(hash, ka, kb, EligibleIds(a));
    ks := ka;
  }

  /** A fresh pick reads the owner of the request's slot. */
  lemma FreshPickReadsOwner<Key>(
      hash: (nat, Key) -> u64, m: usize, cs: seq<Candidate<Key>>, request: u64)
    requires IsPrime(m) && UniqueEligible(cs)
    ensures FreshPick(hash, m, cs, request).Ok? <==> 0 < |Members(cs)| <= m
    ensures FreshPick(hash, m, cs, request).Ok? ==>
      var sp := SortedPermutations(hash, m, Members(cs));
      && TableInput(sp, m) && |sp| == |Members(cs)|
      && FreshPick(hash, m, cs, request).value == sp[OwnerOf(sp, m, request % m)].index
  {
    hide IsPrime, SortBy, Members, UniqueEligible, SortedPermutations, OwnerOf, FilledTable, WellFormed;
    SortedPermutationsMirrorMembers(hash, m, Members(cs));
  }

  /** With distinct order keys, the identity that wins a request does not depend on slice order. */
  lemma ReorderingKeepsWinner<Key(!new)>(
    hash: (nat, Key) -> u64, m: usize, a: seq<Candidate<Key>>, b: seq<Candidate<Key>>, request: u64)
    requires IsPrime(m) && UniqueEligible(a) && UniqueEligible(b) && EligibleIds(a) == EligibleIds(b)
    requires DistinctOrderKeys(hash, EligibleIds(a))
    ensures FreshPick(hash, m, a, request).Ok? <==> FreshPick(hash, m, b, request).Ok?
    ensures FreshPick(hash, m, a, request).Ok? ==>
      var i, j := FreshPick(hash, m, a, request).value, FreshPick(hash, m, b, request).value;
      && i < |a| && j < |b| && a[i].eligible && b[j].eligible && a[i].id == b[j].id
  {
    hide IsPrime, SortBy, Members, UniqueEligible, EligibleIds, DistinctOrderKeys, FreshPick, OwnerOf,
      SortedPermutations;
    assert m >= 2 by { PrimeAtLeastTwo(m); }
    var ks := AlignedKeyLists(hash, m, a, b);
    var sa, sb := SortedPermutations(hash, m, Members(a)), SortedPermutations(hash, m, Members(b));
    FreshPickReadsOwner(hash, m, a, request);
    FreshPickReadsOwner(hash, m, b, request);
    assert |sa| == |Members(a)| by { SortedPermutationsMirrorMembers(hash, m, Members(a)); }
    assert |sb| == |Members(b)| by { SortedPermutationsMirrorMembers(hash, m, Members(b)); }
    if FreshPick(hash, m, a, request).Ok? {
      RelabelKeepsOwner(sa, sb, m, request % m);
    }
  }

  /** Each eligible candidate owns the floor or, if early in sort order, the ceiling of its share. */
  lemma CandidateShare<Key>(hash: (nat, Key) -> u64, m: usize, cs: seq<Candidate<Key>>, i: nat)
    requires IsPrime(m) && UniqueEligible(cs) && |Members(cs)| <= m && i < |cs| && cs[i].eligible
    ensures
      var sp, table := SortedPermutations(hash, m, Members(cs)), FreshOutcome(hash, m, cs).value.1;
      exists j :: 0 <= j < |sp| && sp[j].index == i
        && |set s: nat | s in Below(m) && table[s] == i| == m / |sp| + (if j < m % |sp| then 1 else 0)
        && m / |sp| >= 1
  {
    hide IsPrime, SortBy, Members, UniqueEligible, SortedPermutations, OwnerOf, FilledTable, WellFormed;
    assert m >= 2 by { PrimeAtLeastTwo(m); }
    var sp := SortedPermutations(hash, m, Members(cs));
    SortedIndicesDistinct(hash, m, cs, sp);
    SortedPermutationsMirrorMembers(hash, m, Members(cs));
    var j :| 0 <= j < |sp| && sp[j].index == i;
    assert TableInput(sp, m);
    hide TableInput, SlotsOf, FreshOutcome, Sorted;
    ShareIsBalanced(sp, m, j);
    LabelledSlots(sp, m, j);
    QuotientAtLeast(m, |sp|, 1);
  }
}
