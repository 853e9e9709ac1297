/** The cached Maglev policy: reconciliation, lookup, and equality with an uncached build. */
module MaglevPolicy {
  import opened Core
  import opened Listings
  import opened Primality
  import opened Sorting
  import opened MaglevTable
  import opened MaglevBalance

  datatype Member<+Key> = Member(key: Key, index: nat)

  datatype MaglevUpdate = Unchanged | Rebuilt(members: nat, tableSize: nat)

  function MemberOf<Key>(c: Candidate<Key>, i: nat): Member<Key> {
    Member(c.id, i)
  }

  /** The committed member list a candidate slice calls for. */
  function Members<Key>(cs: seq<Candidate<Key>>): seq<Member<Key>> {
    Listing(cs, MemberOf)
  }

  lemma MembersMirrorCandidates<Key>(cs: seq<Candidate<Key>>)
    ensures forall k :: 0 <= k < |Members(cs)| ==>
      var e := Members(cs)[k]; e.index < |cs| && cs[e.index].eligible && cs[e.index].id == e.key
    ensures forall j, k :: 0 <= j < k < |Members(cs)| ==> Members(cs)[j].index < Members(cs)[k].index
    ensures forall i :: 0 <= i < |cs| && cs[i].eligible ==> MemberOf(cs[i], i) in Members(cs)
  {
    hide Listing;
    ListingMirrors(cs, MemberOf);
    ListingCovers(cs, MemberOf);
  }

  function PermutationFor<Key>(hash: (nat, Key) -> u64, m: usize, e: Member<Key>): Permutation
    requires m >= 2
  {
    Permutation(hash(6, e.key) % m, hash(7, e.key) % (m - 1) + 1, e.index, (hash(8, e.key), hash(9, e.key)))
  }

  function PermutationsFor<Key>(hash: (nat, Key) -> u64, m: usize, ms: seq<Member<Key>>): (r: seq<Permutation>)
    requires m >= 2
    ensures |r| == |ms|
  {
    seq(|ms|, k requires 0 <= k < |ms| => PermutationFor(hash, m, ms[k]))
  }

  predicate LexLeq(a: (u64, u64), b: (u64, u64)) {
    a.0 < b.0 || (a.0 == b.0 && a.1 <= b.1)
  }

  predicate OrderLeq(p: Permutation, q: Permutation) {
    LexLeq(p.order, q.order) && (p.order == q.order ==> p.index <= q.index)
  }

  lemma OrderLeqIsTotalPreorder()
    ensures TotalPreorder(OrderLeq)
  {
  }

  ghost function SortedPermutations<Key>(hash: (nat, Key) -> u64, m: usize, ms: seq<Member<Key>>): seq<Permutation>
    requires m >= 2
  {
    SortBy(PermutationsFor(hash, m, ms), OrderLeq)
  }

  lemma SortedPermutationsMirrorMembers<Key>(hash: (nat, Key) -> u64, m: usize, ms: seq<Member<Key>>)
    requires IsPrime(m)
    ensures var r := SortedPermutations(hash, m, ms);
      && |r| == |ms| && Sorted(r, OrderLeq) && multiset(r) == multiset(PermutationsFor(hash, m, ms))
      && forall p :: p in r ==> WellFormed(p, m) && exists e :: e in ms && p == PermutationFor(hash, m, e)
  {
    hide SortBy, IsPrime, OrderLeq;
    OrderLeqIsTotalPreorder();
    assert m >= 2 by { PrimeAtLeastTwo(m); }
    var ps := PermutationsFor(hash, m, ms);
    var r := SortedPermutations(hash, m, ms);
    SortBySorted(ps, OrderLeq);
    assert |r| == |multiset(r)| == |ps|;
    forall p | p in r
      ensures WellFormed(p, m) && exists e :: e in ms && p == PermutationFor(hash, m, e)
    {
      assert p in multiset(ps);
      var k :| 0 <= k < |ps| && ps[k] == p;
      assert p == PermutationFor(hash, m, ms[k]);
    }
  }

  /** The table a member list determines. */
  ghost function TableOf<Key>(hash: (nat, Key) -> u64, m: usize, ms: seq<Member<Key>>): (table: seq<nat>)
    requires IsPrime(m)
    ensures |table| == if ms == [] then 0 else m
  {
    if ms == [] then [] else
      SortedPermutationsMirrorMembers(hash, m, ms);
      FilledTable(SortedPermutations(hash, m, ms), m)
  }

  ghost predicate DistinctKeys<Key>(ms: seq<Member<Key>>) {
    forall j, k :: 0 <= j < k < |ms| ==> ms[j].key != ms[k].key
  }

  lemma DistinctKeysMeansUniqueEligible<Key>(cs: seq<Candidate<Key>>)
    ensures DistinctKeys(Members(cs)) <==> UniqueEligible(cs)
  {
    hide Listing;
    ListingKeepsUniqueness(cs, MemberOf, (e: Member<Key>) => e.key);
  }

  /** What building from nothing yields for a slice. */
  ghost function FreshOutcome<Key>(hash: (nat, Key) -> u64, m: usize, cs: seq<Candidate<Key>>)
    : Result<(seq<Member<Key>>, seq<nat>), PickError>
    requires IsPrime(m)
  {
    var ms := Members(cs);
    if |ms| > m then Err(StateCapacityExceeded)
    else if !UniqueEligible(cs) then Err(DuplicateIdentity)
    else Ok((ms, TableOf(hash, m, ms)))
  }

  /** The pick of a policy with no history. */
  ghost function FreshPick<Key>(hash: (nat, Key) -> u64, m: usize, cs: seq<Candidate<Key>>, request: u64)
    : Result<nat, PickError>
    requires IsPrime(m)
  {
    match FreshOutcome(hash, m, cs)
    case Err(e) => Err(e)
    case Ok((ms, table)) =>
      if table == [] then Err(NoCandidateError(|cs|)) else Ok(table[request % |table|])
  }

  lemma NobodyListed<Key>(cs: seq<Candidate<Key>>)
    ensures Members(cs) == [] <==> forall i :: 0 <= i < |cs| ==> !cs[i].eligible
  {
    hide Listing;
    MembersMirrorCandidates(cs);
    if Members(cs) != [] {
      var e := Members(cs)[0];
      assert cs[e.index].eligible;
    }
  }

  /** An empty slice and one with nobody eligible are told apart, and nothing else is reported so. */
  lemma NobodyToPick<Key>(hash: (nat, Key) -> u64, m: usize, cs: seq<Candidate<Key>>, request: u64)
    requires IsPrime(m)
    ensures FreshPick(hash, m, cs, request) == Err(Empty) <==> cs == []
    ensures FreshPick(hash, m, cs, request) == Err(NoEligibleCandidates) <==>
      cs != [] && forall i :: 0 <= i < |cs| ==> !cs[i].eligible
  {
    hide Members, UniqueEligible, SortedPermutations, IsPrime;
    NobodyListed(cs);
    assert m >= 2 by { PrimeAtLeastTwo(m); }
    if Members(cs) == [] {
      assert UniqueEligible(cs) by { DistinctKeysMeansUniqueEligible(cs); }
    }
  }

  class Maglev<Key(==)> {
    const tableSize: usize
    /** Identity hash under a domain byte. */
    const hash: (nat, Key) -> u64
    var members: seq<Member<Key>>
    var table: seq<nat>
    var generation: u64

    ghost predicate Valid()
      reads this
    {
      && IsPrime(tableSize) && tableSize <= MAX_TABLE_SIZE
      && |members| <= tableSize && DistinctKeys(members)
      && table == TableOf(hash, tableSize, members)
    }

    constructor (tableSize: usize, hash: (nat, Key) -> u64)
      requires IsPrime(tableSize) && tableSize <= MAX_TABLE_SIZE
      ensures Valid() && members == [] && generation == 0
      ensures this.tableSize == tableSize && this.hash == hash
    {
      this.tableSize := tableSize;
      this.hash := hash;
      members, table, generation := [], [], 0;
    }

    method Reset()
      requires Valid()
      modifies this
      ensures Valid() && members == [] && table == [] && generation == 0
    {
      members, table, generation := [], [], 0;
    }

    method Matches(cs: seq<Candidate<Key>>) returns (same: bool)
      ensures same <==> members == Members(cs)
    {
      var next := 0;
      var i := 0;
      while i < |cs|
        invariant 0 <= i <= |cs| && 0 <= next <= |members|
        invariant members[..next] == Members(cs[..i])
      {
        assert cs[..i + 1][..i] == cs[..i];
        ListingPrefix(cs, MemberOf, i + 1);
        if cs[i].eligible {
          ghost var expected := Members(cs[..i + 1]);
          assert expected == members[..next] + [Member(cs[i].id, i)];
          if next == |members| {
            return false;
          }
          if members[next].index != i || members[next].key != cs[i].id {
            assert expected[next] == Members(cs)[next];
            return false;
          }
          next := next + 1;
        }
        i := i + 1;
      }
      assert cs[..i] == cs;
      return next == |members|;
    }

    method HasDuplicate(cs: seq<Candidate<Key>>) returns (duplicate: bool)
      ensures duplicate <==> !UniqueEligible(cs)
    {
      var seen: set<Key> := {};
      for i := 0 to |cs|
        invariant seen == set j | 0 <= j < i && cs[j].eligible :: cs[j].id
        invariant UniqueEligible(cs[..i])
      {
        if cs[i].eligible {
          if cs[i].id in seen {
            return true;
          }
          seen := seen + {cs[i].id};
        }
      }
      assert cs[..|cs|] == cs;
      return false;
    }

    /** An error leaves the cache alone; success leaves exactly what a fresh build would hold. */
    method Reconcile(cs: seq<Candidate<Key>>) returns (r: Result<MaglevUpdate, PickError>)
      requires Valid() && |cs| <= UNFILLED
      modifies this
      ensures Valid()
      ensures FreshOutcome(hash, tableSize, cs).Err? ==>
        r == Err(FreshOutcome(hash, tableSize, cs).error) && unchanged(this)
      ensures FreshOutcome(hash, tableSize, cs).Ok? ==>
        && (members, table) == FreshOutcome(hash, tableSize, cs).value
        && (if old(members) == Members(cs) then
              r == Ok(Unchanged) && generation == old(generation)
            else
              r == Ok(Rebuilt(|members|, |table|)) && generation == (old(generation) + 1) % U64_LIMIT)
    {
      hide IsPrime, FilledTable, SortBy, Listing, Members, SortedPermutations, PermutationsFor, OrderLeq;
      MembersMirrorCandidates(cs);
      DistinctKeysMeansUniqueEligible(cs);
      var same := Matches(cs);
      if same {
        return Ok(Unchanged);
      }
      var nextMembers := Members(cs);
      if |nextMembers| > tableSize {
        return Err(StateCapacityExceeded);
      }
      var duplicate := HasDuplicate(cs);
      if duplicate {
        return Err(DuplicateIdentity);
      }
      assert tableSize >= 2 by { PrimeAtLeastTwo(tableSize); }
      var permutations := PermutationsFor(hash, tableSize, nextMembers);
      OrderLeqIsTotalPreorder();
      var sorted := SortUnstable(permutations, OrderLeq);
      SortIsDetermined(hash, tableSize, nextMembers, sorted);
      var built := PopulateTable(tableSize, sorted);
      members := nextMembers;
      table := built.value;
      generation := (generation + 1) % U64_LIMIT;
      return Ok(Rebuilt(|members|, |table|));
    }

    /** Whatever was cached, the answer is the one an uncached policy gives. */
    method Pick(cs: seq<Candidate<Key>>, request: u64) returns (r: Result<nat, PickError>)
      requires Valid() && |cs| <= UNFILLED
      modifies this
      ensures Valid()
      ensures r == FreshPick(hash, tableSize, cs, request)
      ensures r == Err(Empty) <==> cs == []
    {
      NobodyToPick(hash, tableSize, cs, request);
      var update := Reconcile(cs);
      if update.Err? {
        return Err(update.error);
      }
      if |table| == 0 {
        return Err(NoCandidateError(|cs|));
      }
      return Ok(table[request % |table|]);
    }
  }

  lemma PrimeAtLeastTwo(m: nat)
    requires IsPrime(m)
    ensures m >= 2
  {
  }

  /** Indices differ, so an unstable sort has only one possible outcome. */
  lemma SortIsDetermined<Key>(
      hash: (nat, Key) -> u64, m: usize, ms: seq<Member<Key>>, sorted: seq<Permutation>)
    requires IsPrime(m)
    requires forall j, k :: 0 <= j < k < |ms| ==> ms[j].index < ms[k].index
    requires forall e :: e in ms ==> e.index < UNFILLED
    requires Sorted(sorted, OrderLeq) && multiset(sorted) == multiset(PermutationsFor(hash, m, ms))
    ensures sorted == SortedPermutations(hash, m, ms)
    ensures |sorted| == |ms| && forall p :: p in sorted ==> WellFormed(p, m) && p.index != UNFILLED
  {
    var ps := PermutationsFor(hash, m, ms);
    SortedPermutationsMirrorMembers(hash, m, ms);
    forall x, y | x in sorted && y in sorted && OrderLeq(x, y) && OrderLeq(y, x)
      ensures x == y
    {
      assert x in multiset(ps) && y in multiset(ps);
      assert x.index == y.index;
      var j :| 0 <= j < |ps| && ps[j] == x;
      var k :| 0 <= k < |ps| && ps[k] == y;
      assert j == k;
    }
    SortedUnique(sorted, SortedPermutations(hash, m, ms), OrderLeq);
  }
}
