/** The Maglev answer read straight off the hashes: who comes when, which slot each wants next, who keeps it. */
module MaglevReference {
  import opened Arith
  import opened Core
  import opened Primality
  import opened MaglevTable
  import opened MaglevBalance
  import opened MaglevPolicy
  import opened MaglevOrder

  /** The `n`-th slot an identity asks for: its first choice, then one stride further on each time. */
  function Preference<Key>(hash: (nat, Key) -> u64, m: nat, id: Key, n: nat): nat
    requires m >= 2
  {
    (hash(6, id) + n * (hash(7, id) % (m - 1) + 1)) % m
  }

  /** Candidate `i` takes its turn before candidate `j`. */
  predicate Earlier<Key>(hash: (nat, Key) -> u64, cs: seq<Candidate<Key>>, i: nat, j: nat)
    requires i < |cs| && j < |cs|
  {
    var a, b := (hash(8, cs[i].id), hash(9, cs[i].id)), (hash(8, cs[j].id), hash(9, cs[j].id));
    a.0 < b.0 || (a.0 == b.0 && (a.1 < b.1 || (a.1 == b.1 && i < j)))
  }

  /** Every eligible position once, in the order of the turns. */
  ghost predicate IsTurnOrder<Key>(hash: (nat, Key) -> u64, cs: seq<Candidate<Key>>, order: seq<nat>) {
    && (forall a :: 0 <= a < |order| ==> order[a] < |cs| && cs[order[a]].eligible)
    && (forall i :: 0 <= i < |cs| && cs[i].eligible ==> i in order)
    && (forall a, b :: 0 <= a < b < |order| ==> Earlier(hash, cs, order[a], order[b]))
  }

  /** Whose turn it is. */
  function TurnTaker<Key>(cs: seq<Candidate<Key>>, order: seq<nat>, t: nat): (id: Key)
    requires order != [] && forall a :: 0 <= a < |order| ==> order[a] < |cs|
  {
    cs[order[t % |order|]].id
  }

  /** The slot an identity takes when those in `taken` are gone: the first it asks for that is not among them. */
  ghost predicate TakesFirstFree<Key>(hash: (nat, Key) -> u64, m: nat, id: Key, taken: seq<nat>, slot: nat)
    requires m >= 2
  {
    exists n: nat ::
      && slot == Preference(hash, m, id, n) && slot !in taken
      && forall p: nat :: p < n ==> Preference(hash, m, id, p) in taken
  }

  /** Turn after turn until every slot is gone. */
  ghost predicate IsFilling<Key>(
      hash: (nat, Key) -> u64, m: nat, cs: seq<Candidate<Key>>, order: seq<nat>, claims: seq<nat>)
  {
    && m >= 2 && order != [] && (forall a :: 0 <= a < |order| ==> order[a] < |cs|)
    && |claims| == m
    && forall t :: 0 <= t < m ==> TakesFirstFree(hash, m, TurnTaker(cs, order, t), claims[..t], claims[t])
  }

  lemma ReducedSum(h: nat, n: nat, m: nat)
    requires m > 0
    ensures (h % m + n) % m == (h + n) % m
  {
    var q, r := (h % m + n) / m, (h % m + n) % m;
    assert h == m * (h / m) + h % m;
    assert h + n == m * (h / m + q) + r by {
      assert m * (h / m + q) == m * (h / m) + m * q;
    }
    DivModUnique(h + n, m, h / m + q, r);
  }

  lemma SlotIsPreference<Key>(hash: (nat, Key) -> u64, m: usize, e: Member<Key>, n: nat)
    requires m >= 2
    ensures Slot(PermutationFor(hash, m, e), n, m) == Preference(hash, m, e.key, n)
  {
    var skip: nat := hash(7, e.key) % (m - 1) + 1;
    var stride: nat := n * skip;
    ReducedSum(hash(6, e.key), stride, m);
  }

  // ----- the order of the turns

  ghost function IndexOrder(sp: seq<Permutation>): (r: seq<nat>)
    ensures |r| == |sp| && forall a :: 0 <= a < |r| ==> r[a] == sp[a].index
  {
    seq(|sp|, a requires 0 <= a < |sp| => sp[a].index)
  }

  lemma SortedIsTurnOrder<Key>(hash: (nat, Key) -> u64, m: usize, cs: seq<Candidate<Key>>, sp: seq<Permutation>)
    requires IsPrime(m) && UniqueEligible(cs) && sp == SortedPermutations(hash, m, Members(cs))
    ensures IsTurnOrder(hash, cs, IndexOrder(sp))
    ensures m >= 2
    ensures forall a :: 0 <= a < |sp| ==>
      sp[a].index < |cs| && sp[a] == PermutationFor(hash, m, Member(cs[sp[a].index].id, sp[a].index))
  {
    hide IsPrime, Members, SortedPermutations, UniqueEligible;
    assert m >= 2 by { PrimeAtLeastTwo(m); }
    SortedPermutationsMirrorMembers(hash, m, Members(cs));
    SortedIndicesDistinct(hash, m, cs, sp);
    var ks := KeyList(hash, m, cs, sp);
    hide WellFormed;
    var order := IndexOrder(sp);
    forall a, b | 0 <= a < b < |order|
      ensures Earlier(hash, cs, order[a], order[b])
    {
      assert OrderLeq(sp[a], sp[b]);
    }
    forall i | 0 <= i < |cs| && cs[i].eligible
      ensures i in order
    {
      var j :| 0 <= j < |sp| && sp[j].index == i;
      assert order[j] == i;
    }
  }

  lemma EarlierIsStrict<Key>(hash: (nat, Key) -> u64, cs: seq<Candidate<Key>>, i: nat, j: nat)
    requires i < |cs| && j < |cs|
    ensures !(Earlier(hash, cs, i, j) && Earlier(hash, cs, j, i)) && !Earlier(hash, cs, i, i)
  {
  }

  lemma {:induction false} OrderSuffixesAgree<Key>(
      hash: (nat, Key) -> u64, cs: seq<Candidate<Key>>, a: seq<nat>, b: seq<nat>, n: nat)
    requires IsTurnOrder(hash, cs, a) && IsTurnOrder(hash, cs, b) && n <= |a|
    ensures n <= |b| && a[..n] == b[..n]
  {
    if n > 0 {
      OrderSuffixesAgree(hash, cs, a, b, n - 1);
      NextOfOrder(hash, cs, a, b, n - 1);
    }
  }

  /** Orders that agree so far agree on whose turn is next. */
  lemma NextOfOrder<Key>(hash: (nat, Key) -> u64, cs: seq<Candidate<Key>>, a: seq<nat>, b: seq<nat>, n: nat)
    requires IsTurnOrder(hash, cs, a) && IsTurnOrder(hash, cs, b) && n < |a| && n <= |b| && a[..n] == b[..n]
    ensures n < |b| && a[n] == b[n]
  {
    hide Earlier;
    assert forall k :: 0 <= k < n ==> a[k] == a[..n][k] == b[k];
    EarlierIsStrict(hash, cs, a[n], a[n]);
    var i :| 0 <= i < |b| && b[i] == a[n];
    assert i >= n;
    EarlierIsStrict(hash, cs, b[n], b[n]);
    EarlierIsStrict(hash, cs, a[n], b[n]);
    var j :| 0 <= j < |a| && a[j] == b[n];
    assert j >= n;
    assert i <= n || j <= n;
  }

  /** Only one order of turns exists. */
  lemma TurnOrderIsUnique<Key>(hash: (nat, Key) -> u64, cs: seq<Candidate<Key>>, a: seq<nat>, b: seq<nat>)
    requires IsTurnOrder(hash, cs, a) && IsTurnOrder(hash, cs, b)
    ensures a == b
  {
    hide IsTurnOrder;
    OrderSuffixesAgree(hash, cs, a, b, |a|);
    OrderSuffixesAgree(hash, cs, b, a, |b|);
  }

  // ----- the slots taken

  ghost predicate Reads<Key>(
      hash: (nat, Key) -> u64, m: usize, cs: seq<Candidate<Key>>, order: seq<nat>, sp: seq<Permutation>)
    requires m >= 2
  {
    && order == IndexOrder(sp)
    && forall a :: 0 <= a < |sp| ==>
         sp[a].index < |cs| && sp[a] == PermutationFor(hash, m, Member(cs[sp[a].index].id, sp[a].index))
  }

  lemma NextClaimTakesFirstFree<Key>(
      hash: (nat, Key) -> u64, m: usize, cs: seq<Candidate<Key>>, order: seq<nat>, sp: seq<Permutation>, c: seq<nat>)
    requires m >= 2 && TableInput(sp, m) && |c| < m && Reads(hash, m, cs, order, sp)
    ensures TakesFirstFree(hash, m, TurnTaker(cs, order, |c|), c, NextClaim(sp, m, c))
  {
    hide IsPrime, Preference, Slot, PermutationFor, FirstFree;
    var a := |c| % |sp|;
    var p, e := sp[a], Member(cs[sp[a].index].id, sp[a].index);
    var n := FirstFree(p, m, c);
    SlotIsPreference(hash, m, e, n);
    forall k: nat | k < n
      ensures Preference(hash, m, e.key, k) in c
    {
      SlotIsPreference(hash, m, e, k);
    }
  }

  lemma FirstFreeIsUnique<Key>(hash: (nat, Key) -> u64, m: nat, id: Key, taken: seq<nat>, a: nat, b: nat)
    requires m >= 2 && TakesFirstFree(hash, m, id, taken, a) && TakesFirstFree(hash, m, id, taken, b)
    ensures a == b
  {
    hide Preference;
    var n: nat :| a == Preference(hash, m, id, n) && a !in taken
      && forall p: nat :: p < n ==> Preference(hash, m, id, p) in taken;
    var k: nat :| b == Preference(hash, m, id, k) && b !in taken
      && forall p: nat :: p < k ==> Preference(hash, m, id, p) in taken;
    assert !(n < k) && !(k < n);
  }

  lemma {:induction false} ClaimsAreFilling<Key>(
      hash: (nat, Key) -> u64, m: usize, cs: seq<Candidate<Key>>, order: seq<nat>, sp: seq<Permutation>, t: nat)
    requires m >= 2 && TableInput(sp, m) && t <= m && Reads(hash, m, cs, order, sp)
    ensures forall u :: 0 <= u < t ==>
      TakesFirstFree(hash, m, TurnTaker(cs, order, u), Claims(sp, m, t)[..u], Claims(sp, m, t)[u])
  {
    assert order != [] && forall a :: 0 <= a < |order| ==> order[a] < |cs|;
    hide TakesFirstFree, TableInput, Reads, TurnTaker, Claims, NextClaim;
    if t > 0 {
      ClaimsAreFilling(hash, m, cs, order, sp, t - 1);
      ClaimsGrow(sp, m, t - 1);
      var before, c := Claims(sp, m, t - 1), Claims(sp, m, t);
      NextClaimTakesFirstFree(hash, m, cs, order, sp, before);
      assert c[..t - 1] == before;
      forall u | 0 <= u < t
        ensures TakesFirstFree(hash, m, TurnTaker(cs, order, u), c[..u], c[u])
      {
        assert u < t - 1 ==> c[..u] == before[..u] && c[u] == before[u];
      }
    }
  }

  lemma ClaimsGrow(sp: seq<Permutation>, m: nat, t: nat)
    requires TableInput(sp, m) && t < m
    ensures Claims(sp, m, t + 1) == Claims(sp, m, t) + [NextClaim(sp, m, Claims(sp, m, t))]
  {
    hide NextClaim, TableInput;
  }

  lemma {:induction false} FillingIsClaims<Key>(
      hash: (nat, Key) -> u64, m: usize, cs: seq<Candidate<Key>>, order: seq<nat>, sp: seq<Permutation>,
      claims: seq<nat>, t: nat)
    requires m >= 2 && TableInput(sp, m) && t <= m && Reads(hash, m, cs, order, sp)
    requires IsFilling(hash, m, cs, order, claims)
    ensures claims[..t] == Claims(sp, m, t)
  {
    hide TakesFirstFree, TableInput, Reads, TurnTaker, Claims, NextClaim;
    if t > 0 {
      FillingIsClaims(hash, m, cs, order, sp, claims, t - 1);
      ClaimsGrow(sp, m, t - 1);
      var before := Claims(sp, m, t - 1);
      NextClaimTakesFirstFree(hash, m, cs, order, sp, before);
      FirstFreeIsUnique(hash, m, TurnTaker(cs, order, t - 1), before, claims[t - 1], NextClaim(sp, m, before));
      assert claims[..t] == claims[..t - 1] + [claims[t - 1]];
    } else {
      assert Claims(sp, m, 0) == [];
    }
  }

  // ----- the answer

  lemma SortedTable<Key>(hash: (nat, Key) -> u64, m: usize, cs: seq<Candidate<Key>>) returns (sp: seq<Permutation>)
    requires IsPrime(m) && UniqueEligible(cs) && 0 < |Members(cs)| <= m
    ensures m >= 2 && TableInput(sp, m) && |sp| == |Members(cs)| && Reads(hash, m, cs, IndexOrder(sp), sp)
    ensures IsTurnOrder(hash, cs, IndexOrder(sp))
    ensures forall request: u64 ::
      FreshPick(hash, m, cs, request) == Ok(sp[OwnerOf(sp, m, request % m)].index)
  {
    hide IsPrime, Members, UniqueEligible, SortedPermutations, FreshPick, OwnerOf, TableInput;
    assert m >= 2 by { PrimeAtLeastTwo(m); }
    sp := SortedPermutations(hash, m, Members(cs));
    SortedIsTurnOrder(hash, m, cs, sp);
    FreshPickReadsOwner(hash, m, cs, 0);
    forall request: u64
      ensures FreshPick(hash, m, cs, request) == Ok(sp[OwnerOf(sp, m, request % m)].index)
    {
      FreshPickReadsOwner(hash, m, cs, request);
    }
  }

  /** The order of turns and the slots taken exist, and between them the slots taken are all of them. */
  lemma FillingExists<Key>(hash: (nat, Key) -> u64, m: usize, cs: seq<Candidate<Key>>)
    returns (order: seq<nat>, claims: seq<nat>)
    requires IsPrime(m) && UniqueEligible(cs) && 0 < |Members(cs)| <= m
    ensures IsTurnOrder(hash, cs, order) && IsFilling(hash, m, cs, order, claims)
    ensures forall s :: 0 <= s < m ==> s in claims
  {
    hide Members, UniqueEligible, FreshPick, Claims, IsTurnOrder, TakesFirstFree, TurnTaker, PermutationFor;
    var sp := SortedTable(hash, m, cs);
    order, claims := IndexOrder(sp), Claims(sp, m, m);
    ClaimsAreFilling(hash, m, cs, order, sp, m);
    forall s | 0 <= s < m
      ensures s in claims
    {
      EverySlotClaimed(sp, m, s);
    }
  }

  /** Every pick is the candidate that took the request's slot, the order and the slots being read off the hashes. */
  lemma PickFollowsPreferences<Key>(
      hash: (nat, Key) -> u64, m: usize, cs: seq<Candidate<Key>>, order: seq<nat>, claims: seq<nat>,
      request: u64, t: nat)
    requires IsPrime(m) && UniqueEligible(cs) && 0 < |Members(cs)| <= m
    requires IsTurnOrder(hash, cs, order) && IsFilling(hash, m, cs, order, claims)
    requires t < m && claims[t] == request % m
    ensures FreshPick(hash, m, cs, request) == Ok(order[t % |order|])
  {
    hide Members, UniqueEligible, FreshPick, IsTurnOrder, TakesFirstFree, TurnTaker, PermutationFor, IsPrime;
    var sp := SortedTable(hash, m, cs);
    TurnOrderIsUnique(hash, cs, order, IndexOrder(sp));
    FillingIsClaims(hash, m, cs, order, sp, claims, m);
    hide Claims;
    assert claims[..m] == claims;
    var s := request % m;
    ClaimsDistinct(sp, m, m);
    assert TurnOf(sp, m, s) == t;
  }

  /** Whoever comes first in hash order is served every request that falls on its first choice. */
  lemma FirstChoiceOfFirst<Key>(
      hash: (nat, Key) -> u64, m: usize, cs: seq<Candidate<Key>>, i: nat, request: u64)
    requires IsPrime(m) && UniqueEligible(cs) && 0 < |Members(cs)| <= m && i < |cs| && cs[i].eligible
    requires forall j :: 0 <= j < |cs| && cs[j].eligible && j != i ==> Earlier(hash, cs, i, j)
    requires request % m == hash(6, cs[i].id) % m
    ensures FreshPick(hash, m, cs, request) == Ok(i)
  {
    hide Members, UniqueEligible, FreshPick, IsPrime;
    var order, claims := FillingExists(hash, m, cs);
    assert i in order;
    assert order[0] == i by {
      var a :| 0 <= a < |order| && order[a] == i;
      assert a > 0 ==> Earlier(hash, cs, order[0], order[a]);
    }
    assert TakesFirstFree(hash, m, TurnTaker(cs, order, 0), claims[..0], claims[0]);
    assert claims[0] == Preference(hash, m, cs[i].id, 0);
    PickFollowsPreferences(hash, m, cs, order, claims, request, 0);
  }

  /** A later member keeps its first choice unless an earlier turn took it. */
  lemma FirstChoiceUnlessTaken<Key>(
      hash: (nat, Key) -> u64, m: usize, cs: seq<Candidate<Key>>, order: seq<nat>, claims: seq<nat>, t: nat,
      request: u64)
    requires IsPrime(m) && UniqueEligible(cs) && 0 < |Members(cs)| <= m
    requires IsTurnOrder(hash, cs, order) && IsFilling(hash, m, cs, order, claims) && t < |order| <= m
    requires request % m == hash(6, cs[order[t]].id) % m && request % m !in claims[..t]
    ensures FreshPick(hash, m, cs, request) == Ok(order[t])
  {
    hide Members, UniqueEligible, FreshPick, IsPrime;
    SmallRemainder(t, |order|);
    var id := TurnTaker(cs, order, t);
    assert TakesFirstFree(hash, m, id, claims[..t], claims[t]);
    assert Preference(hash, m, id, 0) == request % m;
    var n: nat :| claims[t] == Preference(hash, m, id, n) && claims[t] !in claims[..t]
      && forall p: nat :: p < n ==> Preference(hash, m, id, p) in claims[..t];
    assert n == 0;
    PickFollowsPreferences(hash, m, cs, order, claims, request, t);
  }
}
