/** What the filled table promises: near-even shares, and indifference to candidate order. */
module MaglevBalance {
  import opened Core
  import opened Arith
  import opened Primality
  import opened Sorting
  import opened MaglevTable

  /** How many of the first `t` turns fall to position `j` of `n`. */
  function TurnsOf(t: nat, n: nat, j: nat): nat
    requires n > 0
  {
    t / n + if j < t % n then 1 else 0
  }

  lemma TurnsOfStep(t: nat, n: nat, j: nat)
    requires j < n
    ensures TurnsOf(t + 1, n, j) == TurnsOf(t, n, j) + if t % n == j then 1 else 0
  {
    var q, r := t / n, t % n;
    if r + 1 < n {
      DivModUnique(t + 1, n, q, r + 1);
    } else {
      assert t + 1 == n * (q + 1);
      DivModUnique(t + 1, n, q + 1, 0);
    }
  }

  /** Slots claimed by position `j` within the first `t` turns. */
  ghost function ClaimedBy(perms: seq<Permutation>, m: nat, j: nat, t: nat): (r: set<nat>)
    requires TableInput(perms, m) && t <= m
  {
    if t == 0 then {} else
      ClaimedBy(perms, m, j, t - 1) +
      if (t - 1) % |perms| == j then {Claims(perms, m, m)[t - 1]} else {}
  }

  lemma {:induction false} ClaimedByMembers(perms: seq<Permutation>, m: nat, j: nat, t: nat, s: nat)
    requires TableInput(perms, m) && t <= m && s < m
    ensures s in ClaimedBy(perms, m, j, t) <==> TurnOf(perms, m, s) < t && OwnerOf(perms, m, s) == j
  {
    if t > 0 {
      ClaimedByMembers(perms, m, j, t - 1, s);
      var c := Claims(perms, m, m);
      ClaimsDistinct(perms, m, m);
      assert c[t - 1] == s <==> TurnOf(perms, m, s) == t - 1;
    }
  }

  lemma ClaimIsBelow(perms: seq<Permutation>, m: nat, t: nat)
    requires TableInput(perms, m) && t < m
    ensures |Claims(perms, m, m)| == m && Claims(perms, m, m)[t] in Below(m)
  {
    hide IsPrime, Claims;
    ClaimsDistinct(perms, m, m);
  }

  lemma ClaimedByAdds(perms: seq<Permutation>, m: nat, j: nat, t: nat)
    requires TableInput(perms, m) && t < m
    ensures ClaimedBy(perms, m, j, t + 1) <= ClaimedBy(perms, m, j, t) + {Claims(perms, m, m)[t]}
  {
    hide Claims, TableInput;
  }

  lemma {:induction false} ClaimedByBelow(perms: seq<Permutation>, m: nat, j: nat, t: nat)
    requires TableInput(perms, m) && t <= m
    ensures ClaimedBy(perms, m, j, t) <= Below(m)
  {
    hide ClaimedBy, Below, Claims, TableInput;
    NothingClaimedYet(perms, m, j);
    if t > 0 {
      ClaimIsBelow(perms, m, t - 1);
      ClaimedByAdds(perms, m, j, t - 1);
      ClaimedByBelow(perms, m, j, t - 1);
    }
  }

  lemma ClaimIsNew(perms: seq<Permutation>, m: nat, j: nat, t: nat)
    requires TableInput(perms, m) && t < m
    ensures |Claims(perms, m, m)| == m && Claims(perms, m, m)[t] < m
    ensures Claims(perms, m, m)[t] !in ClaimedBy(perms, m, j, t)
  {
    hide IsPrime, Claims, ClaimedBy;
    ClaimsDistinct(perms, m, m);
    var s := Claims(perms, m, m)[t];
    ClaimedByMembers(perms, m, j, t, s);
    assert TurnOf(perms, m, s) == t;
  }

  lemma ClaimedByGrows(perms: seq<Permutation>, m: nat, j: nat, t: nat)
    requires TableInput(perms, m) && t < m
    ensures |ClaimedBy(perms, m, j, t + 1)| == |ClaimedBy(perms, m, j, t)| + if t % |perms| == j then 1 else 0
  {
    hide IsPrime, Claims, TableInput;
    ClaimIsNew(perms, m, j, t);
  }

  lemma NothingClaimedYet(perms: seq<Permutation>, m: nat, j: nat)
    requires TableInput(perms, m)
    ensures ClaimedBy(perms, m, j, 0) == {}
  {
  }

  lemma {:induction false} ClaimedByCount(perms: seq<Permutation>, m: nat, j: nat, t: nat)
    requires TableInput(perms, m) && t <= m && j < |perms|
    ensures |ClaimedBy(perms, m, j, t)| == TurnsOf(t, |perms|, j)
  {
    hide ClaimedBy, TurnsOf;
    NothingClaimedYet(perms, m, j);
    if t > 0 {
      ClaimedByCount(perms, m, j, t - 1);
      TurnsOfStep(t - 1, |perms|, j);
      ClaimedByGrows(perms, m, j, t - 1);
    } else {
      NoTurnsYet(|perms|, j);
    }
  }

  lemma NoTurnsYet(n: nat, j: nat)
    requires n > 0
    ensures TurnsOf(0, n, j) == 0
  {
    DivModUnique(0, n, 0, 0);
  }

  ghost function SlotsOf(perms: seq<Permutation>, m: nat, j: nat): set<nat>
    requires TableInput(perms, m)
  {
    set s: nat | s in Below(m) && OwnerOf(perms, m, s) == j
  }

  /** Every member owns the floor of its share, and the first `m % n` in sort order own one more. */
  lemma ShareIsBalanced(perms: seq<Permutation>, m: nat, j: nat)
    requires TableInput(perms, m) && j < |perms|
    ensures |SlotsOf(perms, m, j)| == m / |perms| + if j < m % |perms| then 1 else 0
  {
    ClaimedByCount(perms, m, j, m);
    ClaimedByBelow(perms, m, j, m);
    forall s: nat | s in Below(m)
      ensures s in SlotsOf(perms, m, j) <==> s in ClaimedBy(perms, m, j, m)
    {
      ClaimedByMembers(perms, m, j, m, s);
    }
    assert SlotsOf(perms, m, j) == ClaimedBy(perms, m, j, m);
  }

  /** When labels are distinct, counting by label is counting by owner. */
  lemma LabelledSlots(perms: seq<Permutation>, m: nat, j: nat)
    requires TableInput(perms, m) && j < |perms|
    requires forall i, k :: 0 <= i < k < |perms| ==> perms[i].index != perms[k].index
    ensures (set s: nat | s in Below(m) && FilledTable(perms, m)[s] == perms[j].index) == SlotsOf(perms, m, j)
  {
    hide IsPrime, OwnerOf, WellFormed;
    forall s: nat | s in Below(m)
      ensures FilledTable(perms, m)[s] == perms[j].index <==> OwnerOf(perms, m, s) == j
    {
      var o := OwnerOf(perms, m, s);
      assert FilledTable(perms, m)[s] == perms[o].index;
    }
  }

  /** Nobody is unreachable: with no more members than slots, each owns at least one. */
  lemma EveryMemberIsReachable(perms: seq<Permutation>, m: nat, j: nat)
    requires TableInput(perms, m) && j < |perms| <= m
    ensures exists s :: 0 <= s < m && FilledTable(perms, m)[s] == perms[j].index
  {
    ShareIsBalanced(perms, m, j);
    QuotientAtLeast(m, |perms|, 1);
    assert SlotsOf(perms, m, j) != {};
    var s :| s in SlotsOf(perms, m, j);
    assert FilledTable(perms, m)[s] == perms[j].index;
  }

  /** Two lists of permutations that differ only in the labels they carry. */
  ghost predicate SameShape(a: seq<Permutation>, b: seq<Permutation>) {
    |a| == |b| && forall j :: 0 <= j < |a| ==> a[j].offset == b[j].offset && a[j].skip == b[j].skip
  }

  lemma SlotIgnoresLabel(p: Permutation, q: Permutation, k: nat, m: nat)
    requires m > 0 && p.offset == q.offset && p.skip == q.skip
    ensures Slot(p, k, m) == Slot(q, k, m)
  {
  }

  lemma RelabelKeepsFirstFree(p: Permutation, q: Permutation, m: nat, taken: seq<nat>)
    requires WellFormed(p, m) && WellFormed(q, m) && |taken| < m
    requires p.offset == q.offset && p.skip == q.skip
    ensures FirstFree(p, m, taken) == FirstFree(q, m, taken)
  {
    hide IsPrime, Slot, FirstFree;
    var i, j := FirstFree(p, m, taken), FirstFree(q, m, taken);
    SlotIgnoresLabel(p, q, i, m);
    SlotIgnoresLabel(p, q, j, m);
  }

  lemma RelabelKeepsNext(a: seq<Permutation>, b: seq<Permutation>, m: nat, t: nat)
    requires TableInput(a, m) && TableInput(b, m) && SameShape(a, b) && t < m
    requires Claims(a, m, t) == Claims(b, m, t)
    ensures NextClaim(a, m, Claims(a, m, t)) == NextClaim(b, m, Claims(b, m, t))
  {
    hide IsPrime, Claims, Slot, FirstFree;
    var c := Claims(a, m, t);
    var j := t % |a|;
    RelabelKeepsFirstFree(a[j], b[j], m, c);
    SlotIgnoresLabel(a[j], b[j], FirstFree(a[j], m, c), m);
  }

  /** Filling looks at offsets and skips only, so it commutes with renaming the indices. */
  lemma {:induction false} RelabelKeepsClaims(a: seq<Permutation>, b: seq<Permutation>, m: nat, t: nat)
    requires TableInput(a, m) && TableInput(b, m) && SameShape(a, b) && t <= m
    ensures Claims(a, m, t) == Claims(b, m, t)
  {
    hide TableInput, SameShape, NextClaim;
    if t > 0 {
      RelabelKeepsClaims(a, b, m, t - 1);
      RelabelKeepsNext(a, b, m, t - 1);
    }
  }

  lemma RelabelKeepsOwner(a: seq<Permutation>, b: seq<Permutation>, m: nat, s: nat)
    requires TableInput(a, m) && TableInput(b, m) && SameShape(a, b) && s < m
    ensures OwnerOf(a, m, s) == OwnerOf(b, m, s)
  {
    RelabelKeepsClaims(a, b, m, m);
    ClaimsDistinct(a, m, m);
    assert TurnOf(a, m, s) == TurnOf(b, m, s);
  }
}
