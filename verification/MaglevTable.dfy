/** Construction of the Maglev lookup table: a fast cursor scan refines "claim your best free slot". */
module MaglevTable {
  import opened Core
  import opened Arith
  import opened Primality
  import opened Sorting

  /** The fill marker, one past any slice position. */
  const UNFILLED: nat := 0xffff_ffff_ffff_ffff

  datatype Permutation = Permutation(offset: usize, skip: usize, index: nat, order: (u64, u64))

  ghost predicate WellFormed(p: Permutation, m: nat) {
    IsPrime(m) && p.offset < m && 1 <= p.skip < m
  }

  ghost predicate TableInput(perms: seq<Permutation>, m: nat) {
    IsPrime(m) && perms != [] && forall p :: p in perms ==> WellFormed(p, m)
  }

  /** The slot a member prefers at each ordinal of its permutation. */
  function Slot(p: Permutation, ordinal: nat, m: nat): (r: nat)
    requires m > 0
    ensures r < m
  {
    (p.offset + ordinal * p.skip) % m
  }

  /** The same arithmetic in 64-bit words: below the size limit nothing wraps. */
  method PermutationSlot(p: Permutation, ordinal: usize, m: usize) returns (slot: usize)
    requires p.offset < m && p.skip < m && ordinal < m <= MAX_TABLE_SIZE
    ensures slot == Slot(p, ordinal, m)
  {
    MulMonotone(ordinal, p.skip, MAX_TABLE_SIZE, MAX_TABLE_SIZE);
    var product: u64 := ordinal * p.skip;
    var position: u64 := p.offset + product;
    slot := position % m;
  }

  // ----- a permutation of the slots

  lemma SameRemainder(x: int, y: int, m: nat)
    requires m > 0 && x % m == y % m
    ensures Divides(m, y - x)
  {
    assert y - x == m * (y / m - x / m);
    MultipleIsDivisible(m, y / m - x / m);
  }

  lemma SmallIsNotDivisible(m: nat, s: nat)
    requires 1 <= s < m
    ensures !Divides(m, s)
  {
    DivModUnique(s, m, 0, s);
  }

  lemma SlotsDistinct(p: Permutation, m: nat, i: nat, j: nat)
    requires WellFormed(p, m) && i < j < m
    ensures Slot(p, i, m) != Slot(p, j, m)
  {
    hide IsPrime, Divides;
    var x, y := p.offset + i * p.skip, p.offset + j * p.skip;
    assert y - x == (j - i) * p.skip;
    if x % m == y % m {
      SameRemainder(x, y, m);
      PrimeDividesFactor(m, j - i, p.skip);
      SmallIsNotDivisible(m, p.skip);
    }
  }

  ghost function FirstSlots(p: Permutation, m: nat, k: nat): set<nat>
    requires m > 0
  {
    set i | 0 <= i < k :: Slot(p, i, m)
  }

  lemma {:induction false} FirstSlotsCount(p: Permutation, m: nat, k: nat)
    requires WellFormed(p, m) && k <= m
    ensures |FirstSlots(p, m, k)| == k
  {
    if k > 0 {
      FirstSlotsCount(p, m, k - 1);
      var s := Slot(p, k - 1, m);
      forall i | 0 <= i < k - 1
        ensures Slot(p, i, m) != s
      {
        SlotsDistinct(p, m, i, k - 1);
      }
      assert s !in FirstSlots(p, m, k - 1);
      assert FirstSlots(p, m, k) == FirstSlots(p, m, k - 1) + {s};
    } else {
      assert FirstSlots(p, m, k) == {};
    }
  }

  ghost function Below(m: nat): (r: set<nat>)
    ensures forall i: nat :: i in r <==> i < m
    ensures |r| == m
  {
    if m == 0 then {} else Below(m - 1) + {m - 1}
  }

  lemma SubsetOfSameSize<T>(a: set<T>, b: set<T>)
    requires a <= b && |a| >= |b|
    ensures a == b
  {
    assert b == a + (b - a);
  }

  /** The first `m` ordinals visit every slot exactly once. */
  lemma PermutationHitsEverySlot(p: Permutation, m: nat, s: nat)
    requires WellFormed(p, m) && s < m
    ensures exists k :: 0 <= k < m && Slot(p, k, m) == s
    ensures forall i, j :: 0 <= i < m && 0 <= j < m && Slot(p, i, m) == Slot(p, j, m) ==> i == j
  {
    FirstSlotsCount(p, m, m);
    SubsetOfSameSize(FirstSlots(p, m, m), Below(m));
    assert s in FirstSlots(p, m, m);
    forall i, j | 0 <= i < m && 0 <= j < m && Slot(p, i, m) == Slot(p, j, m)
      ensures i == j
    {
      if i < j {
        SlotsDistinct(p, m, i, j);
      } else if j < i {
        SlotsDistinct(p, m, j, i);
      }
    }
  }

  // ----- the simple form: members in turn claim their most preferred free slot

  lemma SomeSlotFree(p: Permutation, m: nat, taken: seq<nat>)
    requires WellFormed(p, m) && |taken| < m
    ensures exists k :: 0 <= k < m && Slot(p, k, m) !in taken
  {
    var all := set x | x in taken;
    FirstSlotsCount(p, m, m);
    ElementsAtMostLength(taken);
    if FirstSlots(p, m, m) <= all {
      SubsetNoLarger(FirstSlots(p, m, m), all);
    }
  }

  lemma SubsetNoLarger<T>(a: set<T>, b: set<T>)
    requires a <= b
    ensures |a| <= |b|
  {
    assert b == a + (b - a);
  }

  lemma {:induction false} ElementsAtMostLength<T>(s: seq<T>)
    ensures |set x | x in s| <= |s|
  {
    if s != [] {
      var last := |s| - 1;
      ElementsAtMostLength(s[..last]);
      assert (set x | x in s) == (set x | x in s[..last]) + {s[last]};
    }
  }

  ghost function FirstFreeFrom(p: Permutation, m: nat, taken: seq<nat>, k: nat): (r: nat)
    requires m > 0
    requires exists j :: k <= j < m && Slot(p, j, m) !in taken
    ensures k <= r < m && Slot(p, r, m) !in taken
    ensures forall j :: k <= j < r ==> Slot(p, j, m) in taken
    decreases m - k
  {
    if Slot(p, k, m) !in taken then k else FirstFreeFrom(p, m, taken, k + 1)
  }

  /** The least ordinal whose slot nobody has claimed. */
  ghost function FirstFree(p: Permutation, m: nat, taken: seq<nat>): (r: nat)
    requires WellFormed(p, m) && |taken| < m
    ensures r < m && Slot(p, r, m) !in taken
    ensures forall j :: 0 <= j < r ==> Slot(p, j, m) in taken
  {
    SomeSlotFree(p, m, taken);
    FirstFreeFrom(p, m, taken, 0)
  }

  /** The slots claimed in the first `t` turns, turn by turn. */
  ghost function Claims(perms: seq<Permutation>, m: nat, t: nat): (c: seq<nat>)
    requires TableInput(perms, m) && t <= m
    ensures |c| == t
  {
    if t == 0 then [] else
      var c := Claims(perms, m, t - 1);
      c + [NextClaim(perms, m, c)]
  }

  /** The slot claimed next: the most preferred free one of the member whose turn it is. */
  ghost function NextClaim(perms: seq<Permutation>, m: nat, c: seq<nat>): (s: nat)
    requires TableInput(perms, m) && |c| < m
    ensures s < m && s !in c
  {
    var p := perms[|c| % |perms|];
    Slot(p, FirstFree(p, m, c), m)
  }

  lemma {:induction false} ClaimsDistinct(perms: seq<Permutation>, m: nat, t: nat)
    requires TableInput(perms, m) && t <= m
    ensures Distinct(Claims(perms, m, t))
    ensures forall k :: 0 <= k < t ==> Claims(perms, m, t)[k] < m
  {
    if t > 0 {
      ClaimsDistinct(perms, m, t - 1);
    }
  }

  lemma EverySlotClaimed(perms: seq<Permutation>, m: nat, s: nat)
    requires TableInput(perms, m) && s < m
    ensures s in Claims(perms, m, m)
  {
    var c := Claims(perms, m, m);
    ClaimsDistinct(perms, m, m);
    DistinctCardinality(c);
    SubsetOfSameSize((set x | x in c), Below(m));
    assert s in Below(m);
  }

  /** The turn at which a slot is claimed. */
  ghost function TurnOf(perms: seq<Permutation>, m: nat, s: nat): (t: nat)
    requires TableInput(perms, m) && s < m
    ensures t < m && Claims(perms, m, m)[t] == s
  {
    EverySlotClaimed(perms, m, s);
    var t :| 0 <= t < m && Claims(perms, m, m)[t] == s;
    t
  }

  /** Position in `perms` of the member that owns a slot. */
  ghost function OwnerOf(perms: seq<Permutation>, m: nat, s: nat): (j: nat)
    requires TableInput(perms, m) && s < m
    ensures j < |perms|
  {
    TurnOf(perms, m, s) % |perms|
  }

  ghost function FilledTable(perms: seq<Permutation>, m: nat): (table: seq<nat>)
    requires TableInput(perms, m)
    ensures |table| == m
    ensures forall s :: 0 <= s < m ==> table[s] == perms[OwnerOf(perms, m, s)].index
  {
    seq(m, s requires 0 <= s < m => perms[OwnerOf(perms, m, s)].index)
  }

  // ----- the fast form: per-member cursors that only move forward

  /** Slots in `c` are filled by their claimants, and no cursor has passed a free slot. */
  ghost predicate FillState(perms: seq<Permutation>, m: nat, c: seq<nat>, table: seq<nat>, next: seq<usize>)
    requires TableInput(perms, m)
  {
    && |table| == m && |next| == |perms|
    && (forall t :: 0 <= t < |c| ==> c[t] < m && table[c[t]] == perms[t % |perms|].index)
    && (forall s :: 0 <= s < m && s !in c ==> table[s] == UNFILLED)
    && (forall j :: 0 <= j < |perms| ==> Passed(perms[j], m, c, next[j]))
  }

  ghost predicate Passed(p: Permutation, m: nat, c: seq<nat>, upTo: nat)
    requires m > 0
  {
    forall k :: 0 <= k < upTo ==> Slot(p, k, m) in c
  }

  lemma CursorStopsAtFirstFree(
    perms: seq<Permutation>, m: nat, c: seq<nat>, table: seq<nat>, next: seq<usize>, i: nat)
    requires TableInput(perms, m) && |c| < m && FillState(perms, m, c, table, next) && i < |perms|
    ensures next[i] <= FirstFree(perms[i], m, c) < m
    ensures Slot(perms[i], next[i], m) !in c <==> next[i] == FirstFree(perms[i], m, c)
  {
    assert Passed(perms[i], m, c, next[i]);
  }

  ghost predicate IsTurnOf(t: nat, n: nat, i: nat)
    requires n > 0
  {
    i == t % n
  }

  lemma ClaimsStep(perms: seq<Permutation>, m: nat, t: nat, i: nat)
    requires TableInput(perms, m) && t < m && i < |perms| && IsTurnOf(t, |perms|, i) && WellFormed(perms[i], m)
    ensures var c := Claims(perms, m, t);
      Claims(perms, m, t + 1) == c + [Slot(perms[i], FirstFree(perms[i], m, c), m)]
  {
    hide IsPrime, Slot, FirstFree;
  }

  /** Taking one turn keeps the fill state. */
  lemma TurnKeepsFillState(
      perms: seq<Permutation>, m: nat, t: nat, table: seq<nat>, next: seq<usize>, i: nat)
    requires TableInput(perms, m) && t < m && i < |perms| && IsTurnOf(t, |perms|, i) && WellFormed(perms[i], m)
    requires FillState(perms, m, Claims(perms, m, t), table, next)
    requires next[i] == FirstFree(perms[i], m, Claims(perms, m, t)) && m <= MAX_TABLE_SIZE
    ensures
      var slot := Slot(perms[i], next[i], m);
      && Claims(perms, m, t + 1) == Claims(perms, m, t) + [slot]
      && FillState(perms, m, Claims(perms, m, t + 1), table[slot := perms[i].index], next[i := next[i] + 1])
  {
    hide IsPrime, Slot, FirstFree, Claims;
    ClaimsStep(perms, m, t, i);
    var c, slot := Claims(perms, m, t), Slot(perms[i], next[i], m);
    var d := c + [slot];
    var table', next' := table[slot := perms[i].index], next[i := next[i] + 1];
    forall u | 0 <= u < |d|
      ensures d[u] < m && table'[d[u]] == perms[u % |perms|].index
    {
      assert u < t ==> d[u] == c[u] && c[u] in c;
    }
    forall j | 0 <= j < |perms|
      ensures Passed(perms[j], m, d, next'[j])
    {
      assert Passed(perms[j], m, c, next[j]);
    }
  }

  lemma CompleteFillIsFilledTable(perms: seq<Permutation>, m: nat, table: seq<nat>, next: seq<usize>)
    requires TableInput(perms, m) && FillState(perms, m, Claims(perms, m, m), table, next)
    ensures table == FilledTable(perms, m)
  {
    forall s | 0 <= s < m
      ensures table[s] == FilledTable(perms, m)[s]
    {
      var t := TurnOf(perms, m, s);
      assert Claims(perms, m, m)[t] == s;
    }
  }

  lemma AdvanceCursor(
      perms: seq<Permutation>, m: nat, c: seq<nat>, table: seq<nat>, next: seq<usize>, i: nat)
    requires TableInput(perms, m) && m <= MAX_TABLE_SIZE && FillState(perms, m, c, table, next)
    requires i < |perms| && next[i] < m && Slot(perms[i], next[i], m) in c
    ensures FillState(perms, m, c, table, next[i := next[i] + 1])
  {
    forall j | 0 <= j < |perms|
      ensures Passed(perms[j], m, c, next[i := next[i] + 1][j])
    {
      assert Passed(perms[j], m, c, next[j]);
    }
  }

  lemma FilledMeansClaimed(
      perms: seq<Permutation>, m: nat, c: seq<nat>, table: seq<nat>, next: seq<usize>, slot: nat)
    requires TableInput(perms, m) && FillState(perms, m, c, table, next) && slot < m
    requires forall p :: p in perms ==> p.index != UNFILLED
    ensures table[slot] != UNFILLED <==> slot in c
  {
    if slot in c {
      var t :| 0 <= t < |c| && c[t] == slot;
      assert perms[t % |perms|] in perms;
    }
  }

  lemma FirstTurn(n: nat)
    requires n > 0
    ensures IsTurnOf(0, n, 0)
  {
  }

  lemma RoundPosition(start: nat, n: nat, i: nat)
    requires n > 0 && IsTurnOf(start, n, 0) && i <= n
    ensures i < n ==> IsTurnOf(start + i, n, i)
    ensures i == n ==> IsTurnOf(start + i, n, 0)
  {
    var q := start / n;
    assert start == n * q;
    if i < n {
      DivModUnique(start + i, n, q, i);
    } else {
      assert start + i == n * (q + 1);
      DivModUnique(start + i, n, q + 1, 0);
    }
  }

  /** The state after `t` turns, held in the two scratch arrays. */
  ghost predicate Filled(perms: seq<Permutation>, m: nat, t: nat, table: array<nat>, next: array<usize>)
    requires TableInput(perms, m) && t <= m
    reads table, next
  {
    && table.Length == m && next.Length == |perms|
    && FillState(perms, m, Claims(perms, m, t), table[..], next[..])
  }

  lemma NothingFilledYet(perms: seq<Permutation>, m: nat, table: seq<nat>, next: seq<usize>)
    requires TableInput(perms, m) && |table| == m && |next| == |perms|
    requires forall s :: 0 <= s < m ==> table[s] == UNFILLED
    requires forall j :: 0 <= j < |perms| ==> next[j] == 0
    ensures FillState(perms, m, Claims(perms, m, 0), table, next)
  {
  }

  /** One turn: member `i` skips the slots already taken and claims the next one. */
  method TakeTurn(m: usize, perms: seq<Permutation>, i: nat, table: array<nat>, next: array<usize>, ghost t: nat)
    requires TableInput(perms, m) && m <= MAX_TABLE_SIZE && t < m && i < |perms| && IsTurnOf(t, |perms|, i)
    requires forall p :: p in perms ==> p.index != UNFILLED
    requires (table as object) != next && Filled(perms, m, t, table, next)
    modifies table, next
    ensures Filled(perms, m, t + 1, table, next)
  {
    hide FillState, Passed, Claims, Slot, FirstFree, IsPrime, IsTurnOf;
    ghost var c := Claims(perms, m, t);
    var p := perms[i];
    assert WellFormed(p, m);
    CursorStopsAtFirstFree(perms, m, c, table[..], next[..], i);
    var slot := PermutationSlot(p, next[i], m);
    while table[slot] != UNFILLED
      invariant FillState(perms, m, c, table[..], next[..])
      invariant next[i] <= FirstFree(p, m, c) && slot == Slot(p, next[i], m)
      decreases m - next[i]
    {
      FilledMeansClaimed(perms, m, c, table[..], next[..], slot);
      CursorStopsAtFirstFree(perms, m, c, table[..], next[..], i);
      AdvanceCursor(perms, m, c, table[..], next[..], i);
      ghost var advanced := next[..][i := next[i] + 1];
      next[i] := next[i] + 1;
      assert next[..] == advanced;
      slot := PermutationSlot(p, next[i], m);
    }
    FilledMeansClaimed(perms, m, c, table[..], next[..], slot);
    CursorStopsAtFirstFree(perms, m, c, table[..], next[..], i);
    TurnKeepsFillState(perms, m, t, table[..], next[..], i);
    ghost var table', next' := table[..][slot := p.index], next[..][i := next[i] + 1];
    table[slot] := p.index;
    next[i] := next[i] + 1;
    assert table[..] == table' && next[..] == next';
  }

  /** Both loops terminate, every ordinal stays below the size, and the result is the claimed table. */
  method PopulateTable(m: usize, perms: seq<Permutation>) returns (r: Result<seq<nat>, PickError>)
    requires IsPrime(m) && m <= MAX_TABLE_SIZE
    requires forall p :: p in perms ==> WellFormed(p, m) && p.index != UNFILLED
    ensures perms == [] ==> r == Ok([])
    ensures |perms| > m ==> r == Err(StateCapacityExceeded)
    ensures 0 < |perms| <= m ==> r == Ok(FilledTable(perms, m))
  {
    hide FillState, Claims, WellFormed, IsPrime, FilledTable, IsTurnOf;
    assert perms != [] ==> TableInput(perms, m);
    hide TableInput;
    if perms == [] {
      return Ok([]);
    }
    if |perms| > m {
      return Err(StateCapacityExceeded);
    }
    var next := new usize[|perms|](_ => 0);
    var table := new nat[m](_ => UNFILLED);
    var populated: usize := 0;
    NothingFilledYet(perms, m, table[..], next[..]);
    FirstTurn(|perms|);
    while populated < m
      invariant populated <= m && Filled(perms, m, populated, table, next)
      invariant populated < m ==> IsTurnOf(populated, |perms|, 0)
      decreases m - populated
    {
      ghost var start := populated;
      var i := 0;
      while i < |perms|
        invariant 0 <= i <= |perms| && populated == start + i < m
        invariant Filled(perms, m, populated, table, next)
        decreases |perms| - i
      {
        RoundPosition(start, |perms|, i);
        TakeTurn(m, perms, i, table, next, populated);
        populated := populated + 1;
        if populated == m {
          break;
        }
        i := i + 1;
      }
      RoundPosition(start, |perms|, i);
    }
    CompleteFillIsFilledTable(perms, m, table[..], next[..]);
    return Ok(table[..]);
  }
}
