/** The sampling policies: one pass over the candidates, drawing as they go. */
module RandomPolicies {
  import opened Core
  import opened Tapes
  import opened Reservoirs

  /** A random-number generator, as the draws it has yet to produce. */
  class TapeRng {
    var future: Tape

    constructor (future: Tape)
      ensures this.future == future
    {
      this.future := future;
    }

    method Below(upper: nat) returns (draw: nat)
      requires future != [] && future[0] < upper
      modifies this
      ensures draw == old(future[0]) && future == old(future[1..])
    {
      draw := future[0];
      future := future[1..];
    }
  }

  lemma {:induction false} EligiblePrefix<Id>(cs: seq<Candidate<Id>>, i: nat)
    requires i <= |cs|
    ensures EligibleIndices(cs[..i]) <= EligibleIndices(cs)
    decreases |cs|
  {
    if i < |cs| {
      assert cs[..|cs| - 1][..i] == cs[..i];
      EligiblePrefix(cs[..|cs| - 1], i);
    } else {
      assert cs[..i] == cs;
    }
  }

  lemma EligibleStep<Id>(cs: seq<Candidate<Id>>, i: nat)
    requires i < |cs|
    ensures cs[i].eligible ==> EligibleIndices(cs[..i + 1]) == EligibleIndices(cs[..i]) + [i]
    ensures !cs[i].eligible ==> EligibleIndices(cs[..i + 1]) == EligibleIndices(cs[..i])
    ensures |EligibleIndices(cs[..i + 1])| <= |EligibleIndices(cs)|
  {
    assert cs[..i + 1][..i] == cs[..i];
    EligiblePrefix(cs, i + 1);
  }

  lemma RandomWinnerStep(tape: Tape, n: nat, k: nat)
    requires k < n <= |tape| && IsRandomTape(tape[..n])
    ensures IsRandomTape(tape[..k + 1]) && IsRandomTape(tape[..k]) && tape[k] < k + 1
    ensures RandomWinner(tape[..k + 1]) == if tape[k] == 0 then k else RandomWinner(tape[..k])
  {
    assert forall i :: 0 <= i <= k ==> tape[..n][i] == tape[i];
    assert tape[..k + 1][..k] == tape[..k];
  }

  /** Who holds the slot once the candidates in `e` have drawn. */
  ghost predicate SlotHolds(e: seq<nat>, tape: Tape, selected: Option<nat>) {
    && |e| <= |tape| && IsRandomTape(tape[..|e|])
    && selected == if e == [] then None else Some(e[RandomWinner(tape[..|e|])])
  }

  lemma SlotTakesNext(e: seq<nat>, tape: Tape, selected: Option<nat>, next: nat, n: nat)
    requires SlotHolds(e, tape, selected) && |e| < n <= |tape| && IsRandomTape(tape[..n])
    ensures tape[|e|] < |e| + 1
    ensures SlotHolds(e + [next], tape, if tape[|e|] == 0 then Some(next) else selected)
  {
    RandomWinnerStep(tape, n, |e|);
  }

  /** Where the one-slot scan stands before candidate `i`. */
  ghost predicate RandomScan<Id>(
      cs: seq<Candidate<Id>>, i: nat, tape: Tape, future: Tape, seen: nat, selected: Option<nat>) {
    && i <= |cs| && |EligibleIndices(cs[..i])| == seen <= |EligibleIndices(cs)| <= |tape|
    && IsRandomTape(tape[..|EligibleIndices(cs)|])
    && future == tape[seen..] && SlotHolds(EligibleIndices(cs[..i]), tape, selected)
  }

  lemma RandomScanStarts<Id>(cs: seq<Candidate<Id>>, tape: Tape)
    requires |EligibleIndices(cs)| <= |tape| && IsRandomTape(tape[..|EligibleIndices(cs)|])
    ensures RandomScan(cs, 0, tape, tape, 0, None)
  {
    assert EligibleIndices(cs[..0]) == [];
  }

  lemma RandomScanSkips<Id>(cs: seq<Candidate<Id>>, i: nat, tape: Tape, future: Tape, seen: nat,
                            selected: Option<nat>)
    requires i < |cs| && !cs[i].eligible && RandomScan(cs, i, tape, future, seen, selected)
    ensures RandomScan(cs, i + 1, tape, future, seen, selected)
  {
    hide EligibleIndices, SlotHolds;
    EligibleStep(cs, i);
  }

  lemma RandomScanDraws<Id>(cs: seq<Candidate<Id>>, i: nat, tape: Tape, future: Tape, seen: nat,
                            selected: Option<nat>)
    requires i < |cs| && cs[i].eligible && RandomScan(cs, i, tape, future, seen, selected)
    ensures future != [] && future[0] < seen + 1
    ensures RandomScan(cs, i + 1, tape, future[1..], seen + 1, if future[0] == 0 then Some(i) else selected)
  {
    hide EligibleIndices, SlotHolds;
    EligibleStep(cs, i);
    SlotTakesNext(EligibleIndices(cs[..i]), tape, selected, i, |EligibleIndices(cs)|);
  }

  lemma RandomScanDone<Id>(
      cs: seq<Candidate<Id>>, tape: Tape, future: Tape, seen: nat, selected: Option<nat>)
    requires RandomScan(cs, |cs|, tape, future, seen, selected)
    ensures var e := EligibleIndices(cs);
      && future == tape[|e|..]
      && selected == if e == [] then None else Some(e[RandomWinner(tape[..|e|])])
  {
    assert cs[..|cs|] == cs;
  }

  /** One draw per eligible candidate; the winner is the one the tape names. */
  method RandomPick<Id>(rng: TapeRng, cs: seq<Candidate<Id>>) returns (r: Result<nat, PickError>)
    requires var n := |EligibleIndices(cs)|; n <= |rng.future| && IsRandomTape(rng.future[..n])
    modifies rng
    ensures var e := EligibleIndices(cs);
      && rng.future == old(rng.future)[|e|..]
      && (e == [] ==> r == Err(if cs == [] then Empty else NoEligibleCandidates))
      && (e != [] ==> r == Ok(e[RandomWinner(old(rng.future)[..|e|])]))
  {
    hide EligibleIndices, IsRandomTape, RandomScan, RandomWinner;
    ghost var tape := rng.future;
    var selected: Option<nat> := None;
    var eligibleSeen := 0;
    var i := 0;
    RandomScanStarts(cs, tape);
    while i < |cs|
      invariant 0 <= i <= |cs| && RandomScan(cs, i, tape, rng.future, eligibleSeen, selected)
    {
      if cs[i].eligible {
        RandomScanDraws(cs, i, tape, rng.future, eligibleSeen, selected);
        eligibleSeen := eligibleSeen + 1;
        var draw := rng.Below(eligibleSeen);
        if draw == 0 {
          selected := Some(i);
        }
      } else {
        RandomScanSkips(cs, i, tape, rng.future, eligibleSeen, selected);
      }
      i := i + 1;
    }
    RandomScanDone(cs, tape, rng.future, eligibleSeen, selected);
    if selected.None? {
      return Err(NoCandidateError(|cs|));
    }
    return Ok(selected.value);
  }

  /** Draws consumed by the two-slot reservoir over `n` eligible candidates. */
  function PairDraws(n: nat): nat {
    if n <= 2 then 0 else n - 2
  }

  /** The reservoir array after the first `i` candidates. */
  ghost predicate ReservoirState(e: seq<nat>, tape: Tape, slots: seq<Option<nat>>) {
    && PairDraws(|e|) <= |tape| && |slots| == 2
    && (if |e| == 0 then slots == [None, None]
        else if |e| == 1 then slots == [Some(e[0]), None]
        else
          var held := Held(tape[..|e| - 2]);
          slots == [Some(e[held.0]), Some(e[held.1])])
  }

  /** How the array changes when one more eligible candidate arrives. */
  function NextSlots(slots: seq<Option<nat>>, seen: nat, draw: nat, next: nat): seq<Option<nat>>
    requires |slots| == 2
  {
    if seen < 2 then slots[seen := Some(next)] else if draw < 2 then slots[draw := Some(next)] else slots
  }

  lemma ReservoirTakesNext(e: seq<nat>, tape: Tape, slots: seq<Option<nat>>, next: nat, n: nat)
    requires ReservoirState(e, tape, slots) && PairDraws(|e| + 1) <= n <= |tape| && IsPairTape(tape[..n])
    ensures var draw := if |e| < 2 then 0 else tape[|e| - 2];
      (|e| >= 2 ==> draw < |e| + 1) && ReservoirState(e + [next], tape, NextSlots(slots, |e|, draw, next))
  {
    if |e| >= 2 {
      var used := tape[..|e| - 1];
      assert used[..|used| - 1] == tape[..|e| - 2];
      assert tape[..n][|e| - 2] == tape[|e| - 2];
    } else if |e| == 1 {
      assert tape[..0] == [];
    }
  }

  /** One eligible candidate meets the array: it fills a slot, or draws for one. */
  method Offer(rng: TapeRng, reservoir: array<Option<nat>>, eligibleSeen: nat, index: nat)
    requires reservoir.Length == 2 && eligibleSeen >= 1
    requires eligibleSeen > 2 ==> rng.future != [] && rng.future[0] < eligibleSeen
    modifies rng, reservoir
    ensures var draw := if eligibleSeen <= 2 then 0 else old(rng.future[0]);
      reservoir[..] == NextSlots(old(reservoir[..]), eligibleSeen - 1, draw, index)
    ensures rng.future == if eligibleSeen <= 2 then old(rng.future) else old(rng.future[1..])
  {
    if eligibleSeen <= 2 {
      reservoir[eligibleSeen - 1] := Some(index);
      return;
    }
    var slot := rng.Below(eligibleSeen);
    if slot < 2 {
      reservoir[slot] := Some(index);
    }
  }

  /** Where the two-slot scan stands before candidate `i`. */
  ghost predicate PairScan<Id>(
      cs: seq<Candidate<Id>>, i: nat, tape: Tape, future: Tape, seen: nat, slots: seq<Option<nat>>) {
    && i <= |cs| && |EligibleIndices(cs[..i])| == seen <= |EligibleIndices(cs)|
    && PairDraws(|EligibleIndices(cs)|) <= |tape| && IsPairTape(tape[..PairDraws(|EligibleIndices(cs)|)])
    && future == tape[PairDraws(seen)..] && ReservoirState(EligibleIndices(cs[..i]), tape, slots)
  }

  lemma PairScanStarts<Id>(cs: seq<Candidate<Id>>, tape: Tape, slots: seq<Option<nat>>)
    requires PairDraws(|EligibleIndices(cs)|) <= |tape| && IsPairTape(tape[..PairDraws(|EligibleIndices(cs)|)])
    requires |slots| == 2 && slots[0] == slots[1] == None
    ensures PairScan(cs, 0, tape, tape, 0, slots)
  {
    assert EligibleIndices(cs[..0]) == [];
  }

  lemma PairScanSkips<Id>(cs: seq<Candidate<Id>>, i: nat, tape: Tape, future: Tape, seen: nat,
                          slots: seq<Option<nat>>)
    requires i < |cs| && !cs[i].eligible && PairScan(cs, i, tape, future, seen, slots)
    ensures PairScan(cs, i + 1, tape, future, seen, slots)
  {
    hide EligibleIndices, ReservoirState;
    EligibleStep(cs, i);
  }

  lemma PairScanOffers<Id>(cs: seq<Candidate<Id>>, i: nat, tape: Tape, future: Tape, seen: nat,
                           slots: seq<Option<nat>>)
    requires i < |cs| && cs[i].eligible && |slots| == 2 && PairScan(cs, i, tape, future, seen, slots)
    ensures seen >= 2 ==> future != [] && future[0] < seen + 1
    ensures var draw := if seen < 2 then 0 else future[0];
      PairScan(cs, i + 1, tape, if seen < 2 then future else future[1..], seen + 1, NextSlots(slots, seen, draw, i))
  {
    hide EligibleIndices, ReservoirState, NextSlots;
    EligibleStep(cs, i);
    ReservoirTakesNext(EligibleIndices(cs[..i]), tape, slots, i, PairDraws(|EligibleIndices(cs)|));
  }

  lemma PairScanDone<Id>(
      cs: seq<Candidate<Id>>, tape: Tape, future: Tape, seen: nat, slots: seq<Option<nat>>)
    requires PairScan(cs, |cs|, tape, future, seen, slots)
    ensures future == tape[PairDraws(|EligibleIndices(cs)|)..] && ReservoirState(EligibleIndices(cs), tape, slots)
  {
    assert cs[..|cs|] == cs;
  }

  /** The reservoir scan: no draw for the first two eligible candidates, one for each after that. */
  method FillReservoir<Id>(rng: TapeRng, cs: seq<Candidate<Id>>) returns (reservoir: array<Option<nat>>)
    requires var n := PairDraws(|EligibleIndices(cs)|); n <= |rng.future| && IsPairTape(rng.future[..n])
    modifies rng
    ensures fresh(reservoir) && reservoir.Length == 2
    ensures rng.future == old(rng.future)[PairDraws(|EligibleIndices(cs)|)..]
    ensures ReservoirState(EligibleIndices(cs), old(rng.future), reservoir[..])
  {
    hide EligibleIndices, IsPairTape, PairDraws, ReservoirState, NextSlots, PairScan;
    ghost var tape := rng.future;
    reservoir := new Option<nat>[2](_ => None);
    var eligibleSeen := 0;
    var i := 0;
    PairScanStarts(cs, tape, reservoir[..]);
    while i < |cs|
      invariant 0 <= i <= |cs| && PairScan(cs, i, tape, rng.future, eligibleSeen, reservoir[..])
    {
      if cs[i].eligible {
        PairScanOffers(cs, i, tape, rng.future, eligibleSeen, reservoir[..]);
        eligibleSeen := eligibleSeen + 1;
        Offer(rng, reservoir, eligibleSeen, i);
      } else {
        PairScanSkips(cs, i, tape, rng.future, eligibleSeen, reservoir[..]);
      }
      i := i + 1;
    }
    PairScanDone(cs, tape, rng.future, eligibleSeen, reservoir[..]);
  }

  /** The two positions the tape leaves in the reservoir. */
  ghost function Sampled(e: seq<nat>, tape: Tape): (r: (nat, nat))
    requires |e| >= 2 && |e| - 2 <= |tape|
    ensures r.0 in e && r.1 in e
  {
    var held := Held(tape[..|e| - 2]);
    (e[held.0], e[held.1])
  }

  lemma ReservoirHolds(e: seq<nat>, tape: Tape, slots: seq<Option<nat>>)
    requires ReservoirState(e, tape, slots)
    ensures |slots| == 2
    ensures slots[0].None? <==> |e| == 0
    ensures slots[1].None? <==> |e| < 2
    ensures |e| == 1 ==> slots[0] == Some(e[0])
    ensures |e| >= 2 ==> |e| - 2 <= |tape| && slots == [Some(Sampled(e, tape).0), Some(Sampled(e, tape).1)]
  {
  }

  /** Which sampled position is kept: the lighter one, or by one more draw when they tie. */
  ghost function Kept(e: seq<nat>, tape: Tape, loads: seq<int>): (r: nat)
    requires |e| >= 2 && |e| - 2 <= |tape| && forall i :: 0 <= i < |e| ==> e[i] < |loads|
    requires var (a, b) := Sampled(e, tape); loads[a] == loads[b] ==> |e| - 2 < |tape|
    ensures r in e
  {
    var (a, b) := Sampled(e, tape);
    if loads[a] < loads[b] || (loads[a] == loads[b] && tape[|e| - 2] == 1) then a else b
  }

  /** Sample two, keep the less loaded; a tie costs one more draw. */
  method PowerOfTwoPick<Id>(rng: TapeRng, cs: seq<Candidate<Id>>, loads: seq<int>) returns (r: Result<nat, PickError>)
    requires |loads| == |cs|
    requires var n := PairDraws(|EligibleIndices(cs)|);
      n < |rng.future| && IsPairTape(rng.future[..n]) && rng.future[n] < 2
    modifies rng
    ensures var e, tape := EligibleIndices(cs), old(rng.future);
      && (e == [] ==> r == Err(if cs == [] then Empty else NoEligibleCandidates) && rng.future == tape)
      && (|e| == 1 ==> r == Ok(e[0]) && rng.future == tape)
      && (|e| >= 2 ==>
            var (a, b) := Sampled(e, tape);
            && r == Ok(Kept(e, tape, loads))
            && rng.future == tape[|e| - 2 + if loads[a] == loads[b] then 1 else 0..])
  {
    hide EligibleIndices, ReservoirState, Sampled;
    ghost var e, tape := EligibleIndices(cs), rng.future;
    var reservoir := FillReservoir(rng, cs);
    ReservoirHolds(e, tape, reservoir[..]);
    if reservoir[0].None? {
      return Err(NoCandidateError(|cs|));
    }
    var first := reservoir[0].value;
    if reservoir[1].None? {
      return Ok(first);
    }
    var second := reservoir[1].value;
    if loads[first] < loads[second] {
      return Ok(first);
    } else if loads[first] > loads[second] {
      return Ok(second);
    }
    var coin := rng.Below(2);
    return Ok(if coin == 1 then first else second);
  }

  /** Someone else eligible is at least as loaded as the winner, on every tape. */
  lemma WorstNeverWins(e: seq<nat>, tape: Tape, loads: seq<int>)
    requires |e| >= 2 && |e| - 2 < |tape| && Increasing(e) && forall i :: 0 <= i < |e| ==> e[i] < |loads|
    ensures var w := Kept(e, tape, loads);
      exists other :: other in e && other != w && loads[w] <= loads[other]
  {
    var held := Held(tape[..|e| - 2]);
    var (a, b) := Sampled(e, tape);
    assert a != b;
  }

  ghost predicate Increasing(e: seq<nat>) {
    forall j, k :: 0 <= j < k < |e| ==> e[j] < e[k]
  }

  /** The positions among the eligible whose load is above that of the `k`-th. */
  ghost function Heavier(e: seq<nat>, loads: seq<int>, k: nat): set<nat>
    requires k < |e| && forall i :: 0 <= i < |e| ==> e[i] < |loads|
  {
    set j: nat | j < |e| && loads[e[k]] < loads[e[j]]
  }

  /** The other positions whose load ties with that of the `k`-th. */
  ghost function Tied(e: seq<nat>, loads: seq<int>, k: nat): set<nat>
    requires k < |e| && forall i :: 0 <= i < |e| ==> e[i] < |loads|
  {
    set j: nat | j < |e| && j != k && loads[e[k]] == loads[e[j]]
  }

  /** Reservoir draws followed by the coin that settles a tie. */
  ghost function CoinTapes(n: nat): set<Tape>
    requires n >= 2
  {
    Extend(PairTapes(n), 0, 2)
  }

  /** The coin tapes on which the `k`-th eligible candidate is kept. */
  ghost function Wins(e: seq<nat>, loads: seq<int>, k: nat): set<Tape>
    requires |e| >= 2 && k < |e| && forall i :: 0 <= i < |e| ==> e[i] < |loads|
  {
    set u | u in CoinTapes(|e|) && |u| == |e| - 1 && Kept(e, u, loads) == e[k]
  }

  lemma CoinTapeShape(n: nat, u: Tape)
    requires n >= 2
    ensures u in CoinTapes(n) <==> |u| == n - 1 && u[n - 2] < 2 && u[..n - 2] in PairTapes(n)
  {
    ExtendMembers(PairTapes(n), 0, 2, u);
    if u != [] {
      PairTapesAreAll(n, u[..|u| - 1]);
    }
  }

  /** Beside a tied companion, exactly one side of the coin keeps `k`: heads when it holds the first slot. */
  ghost function TiedInSlot(e: seq<nat>, loads: seq<int>, k: nat, slot: nat): set<Tape>
    requires |e| >= 2 && k < |e| && forall i :: 0 <= i < |e| ==> e[i] < |loads|
  {
    Beside(|e|, k, Tied(e, loads, k)) * InSlot(|e|, slot, k)
  }

  lemma KeptIff(e: seq<nat>, u: Tape, loads: seq<int>, k: nat)
    requires |e| >= 2 && Increasing(e) && k < |e| && forall i :: 0 <= i < |e| ==> e[i] < |loads|
    requires |u| == |e| - 1 && u[|e| - 2] < 2
    ensures var t, coin := u[..|e| - 2], u[|e| - 2];
      Kept(e, u, loads) == e[k] <==>
        && (Held(t).0 == k || Held(t).1 == k)
        && (|| Companion(t, k) in Heavier(e, loads, k)
            || (Companion(t, k) in Tied(e, loads, k) && (coin == 1 <==> Held(t).0 == k)))
  {
    hide Held;
  }

  lemma WinsSplit(e: seq<nat>, loads: seq<int>, k: nat, u: Tape)
    requires |e| >= 2 && Increasing(e) && k < |e| && forall i :: 0 <= i < |e| ==> e[i] < |loads|
    ensures u in Wins(e, loads, k) <==>
      || u in Extend(Beside(|e|, k, Heavier(e, loads, k)), 0, 2)
      || u in Append(TiedInSlot(e, loads, k, 0), 1)
      || u in Append(TiedInSlot(e, loads, k, 1), 0)
    ensures u in Extend(Beside(|e|, k, Heavier(e, loads, k)), 0, 2) ==>
      u !in Append(TiedInSlot(e, loads, k, 0), 1) && u !in Append(TiedInSlot(e, loads, k, 1), 0)
    ensures u in Append(TiedInSlot(e, loads, k, 0), 1) ==> u !in Append(TiedInSlot(e, loads, k, 1), 0)
  {
    var n := |e|;
    CoinTapeShape(n, u);
    ExtendMembers(Beside(n, k, Heavier(e, loads, k)), 0, 2, u);
    AppendMembers(TiedInSlot(e, loads, k, 0), 1, u);
    AppendMembers(TiedInSlot(e, loads, k, 1), 0, u);
    hide Append, Extend, PairTapes, Held, CoinTapes, Kept, Heavier, Tied;
    if u != [] {
      PairTapesAreAll(n, u[..|u| - 1]);
      if u in CoinTapes(n) {
        KeptIff(e, u, loads, k);
      }
    }
  }

  lemma TiedSplits(e: seq<nat>, loads: seq<int>, k: nat)
    requires |e| >= 2 && k < |e| && forall i :: 0 <= i < |e| ==> e[i] < |loads|
    ensures var first, second := TiedInSlot(e, loads, k, 0), TiedInSlot(e, loads, k, 1);
      Beside(|e|, k, Tied(e, loads, k)) == first + second && first !! second
  {
    hide Tied, InSlot, Companion;
    SlotsAreDisjoint(|e|, k);
  }

  lemma TiedCount(e: seq<nat>, loads: seq<int>, k: nat)
    requires |e| >= 2 && k < |e| && forall i :: 0 <= i < |e| ==> e[i] < |loads|
    ensures |TiedInSlot(e, loads, k, 0)| + |TiedInSlot(e, loads, k, 1)| == |Tied(e, loads, k)| * Factorial(|e| - 2)
  {
    TiedAreOthers(e, loads, k);
    hide Tied, Beside, TiedInSlot, Factorial;
    TiedSplits(e, loads, k);
    DisjointUnionCount(TiedInSlot(e, loads, k, 0), TiedInSlot(e, loads, k, 1));
    WinsByNumberBeaten(|e|, k, Tied(e, loads, k));
  }

  lemma TiedAreOthers(e: seq<nat>, loads: seq<int>, k: nat)
    requires |e| >= 2 && k < |e| && forall i :: 0 <= i < |e| ==> e[i] < |loads|
    ensures k !in Tied(e, loads, k) && k !in Heavier(e, loads, k)
    ensures forall j :: j in Tied(e, loads, k) || j in Heavier(e, loads, k) ==> j < |e|
  {
  }

  lemma AddedShares(h: nat, e: nat, f: nat)
    ensures 2 * (h * f) + e * f == (2 * h + e) * f
  {
  }

  /**
   * A candidate lighter than h others and tied with e wins on exactly (2h + e) * (n-2)! of the n! tapes
   * that end in a coin: twice the weight for each one it beats as for each one it ties.
   */
  lemma WinsAreProportional(e: seq<nat>, loads: seq<int>, k: nat)
    requires |e| >= 2 && Increasing(e) && k < |e| && forall i :: 0 <= i < |e| ==> e[i] < |loads|
    ensures |Wins(e, loads, k)| == (2 * |Heavier(e, loads, k)| + |Tied(e, loads, k)|) * Factorial(|e| - 2)
    ensures |CoinTapes(|e|)| == Factorial(|e|)
  {
    hide Wins, Extend, Append, Beside, TiedInSlot, Heavier, Tied, Factorial, PairTapes;
    var n := |e|;
    WinsCount(e, loads, k);
    TiedCount(e, loads, k);
    HeavierCount(e, loads, k);
    AddedShares(|Heavier(e, loads, k)|, |Tied(e, loads, k)|, Factorial(n - 2));
    PairTapeCount(n);
    ExtendCount(PairTapes(n), 0, 2);
  }

  lemma HeavierCount(e: seq<nat>, loads: seq<int>, k: nat)
    requires |e| >= 2 && k < |e| && forall i :: 0 <= i < |e| ==> e[i] < |loads|
    ensures |Beside(|e|, k, Heavier(e, loads, k))| == |Heavier(e, loads, k)| * Factorial(|e| - 2)
  {
    TiedAreOthers(e, loads, k);
    hide Heavier, Beside, Factorial;
    WinsByNumberBeaten(|e|, k, Heavier(e, loads, k));
  }

  lemma ThreePartCount(w: set<Tape>, x: set<Tape>, y: set<Tape>, z: set<Tape>)
    requires forall u :: u in w <==> u in x || u in y || u in z
    requires forall u :: u in x ==> u !in y && u !in z
    requires forall u :: u in y ==> u !in z
    ensures |w| == |x| + |y| + |z|
  {
    assert w == x + y + z;
    DisjointUnionCount(x, y);
    DisjointUnionCount(x + y, z);
  }

  lemma WinsCount(e: seq<nat>, loads: seq<int>, k: nat)
    requires |e| >= 2 && Increasing(e) && k < |e| && forall i :: 0 <= i < |e| ==> e[i] < |loads|
    ensures |Wins(e, loads, k)| ==
      2 * |Beside(|e|, k, Heavier(e, loads, k))| + |TiedInSlot(e, loads, k, 0)| + |TiedInSlot(e, loads, k, 1)|
  {
    hide Wins, Extend, Append, Beside, TiedInSlot, Heavier;
    var beaten := Beside(|e|, k, Heavier(e, loads, k));
    var x, y, z := Extend(beaten, 0, 2), Append(TiedInSlot(e, loads, k, 0), 1), Append(TiedInSlot(e, loads, k, 1), 0);
    forall u: Tape
      ensures u in Wins(e, loads, k) <==> u in x || u in y || u in z
      ensures u in x ==> u !in y && u !in z
      ensures u in y ==> u !in z
    {
      WinsSplit(e, loads, k, u);
    }
    ThreePartCount(Wins(e, loads, k), x, y, z);
    ExtendCount(beaten, 0, 2);
    AppendCount(TiedInSlot(e, loads, k, 0), 1);
    AppendCount(TiedInSlot(e, loads, k, 1), 0);
  }
}
