/** Smooth weighted round robin: the keyed credit map and its per-call step. */
module SmoothWeightedRoundRobin {
  import opened Core
  import opened Listings
  import opened Sums

  /** The counter's last value before it wraps, 2^64 - 1. */
  const LAST_EPOCH: u64 := 0xffff_ffff_ffff_ffff

  datatype State = State(current: int, seenIn: u64)

  function CreditOf<Key>(credits: map<Key, int>, k: Key): int {
    if k in credits then credits[k] else 0
  }

  /** Credits after every eligible identity has received its weight. */
  ghost function Bumped<Key>(credits: map<Key, int>, w: map<Key, int>): map<Key, int> {
    map k | k in w :: CreditOf(credits, k) + w[k]
  }

  ghost predicate Scored<Key>(scores: map<Key, int>, cs: seq<Candidate<Key>>) {
    forall i :: 0 <= i < |cs| && cs[i].eligible ==> cs[i].id in scores
  }

  /** The first eligible position of greatest score. */
  ghost predicate IsWinner<Key>(scores: map<Key, int>, cs: seq<Candidate<Key>>, i: nat)
    requires Scored(scores, cs)
  {
    && i < |cs| && cs[i].eligible
    && forall j :: 0 <= j < |cs| && cs[j].eligible ==>
         && scores[cs[j].id] <= scores[cs[i].id]
         && (j < i ==> scores[cs[j].id] < scores[cs[i].id])
  }

  lemma WinnerIsUnique<Key>(scores: map<Key, int>, cs: seq<Candidate<Key>>, i: nat, j: nat)
    requires Scored(scores, cs) && IsWinner(scores, cs, i) && IsWinner(scores, cs, j)
    ensures i == j
  {
  }

  lemma {:induction false} WinnerExists<Key>(scores: map<Key, int>, cs: seq<Candidate<Key>>)
    requires Scored(scores, cs) && exists i :: 0 <= i < |cs| && cs[i].eligible
    ensures exists i: nat :: IsWinner(scores, cs, i)
  {
    var last := |cs| - 1;
    var rest := cs[..last];
    if i :| 0 <= i < last && cs[i].eligible {
      assert rest[i].eligible;
      assert Scored(scores, rest) by {
        forall i | 0 <= i < |rest| && rest[i].eligible
          ensures rest[i].id in scores
        {
          assert cs[i].eligible;
        }
      }
      WinnerExists(scores, rest);
      var w: nat :| IsWinner(scores, rest, w);
      forall j | 0 <= j < last && cs[j].eligible
        ensures scores[cs[j].id] <= scores[cs[w].id] && (j < w ==> scores[cs[j].id] < scores[cs[w].id])
      {
        assert rest[j].eligible;
      }
      if cs[last].eligible && scores[cs[last].id] > scores[cs[w].id] {
        assert IsWinner(scores, cs, last);
      } else {
        assert IsWinner(scores, cs, w);
      }
    } else {
      assert IsWinner(scores, cs, last);
    }
  }

  ghost function Winner<Key>(scores: map<Key, int>, cs: seq<Candidate<Key>>): (i: nat)
    requires Scored(scores, cs) && exists i :: 0 <= i < |cs| && cs[i].eligible
    ensures IsWinner(scores, cs, i)
  {
    WinnerExists(scores, cs);
    var i: nat :| IsWinner(scores, cs, i);
    i
  }

  ghost predicate AnyEligible<Key>(cs: seq<Candidate<Key>>) {
    exists i :: 0 <= i < |cs| && cs[i].eligible
  }

  /** One decision: everyone gains its weight, the winner pays the total. */
  ghost function Step<Key>(credits: map<Key, int>, cs: seq<Candidate<Key>>): (r: (map<Key, int>, nat))
    requires UniqueEligible(cs) && AnyEligible(cs)
    ensures r.1 < |cs| && cs[r.1].eligible
  {
    WeightsKeys(cs);
    var w := Weights(cs);
    var bumped := Bumped(credits, w);
    var i := Winner(bumped, cs);
    (bumped[cs[i].id := bumped[cs[i].id] - Sum(w)], i)
  }

  /** Entries stamped with this epoch hold bumped credits; the rest still hold the old ones. */
  ghost predicate StatesMatch<Key>(base: map<Key, int>, w: map<Key, int>, epoch: u64, states: map<Key, State>) {
    && states.Keys == base.Keys + w.Keys
    && forall k :: k in states ==>
         if k in w then states[k] == State(CreditOf(base, k) + w[k], epoch)
         else states[k].current == base[k] && states[k].seenIn != epoch
  }

  lemma VisitKeepsStates<Key>(base: map<Key, int>, w: map<Key, int>, epoch: u64,
                              states: map<Key, State>, k: Key, weight: int)
    requires StatesMatch(base, w, epoch, states) && (k in states ==> states[k].seenIn != epoch)
    ensures k !in w && (if k in states then states[k].current else 0) == CreditOf(base, k)
    ensures StatesMatch(base, w[k := weight], epoch, states[k := State(CreditOf(base, k) + weight, epoch)])
  {
  }

  /** The running winner over a prefix: nobody yet, or the first best score. */
  ghost predicate Leads<Key>(scores: map<Key, int>, cs: seq<Candidate<Key>>, winner: Option<(nat, int)>) {
    && Scored(scores, cs)
    && (winner.None? <==> !AnyEligible(cs))
    && (winner.Some? ==> IsWinner(scores, cs, winner.value.0) && winner.value.1 == scores[cs[winner.value.0].id])
  }

  /** The pick loop after the first `i` candidates. */
  ghost predicate LoopState<Key>(base: map<Key, int>, cs: seq<Candidate<Key>>, i: nat, epoch: u64,
                                 states: map<Key, State>, total: int, winner: Option<(nat, int)>)
    requires i <= |cs|
  {
    var w := Weights(cs[..i]);
    && StatesMatch(base, w, epoch, states)
    && total == Sum(w)
    && UniqueEligible(cs[..i])
    && Leads(Bumped(base, w), cs[..i], winner)
  }

  lemma LoopSkips<Key>(base: map<Key, int>, cs: seq<Candidate<Key>>, i: nat, epoch: u64,
                       states: map<Key, State>, total: int, winner: Option<(nat, int)>)
    requires i < |cs| && !cs[i].eligible && LoopState(base, cs, i, epoch, states, total, winner)
    ensures LoopState(base, cs, i + 1, epoch, states, total, winner)
  {
    assert cs[..i + 1][..i] == cs[..i];
    assert Weights(cs[..i + 1]) == Weights(cs[..i]);
    if AnyEligible(cs[..i]) {
      var j :| 0 <= j < i && cs[..i][j].eligible;
      assert cs[..i + 1][j].eligible;
    }
  }

  lemma VisitExtendsWeights<Key>(cs: seq<Candidate<Key>>, i: nat)
    requires i < |cs| && cs[i].eligible && UniqueEligible(cs[..i]) && cs[i].id !in Weights(cs[..i])
    ensures Weights(cs[..i + 1]) == Weights(cs[..i])[cs[i].id := cs[i].weight]
    ensures Sum(Weights(cs[..i + 1])) == Sum(Weights(cs[..i])) + cs[i].weight
    ensures UniqueEligible(cs[..i + 1])
  {
    assert cs[..i + 1][..i] == cs[..i];
    WeightsKeys(cs[..i]);
    SumInsert(Weights(cs[..i]), cs[i].id, cs[i].weight);
    forall a, b | 0 <= a < b < i + 1 && cs[a].eligible && cs[b].eligible
      ensures cs[a].id != cs[b].id
    {
      assert cs[..i][a] == cs[a];
      if b < i {
        assert cs[..i][b] == cs[b];
      }
    }
  }

  /** One more identity is scored; the others keep their scores. */
  ghost predicate ExtendsScores<Key>(scores: map<Key, int>, scores': map<Key, int>, k: Key) {
    k !in scores && k in scores' && forall j :: j in scores ==> j in scores' && scores'[j] == scores[j]
  }

  lemma VisitExtendsScores<Key>(base: map<Key, int>, w: map<Key, int>, k: Key, weight: int)
    requires k !in w
    ensures ExtendsScores(Bumped(base, w), Bumped(base, w[k := weight]), k)
    ensures Bumped(base, w[k := weight])[k] == CreditOf(base, k) + weight
  {
  }

  /** The running winner over one more candidate is the old one unless strictly beaten. */
  lemma VisitKeepsWinner<Key>(scores: map<Key, int>, scores': map<Key, int>,
                              cs: seq<Candidate<Key>>, i: nat, winner: Option<(nat, int)>)
    requires i < |cs| && cs[i].eligible && ExtendsScores(scores, scores', cs[i].id) && Leads(scores, cs[..i], winner)
    ensures var current := scores'[cs[i].id];
      Leads(scores', cs[..i + 1], if winner.None? || current > winner.value.1 then Some((i, current)) else winner)
  {
    var old', new' := cs[..i], cs[..i + 1];
    forall j | 0 <= j < |new'| && new'[j].eligible
      ensures new'[j].id in scores' && (j < i ==> old'[j].eligible && scores'[new'[j].id] == scores[old'[j].id])
    {
      if j < i {
        assert old'[j].eligible && old'[j].id in scores;
      }
    }
    assert new'[i].eligible;
  }

  lemma LoopVisits<Key>(base: map<Key, int>, cs: seq<Candidate<Key>>, i: nat, epoch: u64,
                        states: map<Key, State>, total: int, winner: Option<(nat, int)>)
    requires i < |cs| && cs[i].eligible && LoopState(base, cs, i, epoch, states, total, winner)
    requires cs[i].id in states ==> states[cs[i].id].seenIn != epoch
    ensures
      var k, weight := cs[i].id, cs[i].weight;
      var current := (if k in states then states[k].current else 0) + weight;
      LoopState(base, cs, i + 1, epoch, states[k := State(current, epoch)], total + weight,
                if winner.None? || current > winner.value.1 then Some((i, current)) else winner)
  {
    hide UniqueEligible, Leads, Weights, StatesMatch, Bumped, ExtendsScores, CreditOf, Sum;
    var k, weight := cs[i].id, cs[i].weight;
    var w, w' := Weights(cs[..i]), Weights(cs[..i + 1]);
    VisitKeepsStates(base, w, epoch, states, k, weight);
    VisitExtendsWeights(cs, i);
    VisitExtendsScores(base, w, k, weight);
    VisitKeepsWinner(Bumped(base, w), Bumped(base, w'), cs, i, winner);
  }

  lemma LoopStarts<Key>(base: map<Key, int>, cs: seq<Candidate<Key>>, epoch: u64,
                        states: map<Key, State>)
    requires states.Keys == base.Keys
    requires forall k :: k in states ==> states[k].current == base[k] && states[k].seenIn != epoch
    ensures LoopState(base, cs, 0, epoch, states, 0, None)
  {
  }

  /** Meeting an entry already stamped with this epoch means a repeated identity. */
  lemma SeenTwice<Key>(base: map<Key, int>, cs: seq<Candidate<Key>>, i: nat, epoch: u64,
                       states: map<Key, State>, total: int, winner: Option<(nat, int)>)
    requires i < |cs| && cs[i].eligible && LoopState(base, cs, i, epoch, states, total, winner)
    requires cs[i].id in states && states[cs[i].id].seenIn == epoch
    ensures !UniqueEligible(cs) && AnyEligible(cs)
  {
    WeightsKeys(cs[..i]);
    var j :| 0 <= j < i && cs[..i][j].eligible && cs[..i][j].id == cs[i].id;
    assert cs[j].eligible && cs[j].id == cs[i].id;
  }

  function Retained<Key>(states: map<Key, State>, epoch: u64): map<Key, State> {
    map k | k in states && states[k].seenIn == epoch :: states[k]
  }

  function Charged<Key>(states: map<Key, State>, k: Key, total: int): map<Key, State>
    requires k in states
  {
    states[k := states[k].(current := states[k].current - total)]
  }

  /** What is left after pruning: exactly this slice's identities, at their bumped credits. */
  lemma PruningKeepsBumped<Key>(base: map<Key, int>, cs: seq<Candidate<Key>>, epoch: u64,
                                states: map<Key, State>, total: int, winner: Option<(nat, int)>)
    requires LoopState(base, cs, |cs|, epoch, states, total, winner)
    ensures Retained(states, epoch) == map k | k in Weights(cs) :: State(Bumped(base, Weights(cs))[k], epoch)
  {
    assert cs[..|cs|] == cs;
    assert Retained(states, epoch).Keys == Weights(cs).Keys;
  }

  lemma WinnerAtEnd<Key>(base: map<Key, int>, cs: seq<Candidate<Key>>, epoch: u64,
                         states: map<Key, State>, total: int, winner: Option<(nat, int)>)
    requires LoopState(base, cs, |cs|, epoch, states, total, winner)
    ensures UniqueEligible(cs) && total == Sum(Weights(cs)) && (winner.None? <==> !AnyEligible(cs))
    ensures winner.Some? ==> winner.value.0 == Step(base, cs).1
  {
    assert cs[..|cs|] == cs;
    if winner.Some? {
      WinnerIsUnique(Bumped(base, Weights(cs)), cs, winner.value.0, Step(base, cs).1);
    }
  }

  lemma NobodyEligible<Key>(cs: seq<Candidate<Key>>)
    ensures Weights(cs) == map[] <==> !AnyEligible(cs)
  {
    WeightsKeys(cs);
  }

  lemma ChargingCompletesStep<Key>(base: map<Key, int>, cs: seq<Candidate<Key>>, epoch: u64,
                                   kept: map<Key, State>, total: int, i: nat)
    requires UniqueEligible(cs) && AnyEligible(cs) && i == Step(base, cs).1 && total == Sum(Weights(cs))
    requires kept == map k | k in Weights(cs) :: State(Bumped(base, Weights(cs))[k], epoch)
    ensures cs[i].id in kept
    ensures var settled := Charged(kept, cs[i].id, total);
      && (forall k :: k in settled ==> settled[k].seenIn == epoch)
      && (map k | k in settled :: settled[k].current) == Step(base, cs).0
  {
    WeightsKeys(cs);
    hide UniqueEligible, AnyEligible, Winner, Weights;
    assert cs[i].id in Weights(cs);
  }

  /** Pruning and charging the winner completes the step. */
  lemma LoopEnds<Key>(base: map<Key, int>, cs: seq<Candidate<Key>>, epoch: u64,
                      states: map<Key, State>, total: int, winner: Option<(nat, int)>)
    requires LoopState(base, cs, |cs|, epoch, states, total, winner)
    ensures UniqueEligible(cs) && (winner.None? <==> !AnyEligible(cs))
    ensures winner.None? ==> Retained(states, epoch) == map[]
    ensures winner.Some? ==>
      && winner.value.0 == Step(base, cs).1
      && cs[winner.value.0].id in Retained(states, epoch)
      && var settled := Charged(Retained(states, epoch), cs[winner.value.0].id, total);
         && (forall k :: k in settled ==> settled[k].seenIn == epoch)
         && (map k | k in settled :: settled[k].current) == Step(base, cs).0
  {
    hide LoopState, Step, UniqueEligible, AnyEligible, Weights, Charged, Retained;
    PruningKeepsBumped(base, cs, epoch, states, total, winner);
    WinnerAtEnd(base, cs, epoch, states, total, winner);
    NobodyEligible(cs);
    if winner.Some? {
      ChargingCompletesStep(base, cs, epoch, Retained(states, epoch), total, winner.value.0);
    }
  }

  class SmoothWeightedRoundRobin<Key(==)> {
    var states: map<Key, State>
    var epoch: u64

    /** Retained entries all carry the latest epoch, so the next one is unseen. */
    ghost predicate Valid()
      reads this
    {
      forall k :: k in states ==> states[k].seenIn == epoch && epoch != 0
    }

    ghost function Credits(): map<Key, int>
      reads this
    {
      map k | k in states :: states[k].current
    }

    constructor ()
      ensures Valid() && states == map[] && epoch == 0
    {
      states, epoch := map[], 0;
    }

    method Reset()
      modifies this
      ensures Valid() && states == map[] && epoch == 0
    {
      states, epoch := map[], 0;
    }

    /** The candidate loop: credit each eligible identity and track the running winner. */
    method Scan(cs: seq<Candidate<Key>>, ghost base: map<Key, int>)
      returns (duplicate: bool, totalWeight: int, winner: Option<(nat, int)>)
      requires states.Keys == base.Keys
      requires forall k :: k in states ==> states[k].current == base[k] && states[k].seenIn != epoch
      requires epoch != 0
      modifies `states
      ensures duplicate ==> !UniqueEligible(cs) && AnyEligible(cs)
      ensures !duplicate ==> LoopState(base, cs, |cs|, epoch, states, totalWeight, winner)
    {
      hide LoopState, Step, UniqueEligible, AnyEligible, Weights;
      totalWeight, winner := 0, None;
      LoopStarts(base, cs, epoch, states);
      var i := 0;
      while i < |cs|
        invariant 0 <= i <= |cs| && LoopState(base, cs, i, epoch, states, totalWeight, winner)
      {
        if cs[i].eligible {
          var k, weight := cs[i].id, cs[i].weight;
          var state := if k in states then states[k] else State(0, 0);
          if state.seenIn == epoch {
            SeenTwice(base, cs, i, epoch, states, totalWeight, winner);
            return true, totalWeight, winner;
          }
          LoopVisits(base, cs, i, epoch, states, totalWeight, winner);
          var current := state.current + weight;
          states := states[k := State(current, epoch)];
          totalWeight := totalWeight + weight;
          if winner.None? || current > winner.value.1 {
            winner := Some((i, current));
          }
        } else {
          LoopSkips(base, cs, i, epoch, states, totalWeight, winner);
        }
        i := i + 1;
      }
      duplicate := false;
    }

    /** Every outcome, with the credits each one leaves behind. */
    method Pick(cs: seq<Candidate<Key>>) returns (r: Result<nat, PickError>)
      requires Valid()
      modifies this
      ensures Valid()
      ensures cs == [] ==> r == Err(Empty) && states == map[] && epoch == old(epoch)
      ensures cs != [] && !UniqueEligible(cs) ==> r == Err(DuplicateIdentity) && states == map[] && epoch == 0
      ensures cs != [] && !AnyEligible(cs) ==>
        r == Err(NoEligibleCandidates) && states == map[] && epoch == NextEpoch(old(epoch))
      ensures UniqueEligible(cs) && AnyEligible(cs) ==>
        && r == Ok(Step(Carried(old(epoch), old(Credits())), cs).1)
        && Credits() == Step(Carried(old(epoch), old(Credits())), cs).0
        && epoch == NextEpoch(old(epoch))
    {
      hide LoopState, Step, UniqueEligible, AnyEligible, Weights, Charged, Retained;
      if cs == [] {
        states := map[];
        return Err(Empty);
      }
      epoch := (epoch + 1) % U64_LIMIT;
      if epoch == 0 {
        states := map[];
        epoch := 1;
      }
      ghost var base := Carried(old(epoch), old(Credits()));
      var duplicate, totalWeight, winner := Scan(cs, base);
      if duplicate {
        Reset();
        return Err(DuplicateIdentity);
      }
      LoopEnds(base, cs, epoch, states, totalWeight, winner);
      states := Retained(states, epoch);
      if winner.None? {
        return Err(NoEligibleCandidates);
      }
      states := Charged(states, cs[winner.value.0].id, totalWeight);
      return Ok(winner.value.0);
    }
  }

  function NextEpoch(epoch: u64): u64 {
    if epoch == LAST_EPOCH then 1 else epoch + 1
  }

  /** Credits survive from call to call, except across the wrap of the epoch counter. */
  function Carried<Key>(epoch: u64, credits: map<Key, int>): map<Key, int> {
    if epoch == LAST_EPOCH then map[] else credits
  }
}
