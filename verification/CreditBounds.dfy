/** The 128-bit accumulator of smooth weighted round robin, over any calls whatever. */
module CreditBounds {
  import opened Arith
  import opened Core
  import opened Listings
  import opened Sums
  import opened SmoothWeightedRoundRobin
  import FairShare

  /** One past the greatest value of a signed 128-bit word. */
  const HALF: int := U64_LIMIT * (U64_LIMIT / 2)

  datatype Books<Key> = Books(credits: map<Key, int>, epoch: u64)

  /** What a call leaves behind: errors forget everything, a pick settles its slice. */
  ghost function Next<Key>(b: Books<Key>, cs: seq<Candidate<Key>>): Books<Key> {
    if cs == [] then Books(map[], b.epoch)
    else if !UniqueEligible(cs) then Books(map[], 0)
    else if !AnyEligible(cs) then Books(map[], NextEpoch(b.epoch))
    else Books(Step(Carried(b.epoch, b.credits), cs).0, NextEpoch(b.epoch))
  }

  /** The books after each of any calls, from fresh state: members may come, go and change weight. */
  ghost predicate IsHistory<Key>(books: seq<Books<Key>>, calls: seq<seq<Candidate<Key>>>) {
    && |books| == |calls| + 1 && books[0] == Books(map[], 0)
    && forall t :: 0 <= t < |calls| ==> books[t + 1] == Next(books[t], calls[t])
  }

  /** The policy keeps these books. */
  method CallAll<Key(==)>(policy: SmoothWeightedRoundRobin<Key>, calls: seq<seq<Candidate<Key>>>)
    returns (ghost books: seq<Books<Key>>)
    requires policy.Valid() && policy.states == map[] && policy.epoch == 0
    modifies policy
    ensures policy.Valid() && IsHistory(books, calls)
    ensures books[|calls|] == Books(policy.Credits(), policy.epoch)
  {
    hide Step, UniqueEligible, AnyEligible;
    books := [Books(map[], 0)];
    assert policy.Credits() == map[];
    for t := 0 to |calls|
      invariant policy.Valid() && IsHistory(books, calls[..t])
      invariant books[t] == Books(policy.Credits(), policy.epoch)
    {
      assert calls[..t + 1][..t] == calls[..t];
      var r := policy.Pick(calls[t]);
      books := books + [Books(policy.Credits(), policy.epoch)];
    }
    assert calls[..|calls|] == calls;
  }

  // ----- one call

  function TotalWeight<Key>(cs: seq<Candidate<Key>>): nat {
    if cs == [] then 0 else
      var last := |cs| - 1;
      TotalWeight(cs[..last]) + if cs[last].eligible then cs[last].weight else 0
  }

  lemma {:induction false} TotalOfWeights<Key>(cs: seq<Candidate<Key>>, i: nat)
    requires i <= |cs| && UniqueEligible(cs[..i])
    ensures 0 <= Sum(Weights(cs[..i])) <= TotalWeight(cs)
    ensures i == |cs| ==> Sum(Weights(cs[..i])) == TotalWeight(cs)
    decreases |cs|, i
  {
    if i < |cs| {
      assert cs[..|cs| - 1][..i] == cs[..i];
      TotalOfWeights(cs[..|cs| - 1], i);
    } else if cs != [] {
      var n := |cs| - 1;
      assert cs[..i] == cs && cs[..n][..n] == cs[..n];
      TotalOfWeights(cs[..n], n);
      if cs[n].eligible {
        NewIdentity(cs);
        VisitExtendsWeights(cs, n);
      }
    }
  }

  /** No credit is further from zero than one slice total per pick since the epoch last began. */
  ghost predicate Within<Key>(credits: map<Key, int>, picks: nat, most: nat) {
    forall k :: k in credits ==> -(picks * most) <= credits[k] <= picks * most
  }

  lemma OneMoreTotal(picks: nat, most: nat)
    ensures (picks + 1) * most == picks * most + most
  {
  }

  lemma PartAtMostSum<Key>(m: map<Key, int>, k: Key)
    requires k in m && forall j :: j in m ==> m[j] >= 0
    ensures m[k] <= Sum(m)
  {
    hide Sum;
    SumRemove(m, k);
    SumAtLeast(m - {k}, 0);
  }

  /** While the candidates are visited, every entry and the running total stay within one more slice total. */
  lemma LoopStaysWithin<Key>(base: map<Key, int>, cs: seq<Candidate<Key>>, i: nat, epoch: u64, states: map<Key, State>,
                             total: int, winner: Option<(nat, int)>, picks: nat, most: nat)
    requires i <= |cs| && LoopState(base, cs, i, epoch, states, total, winner)
    requires Within(base, picks, most) && TotalWeight(cs) <= most
    ensures 0 <= total <= most
    ensures forall k :: k in states ==> -((picks + 1) * most) <= states[k].current <= (picks + 1) * most
  {
    hide Sum, Weights, Leads, TotalWeight;
    TotalOfWeights(cs, i);
    WeightsKeys(cs[..i]);
    OneMoreTotal(picks, most);
    forall k | k in Weights(cs[..i])
      ensures 0 <= Weights(cs[..i])[k] <= most
    {
      PartAtMostSum(Weights(cs[..i]), k);
    }
  }

  /** A pick moves no credit by more than the total of its slice. */
  lemma PickStaysWithin<Key>(base: map<Key, int>, cs: seq<Candidate<Key>>, picks: nat, most: nat)
    requires UniqueEligible(cs) && AnyEligible(cs) && Within(base, picks, most) && TotalWeight(cs) <= most
    ensures Within(Step(base, cs).0, picks + 1, most)
  {
    hide Sum, Weights, Step, UniqueEligible, AnyEligible, TotalWeight;
    assert cs[..|cs|] == cs;
    TotalOfWeights(cs, |cs|);
    WeightsKeys(cs);
    OneMoreTotal(picks, most);
    FairShare.StepPaysTotal(base, cs, Weights(cs));
    forall k | k in Weights(cs)
      ensures 0 <= Weights(cs)[k] <= Sum(Weights(cs)) <= most
    {
      PartAtMostSum(Weights(cs), k);
    }
  }

  // ----- any calls

  /** Picks since the epoch last began that what a call carries over can reflect. */
  function CarriedPicks(epoch: u64): nat {
    NextEpoch(epoch) - 1
  }

  lemma CarriedStaysWithin<Key>(b: Books<Key>, most: nat)
    requires Within(b.credits, b.epoch, most)
    ensures Within(Carried(b.epoch, b.credits), CarriedPicks(b.epoch), most)
  {
  }

  lemma {:induction false} BooksStayWithin<Key>(
      books: seq<Books<Key>>, calls: seq<seq<Candidate<Key>>>, most: nat, t: nat)
    requires IsHistory(books, calls) && t <= |calls| && forall u :: 0 <= u < |calls| ==> TotalWeight(calls[u]) <= most
    ensures Within(books[t].credits, books[t].epoch, most)
    decreases t
  {
    hide Step, UniqueEligible, AnyEligible, TotalWeight;
    if t > 0 {
      var b, cs := books[t - 1], calls[t - 1];
      BooksStayWithin(books, calls, most, t - 1);
      CarriedStaysWithin(b, most);
      if UniqueEligible(cs) && AnyEligible(cs) {
        PickStaysWithin(Carried(b.epoch, b.credits), cs, CarriedPicks(b.epoch), most);
      }
      assert books[t] == Next(b, cs);
    }
  }

  lemma EpochsFit(picks: nat, most: nat)
    requires picks < U64_LIMIT && most < U64_LIMIT / 2
    ensures picks * most < HALF && most < HALF
  {
    MulMonotone(picks, most, U64_LIMIT, U64_LIMIT / 2 - 1);
  }

  /**
   * As long as no slice's eligible weights reach 2^63 in total, nothing the policy computes leaves a signed
   * 128-bit word, whatever the slices are and however many: not a stored credit, and not a score or a running
   * total on the way to the next pick.
   */
  lemma AnyCallsFit<Key>(books: seq<Books<Key>>, calls: seq<seq<Candidate<Key>>>, most: nat, t: nat, i: nat,
                         epoch: u64, states: map<Key, State>, total: int, winner: Option<(nat, int)>)
    requires IsHistory(books, calls) && t < |calls| && i <= |calls[t]|
    requires most < U64_LIMIT / 2 && forall u :: 0 <= u < |calls| ==> TotalWeight(calls[u]) <= most
    requires LoopState(Carried(books[t].epoch, books[t].credits), calls[t], i, epoch, states, total, winner)
    ensures forall k :: k in books[t].credits ==> -HALF < books[t].credits[k] < HALF
    ensures 0 <= total < HALF && forall k :: k in states ==> -HALF < states[k].current < HALF
  {
    var b := books[t];
    hide IsHistory, LoopState, TotalWeight;
    BooksStayWithin(books, calls, most, t);
    CarriedStaysWithin(b, most);
    EpochsFit(b.epoch, most);
    EpochsFit(CarriedPicks(b.epoch) + 1, most);
    var base := Carried(b.epoch, b.credits);
    LoopStaysWithin(base, calls[t], i, epoch, states, total, winner, CarriedPicks(b.epoch), most);
  }
}
