/** Bounded-load rendezvous: the best-ranked candidate with room, and whom it displaced. */
module BoundedLoad {
  import opened Core
  import opened SeqSums
  import opened Capacity

  datatype LoadedCandidate<+Id> = LoadedCandidate(id: Id, weight: Weight, load: u64, eligible: bool)

  datatype LoadSample = LoadSample(index: nat, load: u64, weight: Weight)

  /** `f64::total_cmp` is a total order, so a score is only ever compared: any integer stands for it. */
  datatype Rank = Rank(score: int, hash: u64)

  datatype BoundedLoadDecision =
    BoundedLoadDecision(selection: nat, affinity: nat, selectedLoad: u64, selectedCapacity: nat)

  datatype BoundedLoadConfigError = BelowAverage

  /** A factor below 100 percent could leave nobody with room. */
  function NewConfig(factor: u32): (r: Result<u32, BoundedLoadConfigError>)
    ensures r == Ok(factor) <==> factor >= 100
    ensures r == Err(BelowAverage) <==> factor < 100
  {
    if factor < 100 then Err(BelowAverage) else Ok(factor)
  }

  /** Smaller score wins, then larger raw hash; a full tie is no win. */
  predicate Beats(a: Rank, b: Rank) {
    a.score < b.score || (a.score == b.score && a.hash > b.hash)
  }

  function Samples<Id>(cs: seq<LoadedCandidate<Id>>): seq<LoadSample> {
    if cs == [] then [] else
      var last := |cs| - 1;
      Samples(cs[..last]) + if cs[last].eligible then [LoadSample(last, cs[last].load, cs[last].weight)] else []
  }

  lemma SamplesStep<Id>(cs: seq<LoadedCandidate<Id>>)
    requires cs != []
    ensures var last := |cs| - 1;
      Samples(cs) == Samples(cs[..last])
        + if cs[last].eligible then [LoadSample(last, cs[last].load, cs[last].weight)] else []
  {
  }

  lemma {:induction false} SamplesMirrorCandidates<Id>(cs: seq<LoadedCandidate<Id>>)
    ensures forall k :: 0 <= k < |Samples(cs)| ==>
      var e := Samples(cs)[k];
      e.index < |cs| && cs[e.index].eligible && e == LoadSample(e.index, cs[e.index].load, cs[e.index].weight)
    ensures forall j, k :: 0 <= j < k < |Samples(cs)| ==> Samples(cs)[j].index < Samples(cs)[k].index
  {
    if cs == [] {
      NoCandidatesNoSamples<Id>();
    } else {
      SamplesStep(cs);
      hide Samples;
      SamplesMirrorCandidates(cs[..|cs| - 1]);
    }
  }

  lemma {:induction false} EligibleAreSampled<Id>(cs: seq<LoadedCandidate<Id>>, i: nat)
    requires i < |cs| && cs[i].eligible
    ensures LoadSample(i, cs[i].load, cs[i].weight) in Samples(cs)
  {
    hide Samples;
    var last := |cs| - 1;
    SamplesStep(cs);
    if i < last {
      EligibleAreSampled(cs[..last], i);
    }
  }

  function Loads(ss: seq<LoadSample>): (r: seq<nat>)
    ensures |r| == |ss| && forall i :: 0 <= i < |ss| ==> r[i] == ss[i].load
  {
    seq(|ss|, i requires 0 <= i < |ss| => ss[i].load)
  }

  function Weights(ss: seq<LoadSample>): (r: seq<nat>)
    ensures |r| == |ss| && forall i :: 0 <= i < |ss| ==> r[i] == ss[i].weight
  {
    seq(|ss|, i requires 0 <= i < |ss| => ss[i].weight)
  }

  /** The running sums, or whichever of them overflows first. */
  function Totals(ss: seq<LoadSample>): Result<(u64, u64), PickError> {
    if ss == [] then Ok((0, 0)) else
      var last := ss[|ss| - 1];
      match Totals(ss[..|ss| - 1])
      case Err(e) => Err(e)
      case Ok((load, weight)) =>
        if load + last.load >= U64_LIMIT then Err(LoadOverflow)
        else if weight + last.weight >= U64_LIMIT then Err(WeightOverflow)
        else Ok((load + last.load, weight + last.weight))
  }

  lemma TotalsStep(ss: seq<LoadSample>, next: LoadSample)
    ensures Totals(ss + [next]) ==
      match Totals(ss)
      case Err(e) => Err(e)
      case Ok((load, weight)) =>
        if load + next.load >= U64_LIMIT then Err(LoadOverflow)
        else if weight + next.weight >= U64_LIMIT then Err(WeightOverflow)
        else Ok((load + next.load, weight + next.weight))
  {
    assert (ss + [next])[..|ss|] == ss;
  }

  /** Overflow is reported exactly when one of the true sums does not fit 64 bits. */
  lemma {:induction false} TotalsAreSums(ss: seq<LoadSample>)
    ensures Totals(ss).Ok? <==> Total(Loads(ss)) < U64_LIMIT && Total(Weights(ss)) < U64_LIMIT
    ensures Totals(ss).Ok? ==> Totals(ss).value == (Total(Loads(ss)), Total(Weights(ss)))
    ensures Totals(ss) == Err(LoadOverflow) ==> Total(Loads(ss)) >= U64_LIMIT
    ensures Totals(ss) == Err(WeightOverflow) ==> Total(Weights(ss)) >= U64_LIMIT
    ensures Total(Weights(ss)) >= |ss|
  {
    if ss != [] {
      var rest := ss[..|ss| - 1];
      TotalsAreSums(rest);
      assert Loads(ss)[..|ss| - 1] == Loads(rest);
      assert Weights(ss)[..|ss| - 1] == Weights(rest);
    }
  }

  /** Among the first `n` positions, `i` is the first of the best-ranked ones allowed. */
  ghost predicate IsFirstBest(ranks: seq<Rank>, allowed: seq<bool>, n: nat, i: nat)
    requires n <= |ranks| == |allowed|
  {
    && i < n && allowed[i]
    && forall j :: 0 <= j < n && allowed[j] ==>
         !Beats(ranks[j], ranks[i]) && (j < i ==> Beats(ranks[i], ranks[j]))
  }

  lemma FirstBestIsUnique(ranks: seq<Rank>, allowed: seq<bool>, n: nat, i: nat, j: nat)
    requires n <= |ranks| == |allowed| && IsFirstBest(ranks, allowed, n, i) && IsFirstBest(ranks, allowed, n, j)
    ensures i == j
  {
  }

  /** Considering one more allowed position replaces the winner only if it is beaten. */
  lemma NextWinner(ranks: seq<Rank>, allowed: seq<bool>, n: nat, i: nat)
    requires n < |ranks| == |allowed| && IsFirstBest(ranks, allowed, n, i)
    ensures IsFirstBest(ranks, allowed, n + 1, if allowed[n] && Beats(ranks[n], ranks[i]) then n else i)
  {
  }

  ghost function Everyone(n: nat): (r: seq<bool>)
    ensures |r| == n && forall i :: 0 <= i < n ==> r[i]
  {
    seq(n, _ => true)
  }

  /** Who is strictly below capacity for one more request. */
  ghost function Room(ss: seq<LoadSample>, factor: nat): (r: seq<bool>)
    requires Total(Weights(ss)) > 0
    ensures |r| == |ss|
  {
    seq(|ss|, i requires 0 <= i < |ss| => ss[i].load < CapacityAt(ss, factor, i))
  }

  ghost function CapacityAt(ss: seq<LoadSample>, factor: nat, i: nat): nat
    requires Total(Weights(ss)) > 0 && i < |ss|
  {
    CapacityOf(Total(Loads(ss)) + 1, ss[i].weight, Total(Weights(ss)), factor)
  }

  function RankOf<Id>(c: LoadedCandidate<Id>, scoreOf: (u64, Weight) -> int, hashOf: Id -> u64): Rank {
    Rank(scoreOf(hashOf(c.id), c.weight), hashOf(c.id))
  }

  /** The rank of every sampled candidate, in sample order. */
  ghost function Ranks<Id>(cs: seq<LoadedCandidate<Id>>, scoreOf: (u64, Weight) -> int, hashOf: Id -> u64)
    : (r: seq<Rank>)
    ensures |r| == |Samples(cs)|
  {
    SamplesMirrorCandidates(cs);
    seq(|Samples(cs)|, i requires 0 <= i < |Samples(cs)| => RankOf(cs[Samples(cs)[i].index], scoreOf, hashOf))
  }

  /** The affinity owner is best overall; the selection is best among those with room. */
  ghost predicate IsDecision(ss: seq<LoadSample>, ranks: seq<Rank>, factor: nat, d: BoundedLoadDecision)
    requires |ranks| == |ss| && Total(Weights(ss)) > 0
  {
    exists a: nat, s: nat ::
      && IsFirstBest(ranks, Everyone(|ss|), |ss|, a)
      && IsFirstBest(ranks, Room(ss, factor), |ss|, s)
      && d == BoundedLoadDecision(ss[s].index, ss[a].index, ss[s].load, CapacityAt(ss, factor, s))
  }

  /** Traffic leaves the affinity owner exactly when that owner has no room. */
  lemma SpillsIffOwnerFull(ss: seq<LoadSample>, ranks: seq<Rank>, factor: nat,
                           d: BoundedLoadDecision, a: nat)
    requires |ranks| == |ss| && Total(Weights(ss)) > 0
    requires forall j, k :: 0 <= j < k < |ss| ==> ss[j].index < ss[k].index
    requires IsDecision(ss, ranks, factor, d) && IsFirstBest(ranks, Everyone(|ss|), |ss|, a)
    ensures d.affinity == ss[a].index
    ensures d.selection != d.affinity <==> ss[a].load >= CapacityAt(ss, factor, a)
    ensures d.selectedLoad < d.selectedCapacity
  {
    var a': nat, s: nat :|
      && IsFirstBest(ranks, Everyone(|ss|), |ss|, a') && IsFirstBest(ranks, Room(ss, factor), |ss|, s)
      && d == BoundedLoadDecision(ss[s].index, ss[a'].index, ss[s].load, CapacityAt(ss, factor, s));
    FirstBestIsUnique(ranks, Everyone(|ss|), |ss|, a, a');
    if Room(ss, factor)[a] {
      assert IsFirstBest(ranks, Room(ss, factor), |ss|, a);
      FirstBestIsUnique(ranks, Room(ss, factor), |ss|, a, s);
    }
  }

  // ----- the decision in the candidates' own terms

  /** Candidate `i` is preferred to candidate `j`: lower score, then larger hash, then earlier in the slice. */
  predicate Preferred<Id>(
      cs: seq<LoadedCandidate<Id>>, scoreOf: (u64, Weight) -> int, hashOf: Id -> u64, i: nat, j: nat)
    requires i < |cs| && j < |cs|
  {
    var x, y := hashOf(cs[i].id), hashOf(cs[j].id);
    var s, t := scoreOf(x, cs[i].weight), scoreOf(y, cs[j].weight);
    s < t || (s == t && (x > y || (x == y && i < j)))
  }

  function EligibleLoad<Id>(): LoadedCandidate<Id> -> nat {
    (c: LoadedCandidate<Id>) => if c.eligible then c.load else 0
  }

  function EligibleWeight<Id>(): LoadedCandidate<Id> -> nat {
    (c: LoadedCandidate<Id>) => if c.eligible then c.weight else 0
  }

  /** One more request would leave `i` within its weighted share of all of them, scaled by the factor. */
  predicate HasRoom<Id>(cs: seq<LoadedCandidate<Id>>, factor: nat, i: nat)
    requires i < |cs|
  {
    cs[i].load * (SumBy(cs, EligibleWeight()) * 100) < (SumBy(cs, EligibleLoad()) + 1) * cs[i].weight * factor
  }

  /** The best eligible candidate and the best with room, by score, hash and position; and what the winner may carry. */
  ghost predicate IsBoundedChoice<Id>(cs: seq<LoadedCandidate<Id>>, scoreOf: (u64, Weight) -> int, hashOf: Id -> u64,
                                      factor: nat, d: BoundedLoadDecision)
  {
    && d.affinity < |cs| && cs[d.affinity].eligible
    && (forall j :: 0 <= j < |cs| && cs[j].eligible && j != d.affinity ==>
          Preferred(cs, scoreOf, hashOf, d.affinity, j))
    && d.selection < |cs| && cs[d.selection].eligible && HasRoom(cs, factor, d.selection)
    && (forall j :: 0 <= j < |cs| && cs[j].eligible && HasRoom(cs, factor, j) && j != d.selection ==>
          Preferred(cs, scoreOf, hashOf, d.selection, j))
    && d.selectedLoad == cs[d.selection].load
    && (forall c: nat :: d.selectedCapacity <= c <==>
          (SumBy(cs, EligibleLoad()) + 1) * cs[d.selection].weight * factor
            <= SumBy(cs, EligibleWeight()) * 100 * c)
  }

  lemma {:induction false} SampledTotals<Id>(cs: seq<LoadedCandidate<Id>>)
    ensures Total(Loads(Samples(cs))) == SumBy(cs, EligibleLoad())
    ensures Total(Weights(Samples(cs))) == SumBy(cs, EligibleWeight())
  {
    if cs != [] {
      var last := |cs| - 1;
      SampledTotals(cs[..last]);
      SamplesStep(cs);
      if cs[last].eligible {
        TotalOfAppended(Samples(cs[..last]), LoadSample(last, cs[last].load, cs[last].weight));
      } else {
        assert Samples(cs) == Samples(cs[..last]);
      }
    }
  }

  lemma TotalOfAppended(ss: seq<LoadSample>, next: LoadSample)
    ensures Total(Loads(ss + [next])) == Total(Loads(ss)) + next.load
    ensures Total(Weights(ss + [next])) == Total(Weights(ss)) + next.weight
  {
    assert Loads(ss + [next])[..|ss|] == Loads(ss);
    assert Weights(ss + [next])[..|ss|] == Weights(ss);
  }

  lemma RoomIsShare<Id>(cs: seq<LoadedCandidate<Id>>, factor: nat, k: nat)
    requires Total(Weights(Samples(cs))) > 0 && k < |Samples(cs)|
    ensures var s := Samples(cs)[k];
      && s.index < |cs| && cs[s.index].eligible
      && s.load == cs[s.index].load && s.weight == cs[s.index].weight
      && (Room(Samples(cs), factor)[k] <==> HasRoom(cs, factor, s.index))
      && (forall c: nat :: CapacityAt(Samples(cs), factor, k) <= c <==>
            (SumBy(cs, EligibleLoad()) + 1) * s.weight * factor <= SumBy(cs, EligibleWeight()) * 100 * c)
  {
    hide Samples, SumBy, Total, CeilDiv;
    SamplesMirrorCandidates(cs);
    SampledTotals(cs);
    var ss := Samples(cs);
    var n, d := (Total(Loads(ss)) + 1) * ss[k].weight * factor, Total(Weights(ss)) * 100;
    forall c: nat
      ensures CapacityAt(ss, factor, k) <= c <==> n <= d * c
    {
      CeilDivLeast(n, d, c);
    }
    assert d * ss[k].load == ss[k].load * d;
  }

  lemma BestIsPreferred<Id>(cs: seq<LoadedCandidate<Id>>, scoreOf: (u64, Weight) -> int, hashOf: Id -> u64,
                            allowed: seq<bool>, a: nat, b: nat)
    requires |allowed| == |Samples(cs)| && IsFirstBest(Ranks(cs, scoreOf, hashOf), allowed, |allowed|, a)
    requires b < |allowed| && allowed[b] && b != a
    ensures Samples(cs)[a].index < |cs| && Samples(cs)[b].index < |cs|
    ensures Preferred(cs, scoreOf, hashOf, Samples(cs)[a].index, Samples(cs)[b].index)
  {
    hide Samples;
    SamplesMirrorCandidates(cs);
  }

  lemma SampledAt<Id>(cs: seq<LoadedCandidate<Id>>, j: nat) returns (k: nat)
    requires j < |cs| && cs[j].eligible
    ensures k < |Samples(cs)| && Samples(cs)[k].index == j
  {
    hide Samples;
    EligibleAreSampled(cs, j);
    k :| 0 <= k < |Samples(cs)| && Samples(cs)[k] == LoadSample(j, cs[j].load, cs[j].weight);
  }

  /** A decision over the samples is the bounded choice among the candidates themselves. */
  lemma DecisionIsBoundedChoice<Id>(cs: seq<LoadedCandidate<Id>>, scoreOf: (u64, Weight) -> int, hashOf: Id -> u64,
                                    factor: nat, d: BoundedLoadDecision)
    requires Total(Weights(Samples(cs))) > 0 && IsDecision(Samples(cs), Ranks(cs, scoreOf, hashOf), factor, d)
    ensures IsBoundedChoice(cs, scoreOf, hashOf, factor, d)
  {
    hide Samples, SumBy, Total, CapacityAt, Room, HasRoom, Preferred, Ranks;
    var ss, ranks := Samples(cs), Ranks(cs, scoreOf, hashOf);
    var a: nat, s: nat :|
      && IsFirstBest(ranks, Everyone(|ss|), |ss|, a) && IsFirstBest(ranks, Room(ss, factor), |ss|, s)
      && d == BoundedLoadDecision(ss[s].index, ss[a].index, ss[s].load, CapacityAt(ss, factor, s));
    RoomIsShare(cs, factor, a);
    RoomIsShare(cs, factor, s);
    forall j | 0 <= j < |cs| && cs[j].eligible
      ensures j != d.affinity ==> Preferred(cs, scoreOf, hashOf, d.affinity, j)
      ensures j != d.selection && HasRoom(cs, factor, j) ==> Preferred(cs, scoreOf, hashOf, d.selection, j)
    {
      var k := SampledAt(cs, j);
      RoomIsShare(cs, factor, k);
      if k != a {
        BestIsPreferred(cs, scoreOf, hashOf, Everyone(|ss|), a, k);
      }
      if k != s && HasRoom(cs, factor, j) {
        BestIsPreferred(cs, scoreOf, hashOf, Room(ss, factor), s, k);
      }
    }
  }

  /** Which outcome `Decide` reports, in the order the checks are made. */
  ghost predicate ReportsOverflow(ss: seq<LoadSample>, e: PickError) {
    || Totals(ss) == Err(e)
    || (Totals(ss).Ok? && Totals(ss).value.0 + 1 >= U64_LIMIT && e == LoadOverflow)
  }

  /** A running winner: position, rank, capacity. */
  type Best = Option<(nat, Rank, nat)>

  ghost predicate BestSoFar(ss: seq<LoadSample>, ranks: seq<Rank>, allowed: seq<bool>, factor: nat, n: nat, best: Best)
    requires n <= |ss| == |ranks| == |allowed| && Total(Weights(ss)) > 0
  {
    if best.None? then forall j :: 0 <= j < n ==> !allowed[j] else
      && IsFirstBest(ranks, allowed, n, best.value.0) && best.value.1 == ranks[best.value.0]
      && best.value.2 == CapacityAt(ss, factor, best.value.0)
  }

  function Consider(best: Best, allowed: bool, i: nat, rank: Rank, capacity: nat): Best {
    if allowed && (best.None? || Beats(rank, best.value.1)) then Some((i, rank, capacity)) else best
  }

  lemma ConsiderKeepsBest(ss: seq<LoadSample>, ranks: seq<Rank>, allowed: seq<bool>, factor: nat,
                          n: nat, best: Best)
    requires n < |ss| == |ranks| == |allowed| && Total(Weights(ss)) > 0
    requires BestSoFar(ss, ranks, allowed, factor, n, best)
    ensures BestSoFar(ss, ranks, allowed, factor, n + 1,
                      Consider(best, allowed[n], n, ranks[n], CapacityAt(ss, factor, n)))
  {
    if best.Some? {
      NextWinner(ranks, allowed, n, best.value.0);
    }
  }

  lemma BothWinnersExist(
      ss: seq<LoadSample>, ranks: seq<Rank>, factor: nat, affinity: Best, selected: Best)
    requires ss != [] && |ranks| == |ss| && Total(Weights(ss)) > 0 && factor >= 100
    requires BestSoFar(ss, ranks, Everyone(|ss|), factor, |ss|, affinity)
    requires BestSoFar(ss, ranks, Room(ss, factor), factor, |ss|, selected)
    ensures affinity.Some? && selected.Some? && affinity.value.0 < |ss| && selected.value.0 < |ss|
    ensures IsDecision(ss, ranks, factor, BoundedLoadDecision(
      ss[selected.value.0].index, ss[affinity.value.0].index, ss[selected.value.0].load, selected.value.2))
  {
    SomeoneHasRoom(Loads(ss), Weights(ss), factor);
    var i :| 0 <= i < |ss|
      && Loads(ss)[i] < CapacityOf(Total(Loads(ss)) + 1, Weights(ss)[i], Total(Weights(ss)), factor);
    assert Room(ss, factor)[i] && Everyone(|ss|)[0];
  }

  class BoundedLoadRendezvous<Id> {
    const factor: u32
    /** The scaled exponential draw, smaller being preferred. */
    const scoreOf: (u64, Weight) -> int
    var samples: seq<LoadSample>

    ghost predicate Valid()
      reads this
    {
      factor >= 100
    }

    constructor (factor: u32, scoreOf: (u64, Weight) -> int)
      requires NewConfig(factor).Ok?
      ensures Valid() && this.factor == factor && this.scoreOf == scoreOf && samples == []
    {
      this.factor, this.scoreOf, samples := factor, scoreOf, [];
    }

    /** Sample every eligible candidate once, accumulating both totals. */
    method Sample(cs: seq<LoadedCandidate<Id>>) returns (r: Result<(u64, u64), PickError>)
      modifies this
      ensures r == Totals(Samples(cs))
      ensures r.Ok? ==> samples == Samples(cs)
    {
      hide Totals;
      samples := [];
      var totalLoad: u64, totalWeight: u64 := 0, 0;
      var i := 0;
      NothingSampled();
      while i < |cs|
        invariant 0 <= i <= |cs| && samples == Samples(cs[..i])
        invariant Totals(samples) == Ok((totalLoad, totalWeight))
      {
        assert cs[..i + 1][..i] == cs[..i];
        if cs[i].eligible {
          var sample := LoadSample(i, cs[i].load, cs[i].weight);
          TotalsStep(samples, sample);
          EarlyErrorStays(cs, i + 1);
          if totalLoad + cs[i].load >= U64_LIMIT {
            return Err(LoadOverflow);
          }
          totalLoad := totalLoad + cs[i].load;
          if totalWeight + cs[i].weight >= U64_LIMIT {
            return Err(WeightOverflow);
          }
          totalWeight := totalWeight + cs[i].weight;
          samples := samples + [sample];
        }
        i := i + 1;
      }
      assert cs[..i] == cs;
      return Ok((totalLoad, totalWeight));
    }

    /** One pass over the samples keeps the best overall and the best with room. */
    method Choose(cs: seq<LoadedCandidate<Id>>, hashOf: Id -> u64, totalLoad: u64, totalWeight: u64)
      returns (affinity: Best, selected: Best)
      requires samples == Samples(cs) && factor >= 100 && totalLoad + 1 < U64_LIMIT
      requires totalLoad == Total(Loads(samples)) && totalWeight == Total(Weights(samples)) > 0
      ensures BestSoFar(samples, Ranks(cs, scoreOf, hashOf), Everyone(|samples|), factor, |samples|, affinity)
      ensures BestSoFar(samples, Ranks(cs, scoreOf, hashOf), Room(samples, factor), factor, |samples|, selected)
    {
      hide BestSoFar, Total, Samples;
      SamplesMirrorCandidates(cs);
      var prospectiveLoad: u64 := totalLoad + 1;
      ghost var ranks, everyone, room := Ranks(cs, scoreOf, hashOf), Everyone(|samples|), Room(samples, factor);
      affinity, selected := None, None;
      NobodyConsidered(samples, ranks, everyone, factor);
      NobodyConsidered(samples, ranks, room, factor);
      var i := 0;
      while i < |samples|
        invariant 0 <= i <= |samples|
        invariant BestSoFar(samples, ranks, everyone, factor, i, affinity)
        invariant BestSoFar(samples, ranks, room, factor, i, selected)
      {
        var sample := samples[i];
        var rank := RankOf(cs[sample.index], scoreOf, hashOf);
        CapacityNeverOverflows(prospectiveLoad, sample.weight, totalWeight, factor);
        var capacity := CapacityFor(prospectiveLoad, sample.weight, totalWeight, factor).value;
        ConsiderKeepsBest(samples, ranks, everyone, factor, i, affinity);
        ConsiderKeepsBest(samples, ranks, room, factor, i, selected);
        affinity := Consider(affinity, true, i, rank, capacity);
        selected := Consider(selected, sample.load < capacity, i, rank, capacity);
        i := i + 1;
      }
    }

    /** Every outcome; the fallback error for "nobody has room" cannot occur. */
    method Decide(cs: seq<LoadedCandidate<Id>>, hashOf: Id -> u64) returns (r: Result<BoundedLoadDecision, PickError>)
      requires Valid()
      modifies this
      ensures Valid()
      ensures cs == [] ==> r == Err(Empty) && unchanged(this)
      ensures cs != [] && Samples(cs) == [] ==> r == Err(NoEligibleCandidates) && unchanged(this)
      ensures Samples(cs) != [] && r.Err? ==> ReportsOverflow(Samples(cs), r.error)
      ensures Samples(cs) != [] && r.Ok? ==>
        && samples == Samples(cs)
        && Totals(samples).Ok? && Totals(samples).value.0 + 1 < U64_LIMIT
        && Total(Weights(samples)) > 0
        && IsDecision(samples, Ranks(cs, scoreOf, hashOf), factor, r.value)
      ensures r.Ok? ==> IsBoundedChoice(cs, scoreOf, hashOf, factor, r.value)
    {
      hide Samples, Totals, Total, BestSoFar, IsDecision, IsBoundedChoice;
      if cs == [] {
        NoCandidatesNoSamples<Id>();
        return Err(Empty);
      }
      if |Samples(cs)| == 0 {
        return Err(NoEligibleCandidates);
      }
      var totals := Sample(cs);
      if totals.Err? {
        return Err(totals.error);
      }
      var (totalLoad, totalWeight) := totals.value;
      if totalLoad + 1 >= U64_LIMIT {
        return Err(LoadOverflow);
      }
      TotalsAreSums(samples);
      var affinity, selected := Choose(cs, hashOf, totalLoad, totalWeight);
      BothWinnersExist(samples, Ranks(cs, scoreOf, hashOf), factor, affinity, selected);
      var (s, _, capacity) := selected.value;
      var decision :=
        BoundedLoadDecision(samples[s].index, samples[affinity.value.0].index, samples[s].load, capacity);
      DecisionIsBoundedChoice(cs, scoreOf, hashOf, factor, decision);
      return Ok(decision);
    }
  }

  lemma NoCandidatesNoSamples<Id>()
    ensures Samples<Id>([]) == []
  {
  }

  lemma NothingSampled()
    ensures Totals([]) == Ok((0, 0))
  {
  }

  lemma NobodyConsidered(ss: seq<LoadSample>, ranks: seq<Rank>, allowed: seq<bool>, factor: nat)
    requires |ss| == |ranks| == |allowed| && Total(Weights(ss)) > 0
    ensures BestSoFar(ss, ranks, allowed, factor, 0, None)
  {
  }

  /** Once a running sum overflows, later candidates do not change the report. */
  lemma {:induction false} EarlyErrorStays<Id>(cs: seq<LoadedCandidate<Id>>, i: nat)
    requires i <= |cs|
    ensures Totals(Samples(cs[..i])).Err? ==> Totals(Samples(cs)) == Totals(Samples(cs[..i]))
    decreases |cs|
  {
    if i < |cs| {
      var last := |cs| - 1;
      var rest := cs[..last];
      assert rest[..i] == cs[..i];
      EarlyErrorStays(rest, i);
      if cs[last].eligible {
        TotalsStep(Samples(rest), LoadSample(last, cs[last].load, cs[last].weight));
      } else {
        assert Samples(cs) == Samples(rest);
      }
    } else {
      assert cs[..i] == cs;
    }
  }
}
