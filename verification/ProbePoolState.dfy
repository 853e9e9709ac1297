/** The bounded, self-expiring pool of replica observations. */
module ProbePoolState {
  import opened Core

  datatype ProbeReading = ProbeReading(requestsInFlight: u64, latency: nat)

  datatype ProbeEntry<+Id> = ProbeEntry(id: Id, reading: ProbeReading, recordedAt: nat, remainingUses: u32)

  datatype ProbeDecisionError = NoProbes | NoSelection | IndexOutOfBounds

  datatype ProbeDecision<+Id> = ProbeDecision(selection: nat, entry: ProbeEntry<Id>)

  datatype Offer = Offer(candidate: nat, entry: nat)

  /** Age saturates at zero, so an observation from the caller's future is never expired. */
  predicate Unexpired<Id>(e: ProbeEntry<Id>, now: nat, maxAge: nat) {
    (if now < e.recordedAt then 0 else now - e.recordedAt) < maxAge
  }

  /** The observations still usable at `now`, in order. */
  function Live<Id>(es: seq<ProbeEntry<Id>>, now: nat, maxAge: nat): (r: seq<ProbeEntry<Id>>)
    ensures |r| <= |es|
    ensures forall k :: 0 <= k < |r| ==> r[k] in es && Unexpired(r[k], now, maxAge)
    ensures forall k :: 0 <= k < |es| && Unexpired(es[k], now, maxAge) ==> es[k] in r
  {
    if es == [] then [] else
      var last := |es| - 1;
      assert es == es[..last] + [es[last]];
      var r := Live(es[..last], now, maxAge);
      if Unexpired(es[last], now, maxAge) then r + [es[last]] else r
  }

  /**
   * An observation is retained exactly while it is younger than `maxAge`; one recorded later than the caller's
   * clock says counts as new.
   */
  lemma RetainedIff<Id>(es: seq<ProbeEntry<Id>>, now: nat, maxAge: nat, k: nat)
    requires k < |es| && maxAge > 0
    ensures es[k] in Live(es, now, maxAge) <==> now < es[k].recordedAt + maxAge
  {
  }

  function Without<T>(s: seq<T>, i: nat): seq<T>
    requires i < |s|
  {
    s[..i] + s[i + 1..]
  }

  /** Position `i` is the first of the least recorded instants. */
  predicate IsOldest<Id>(es: seq<ProbeEntry<Id>>, i: nat) {
    && i < |es|
    && (forall k :: 0 <= k < |es| ==> es[i].recordedAt <= es[k].recordedAt)
    && (forall k :: 0 <= k < i ==> es[i].recordedAt < es[k].recordedAt)
  }

  /** `after` is what recording `e` makes of `before`. */
  ghost predicate Records<Id>(
      before: seq<ProbeEntry<Id>>, after: seq<ProbeEntry<Id>>, e: ProbeEntry<Id>, capacity: nat, maxAge: nat)
  {
    var live := Live(before, e.recordedAt, maxAge);
    if |live| < capacity then after == live + [e]
    else exists i: nat ::
      && IsOldest(live, i)
      && after == if live[i].recordedAt > e.recordedAt then live else Without(live, i) + [e]
  }

  /** One more decision is charged to position `i`; a spent observation is discarded. */
  function Charged<Id>(es: seq<ProbeEntry<Id>>, i: nat): seq<ProbeEntry<Id>>
    requires i < |es| && es[i].remainingUses > 0
  {
    if es[i].remainingUses == 1 then Without(es, i) else es[i := Spent(es[i])]
  }

  function Spent<Id>(e: ProbeEntry<Id>): ProbeEntry<Id>
    requires e.remainingUses > 0
  {
    e.(remainingUses := e.remainingUses - 1)
  }

  /**
   * `serials[k]` numbers the observation retained at `k`, and `uses[s]` counts the decisions that
   * observation `s` has informed.
   */
  ghost predicate Ledger<Id>(es: seq<ProbeEntry<Id>>, serials: seq<nat>, uses: seq<nat>, maxUses: nat) {
    && |serials| == |es|
    && (forall j, k :: 0 <= j < k < |serials| ==> serials[j] < serials[k])
    && (forall k :: 0 <= k < |es| ==> serials[k] < |uses| && Accounted(es[k], uses[serials[k]], maxUses))
    && (forall s :: 0 <= s < |uses| ==> uses[s] <= maxUses)
  }

  predicate Accounted<Id>(e: ProbeEntry<Id>, used: nat, maxUses: nat) {
    e.remainingUses > 0 && used + e.remainingUses == maxUses
  }

  lemma LedgerWithout<Id>(
      es: seq<ProbeEntry<Id>>, serials: seq<nat>, uses: seq<nat>, maxUses: nat, i: nat)
    requires Ledger(es, serials, uses, maxUses) && i < |es|
    ensures |serials| == |es| && Ledger(Without(es, i), Without(serials, i), uses, maxUses)
  {
  }

  lemma LedgerRecords<Id>(
      es: seq<ProbeEntry<Id>>, serials: seq<nat>, uses: seq<nat>, maxUses: nat, e: ProbeEntry<Id>)
    requires Ledger(es, serials, uses, maxUses) && e.remainingUses == maxUses > 0
    ensures Ledger(es + [e], serials + [|uses|], uses + [0], maxUses)
  {
  }

  lemma LedgerExtends<Id>(
      es: seq<ProbeEntry<Id>>, serials: seq<nat>, uses: seq<nat>, maxUses: nat, e: ProbeEntry<Id>, s: nat)
    requires Ledger(es, serials, uses, maxUses) && s < |uses| && Accounted(e, uses[s], maxUses)
    requires forall k :: 0 <= k < |serials| ==> serials[k] < s
    ensures Ledger(es + [e], serials + [s], uses, maxUses)
  {
  }

  lemma LedgerAt<Id>(
      es: seq<ProbeEntry<Id>>, serials: seq<nat>, uses: seq<nat>, maxUses: nat, i: nat)
    requires Ledger(es, serials, uses, maxUses) && i < |es|
    ensures |serials| == |es| && serials[i] < |uses| && Accounted(es[i], uses[serials[i]], maxUses)
    ensures i + 1 < |es| ==> serials[i] < serials[i + 1]
  {
  }

  lemma LedgerSpends<Id>(
      es: seq<ProbeEntry<Id>>, serials: seq<nat>, uses: seq<nat>, maxUses: nat, s: nat)
    requires Ledger(es, serials, uses, maxUses) && s < |uses| && uses[s] < maxUses && s !in serials
    ensures Ledger(es, serials, uses[s := uses[s] + 1], maxUses)
  {
  }

  lemma LedgerKeeps<Id>(
      es: seq<ProbeEntry<Id>>, serials: seq<nat>, uses: seq<nat>, maxUses: nat, i: nat)
    requires Ledger(es, serials, uses, maxUses) && i < |es| && es[i].remainingUses > 1
    ensures Ledger(es[i := Spent(es[i])], serials, uses[serials[i] := uses[serials[i]] + 1], maxUses)
  {
    var s := serials[i];
    var charged, after := uses[s := uses[s] + 1], es[i := Spent(es[i])];
    forall k | 0 <= k < |after|
      ensures Accounted(after[k], charged[serials[k]], maxUses)
    {
      assert k < i ==> serials[k] < s;
      assert i < k ==> s < serials[k];
    }
  }

  lemma LedgerCharges<Id>(
      es: seq<ProbeEntry<Id>>, serials: seq<nat>, uses: seq<nat>, maxUses: nat, i: nat)
    requires Ledger(es, serials, uses, maxUses) && i < |es|
    ensures |serials| == |es| && es[i].remainingUses > 0 && serials[i] < |uses|
    ensures |Charged(es, i)| <= |es|
    ensures var s := serials[i];
      Ledger(Charged(es, i), ChargedSerials(es, serials, i), uses[s := uses[s] + 1], maxUses)
    ensures uses[serials[i]] + es[i].remainingUses == maxUses
    ensures forall s :: 0 <= s < |uses| ==> uses[s] <= maxUses
  {
    LedgerAt(es, serials, uses, maxUses, i);
    if es[i].remainingUses == 1 {
      LedgerWithout(es, serials, uses, maxUses, i);
      SerialLeaves(es, serials, uses, maxUses, i);
      hide Ledger;
      LedgerSpends(Without(es, i), Without(serials, i), uses, maxUses, serials[i]);
    } else {
      hide Ledger;
      LedgerKeeps(es, serials, uses, maxUses, i);
    }
  }

  lemma SerialLeaves<Id>(
      es: seq<ProbeEntry<Id>>, serials: seq<nat>, uses: seq<nat>, maxUses: nat, i: nat)
    requires Ledger(es, serials, uses, maxUses) && i < |es|
    ensures serials[i] !in Without(serials, i)
  {
    var t := Without(serials, i);
    forall k | 0 <= k < |t|
      ensures t[k] != serials[i]
    {
      assert t[k] == serials[if k < i then k else k + 1];
    }
  }

  lemma LedgerEmpty<Id>(es: seq<ProbeEntry<Id>>, serials: seq<nat>, uses: seq<nat>, maxUses: nat)
    requires Ledger(es, serials, uses, maxUses)
    ensures |serials| == |es| && Ledger<Id>([], [], uses, maxUses)
  {
  }

  /** The serials of the observations still usable, in the same order. */
  ghost function LiveSerials<Id>(es: seq<ProbeEntry<Id>>, serials: seq<nat>, now: nat, maxAge: nat): (r: seq<nat>)
    requires |serials| == |es|
    ensures |r| == |Live(es, now, maxAge)|
  {
    if es == [] then [] else
      var last := |es| - 1;
      LiveSerials(es[..last], serials[..last], now, maxAge)
        + if Unexpired(es[last], now, maxAge) then [serials[last]] else []
  }

  /** A spent observation takes its serial with it. */
  ghost function ChargedSerials<Id>(es: seq<ProbeEntry<Id>>, serials: seq<nat>, i: nat): seq<nat>
    requires i < |es| == |serials|
  {
    if es[i].remainingUses == 1 then Without(serials, i) else serials
  }

  lemma StartsEmpty<Id>(es: seq<ProbeEntry<Id>>, now: nat, maxAge: nat)
    ensures Live(es[..0], now, maxAge) == [] && LiveSerials(es[..0], [], now, maxAge) == []
  {
  }

  lemma LiveStep<Id>(es: seq<ProbeEntry<Id>>, serials: seq<nat>, i: nat, now: nat, maxAge: nat)
    requires i < |es| == |serials|
    ensures Live(es[..i + 1], now, maxAge) ==
      Live(es[..i], now, maxAge) + if Unexpired(es[i], now, maxAge) then [es[i]] else []
    ensures LiveSerials(es[..i + 1], serials[..i + 1], now, maxAge) ==
      LiveSerials(es[..i], serials[..i], now, maxAge) + if Unexpired(es[i], now, maxAge) then [serials[i]] else []
  {
    assert es[..i + 1][..i] == es[..i] && serials[..i + 1][..i] == serials[..i];
  }

  class ProbePool<Id(==,!new)> {
    const capacity: usize
    const maxUses: u32
    const maxAge: nat
    var entries: seq<ProbeEntry<Id>>
    ghost var serials: seq<nat>
    ghost var uses: seq<nat>

    ghost predicate Valid()
      reads this
    {
      && capacity > 0 && maxUses > 0 && maxAge > 0
      && |entries| <= capacity && Ledger(entries, serials, uses, maxUses)
    }

    constructor (capacity: usize, maxUses: u32, maxAge: nat)
      requires capacity > 0 && maxUses > 0 && maxAge > 0
      ensures Valid() && entries == [] && uses == []
      ensures this.capacity == capacity && this.maxUses == maxUses && this.maxAge == maxAge
    {
      this.capacity, this.maxUses, this.maxAge := capacity, maxUses, maxAge;
      entries, serials, uses := [], [], [];
    }

    method Expire(now: nat)
      requires Valid()
      modifies this`entries, this`serials
      ensures Valid() && entries == Live(old(entries), now, maxAge)
      ensures |old(serials)| == |old(entries)| && serials == LiveSerials(old(entries), old(serials), now, maxAge)
    {
      hide Ledger, Live, LiveSerials, Accounted;
      ghost var before, held := entries, serials;
      var kept: seq<ProbeEntry<Id>> := [];
      LedgerEmpty(before, held, uses, maxUses);
      StartsEmpty(before, now, maxAge);
      ghost var keptSerials: seq<nat> := [];
      for i := 0 to |entries|
        invariant entries == before && serials == held && kept == Live(before[..i], now, maxAge) && |kept| <= i
        invariant keptSerials == LiveSerials(before[..i], held[..i], now, maxAge)
          && Ledger(kept, keptSerials, uses, maxUses)
        invariant forall k :: 0 <= k < |keptSerials| && i < |held| ==> keptSerials[k] < held[i]
      {
        LiveStep(before, held, i, now, maxAge);
        LedgerAt(before, held, uses, maxUses, i);
        if Unexpired(entries[i], now, maxAge) {
          LedgerExtends(kept, keptSerials, uses, maxUses, entries[i], serials[i]);
          kept := kept + [entries[i]];
          keptSerials := keptSerials + [serials[i]];
        }
      }
      assert before[..|before|] == before && held[..|before|] == held;
      entries, serials := kept, keptSerials;
    }

    method OldestIndex() returns (r: Option<nat>)
      ensures r == None <==> entries == []
      ensures r.Some? ==> IsOldest(entries, r.value)
    {
      if entries == [] {
        return None;
      }
      var oldest := 0;
      for i := 0 to |entries|
        invariant oldest < |entries| && (oldest < i || oldest == i == 0)
        invariant forall k :: 0 <= k < i ==> entries[oldest].recordedAt <= entries[k].recordedAt
        invariant forall k :: 0 <= k < oldest ==> entries[oldest].recordedAt < entries[k].recordedAt
      {
        if entries[i].recordedAt < entries[oldest].recordedAt {
          oldest := i;
        }
      }
      return Some(oldest);
    }

    /** A full pool evicts its oldest observation, or drops the incoming one when that is older still. */
    method RecordAt(id: Id, reading: ProbeReading, now: nat)
      requires Valid()
      modifies this
      ensures Valid() && Records(old(entries), entries, ProbeEntry(id, reading, now, maxUses), capacity, maxAge)
      ensures uses == old(uses) || (uses == old(uses) + [0] && serials != [] && serials[|serials| - 1] == |old(uses)|)
    {
      hide Ledger, Live, LiveSerials;
      Expire(now);
      if |entries| >= capacity {
        var oldest := OldestIndex();
        if oldest.Some? {
          if entries[oldest.value].recordedAt > now {
            return;
          }
          LedgerWithout(entries, serials, uses, maxUses, oldest.value);
          entries, serials := Without(entries, oldest.value), Without(serials, oldest.value);
        }
      }
      LedgerRecords(entries, serials, uses, maxUses, ProbeEntry(id, reading, now, maxUses));
      entries := entries + [ProbeEntry(id, reading, now, maxUses)];
      serials, uses := serials + [|uses|], uses + [0];
    }

    /** Take one use from the observation at `index`, discarding it when spent. */
    method Charge(index: nat) returns (decided: ProbeEntry<Id>)
      requires Valid() && index < |entries|
      modifies this
      ensures Valid() && decided == old(Spent(entries[index])) && entries == old(Charged(entries, index))
      ensures serials == old(ChargedSerials(entries, serials, index))
      ensures var s := old(serials[index]);
        && s < |old(uses)| && uses == old(uses)[s := old(uses)[s] + 1]
        && uses[s] + decided.remainingUses == maxUses
    {
      hide Ledger, Without;
      LedgerCharges(entries, serials, uses, maxUses, index);
      decided := Spent(entries[index]);
      ghost var s := serials[index];
      if decided.remainingUses == 0 {
        entries, serials := Without(entries, index), Without(serials, index);
      } else {
        entries := entries[index := decided];
      }
      uses := uses[s := uses[s] + 1];
    }

    /** Rank everything usable; the one chosen pays for the decision, and errors only expire. */
    method DecideAt(now: nat, choose: seq<ProbeEntry<Id>> -> Option<nat>)
      returns (r: Result<ProbeEntry<Id>, ProbeDecisionError>)
      requires Valid()
      modifies this
      ensures Valid()
      ensures r.Ok? ==> now < r.value.recordedAt + maxAge
      ensures var live := Live(old(entries), now, maxAge);
        match Chosen(live, choose)
        case Err(e) => r == Err(e) && entries == live && uses == old(uses)
        case Ok(i) =>
          && live[i].remainingUses > 0 && r == Ok(Spent(live[i])) && entries == Charged(live, i)
          && var held := LiveSerials(old(entries), old(serials), now, maxAge);
             && serials == ChargedSerials(live, held, i) && held[i] < |old(uses)|
             && uses == old(uses)[held[i] := old(uses)[held[i]] + 1]
    {
      hide Ledger, Live, LiveSerials, ChargedSerials;
      Expire(now);
      if entries == [] {
        return Err(NoProbes);
      }
      var index := choose(entries);
      if index.None? {
        return Err(NoSelection);
      }
      if index.value >= |entries| {
        return Err(IndexOutOfBounds);
      }
      LedgerAt(entries, serials, uses, maxUses, index.value);
      var decided := Charge(index.value);
      return Ok(decided);
    }

    /** Offer only observations of eligible candidates; charge exactly the one chosen. */
    method DecideAmongAt(cs: seq<Candidate<Id>>, now: nat, choose: seq<ProbeEntry<Id>> -> Option<nat>)
      returns (r: Result<ProbeDecision<Id>, ProbeDecisionError>)
      requires Valid()
      modifies this
      ensures Valid()
      ensures r.Ok? ==> now < r.value.entry.recordedAt + maxAge
      ensures r.Ok? ==>
        && r.value.selection < |cs| && cs[r.value.selection].eligible && cs[r.value.selection].id == r.value.entry.id
      ensures var live := Live(old(entries), now, maxAge);
        var offers := Offers(cs, live);
        match Chosen(Offered(live, offers), choose)
        case Err(e) => r == Err(e) && entries == live && uses == old(uses)
        case Ok(i) =>
          var at := offers[i].entry;
          && live[at].remainingUses > 0 && entries == Charged(live, at)
          && r == Ok(ProbeDecision(offers[i].candidate, Spent(live[at])))
          && var held := LiveSerials(old(entries), old(serials), now, maxAge);
             && serials == ChargedSerials(live, held, at) && held[at] < |old(uses)|
             && uses == old(uses)[held[at] := old(uses)[held[at]] + 1]
    {
      hide Ledger, Live, LiveSerials, ChargedSerials, Offers, FirstCandidate, Charged;
      Expire(now);
      var live := entries;
      var offers := CollectOffers(cs, live);
      var offered := Offered(live, offers);
      if offered == [] {
        return Err(NoProbes);
      }
      var index := choose(offered);
      if index.None? {
        return Err(NoSelection);
      }
      if index.value >= |offered| {
        return Err(IndexOutOfBounds);
      }
      var origin := offers[index.value];
      LedgerAt(entries, serials, uses, maxUses, origin.entry);
      var decided := Charge(origin.entry);
      return Ok(ProbeDecision(origin.candidate, decided));
    }
  }

  method CollectOffers<Id(==)>(cs: seq<Candidate<Id>>, live: seq<ProbeEntry<Id>>) returns (offers: seq<Offer>)
    ensures offers == Offers(cs, live)
  {
    offers := [];
    for k := 0 to |live|
      invariant offers == Offers(cs, live[..k])
    {
      assert live[..k + 1][..k] == live[..k];
      var candidate := FirstCandidate(cs, live[k].id);
      if candidate.Some? {
        offers := offers + [Offer(candidate.value, k)];
      }
    }
    assert live[..|live|] == live;
  }

  /** The first eligible candidate with this identity. */
  function FirstCandidate<Id(==)>(cs: seq<Candidate<Id>>, id: Id): (r: Option<nat>)
    ensures r.Some? ==>
      && r.value < |cs| && cs[r.value].eligible && cs[r.value].id == id
      && forall k :: 0 <= k < r.value ==> !(cs[k].eligible && cs[k].id == id)
    ensures r.None? ==> forall k :: 0 <= k < |cs| ==> !(cs[k].eligible && cs[k].id == id)
  {
    if cs == [] then None else
      var last := |cs| - 1;
      var r := FirstCandidate(cs[..last], id);
      assert forall k :: 0 <= k < last ==> cs[..last][k] == cs[k];
      if r.Some? then r else if cs[last].eligible && cs[last].id == id then Some(last) else None
  }

  /** Which observations are offered, and on whose behalf. */
  function Offers<Id(==)>(cs: seq<Candidate<Id>>, live: seq<ProbeEntry<Id>>): (r: seq<Offer>)
    ensures forall k :: 0 <= k < |r| ==>
      r[k].entry < |live| && FirstCandidate(cs, live[r[k].entry].id) == Some(r[k].candidate)
    ensures forall j, k :: 0 <= j < k < |r| ==> r[j].entry < r[k].entry
    ensures forall e :: 0 <= e < |live| && FirstCandidate(cs, live[e].id).Some? ==>
      Offer(FirstCandidate(cs, live[e].id).value, e) in r
  {
    if live == [] then [] else
      var last := |live| - 1;
      var r := Offers(cs, live[..last]);
      assert forall k :: 0 <= k < last ==> live[..last][k] == live[k];
      var candidate := FirstCandidate(cs, live[last].id);
      if candidate.Some? then r + [Offer(candidate.value, last)] else r
  }

  function Offered<Id>(live: seq<ProbeEntry<Id>>, offers: seq<Offer>): (r: seq<ProbeEntry<Id>>)
    requires forall k :: 0 <= k < |offers| ==> offers[k].entry < |live|
    ensures |r| == |offers| && forall k :: 0 <= k < |r| ==> r[k] == live[offers[k].entry]
  {
    seq(|offers|, k requires 0 <= k < |offers| => live[offers[k].entry])
  }

  /** What a ranking function's answer about `offered` amounts to. */
  function Chosen<Id>(
      offered: seq<ProbeEntry<Id>>, choose: seq<ProbeEntry<Id>> -> Option<nat>): (r: Result<nat, ProbeDecisionError>)
    ensures r.Ok? ==> r.value < |offered|
  {
    if offered == [] then Err(NoProbes)
    else match choose(offered)
      case None => Err(NoSelection)
      case Some(i) => if i < |offered| then Ok(i) else Err(IndexOutOfBounds)
  }

  /** Whatever is younger than `maxAge` and belongs to an eligible candidate is offered to the ranking. */
  lemma YoungIsOffered<Id>(cs: seq<Candidate<Id>>, es: seq<ProbeEntry<Id>>, now: nat, maxAge: nat, k: nat, i: nat)
    requires k < |es| && maxAge > 0 && now < es[k].recordedAt + maxAge
    requires i < |cs| && cs[i].eligible && cs[i].id == es[k].id
    ensures es[k] in Offered(Live(es, now, maxAge), Offers(cs, Live(es, now, maxAge)))
  {
    hide Live, Offers, FirstCandidate;
    var live := Live(es, now, maxAge);
    RetainedIff(es, now, maxAge, k);
    var e :| 0 <= e < |live| && live[e] == es[k];
    var at := FirstCandidate(cs, live[e].id);
    var offers := Offers(cs, live);
    var o :| 0 <= o < |offers| && offers[o] == Offer(at.value, e);
    assert Offered(live, offers)[o] == es[k];
  }
}
