/** Every run of an active-health state with any number of reservations outstanding, late or dropped. */
module ActiveRuns {
  import opened ActiveProbes
  import opened Core

  /** A reservation, with the number of forced statuses that preceded it. */
  datatype Token = Token(epoch: nat, generation: u64, finished: bool)

  /** The state, every reservation ever granted, and what has happened since the last forced status. */
  datatype World = World(
    state: ActiveState, tokens: seq<Token>, forces: nat, origin: ActiveStatus, results: seq<ProbeResult>)

  datatype Op =
    | Start(now: nat)
    | Finish(token: nat, result: Option<ProbeResult>, now: nat)
    | Force(status: ActiveStatus)

  const START := World(FRESH, [], 0, Unknown, [])

  predicate Enabled(w: World, op: Op) {
    op.Finish? ==> op.token < |w.tokens|
  }

  predicate Grants(config: ActiveHealthConfig, w: World, op: Op) {
    op.Start? && !w.state.inFlight && DueIn(config, w.state, op.now) == 0
  }

  /** The finish is the token's first and its generation is accepted. */
  predicate TakesEffect(w: World, op: Op)
    requires Enabled(w, op)
  {
    op.Finish? && !w.tokens[op.token].finished && Accepts(w.state, w.tokens[op.token].generation)
  }

  function Next(config: ActiveHealthConfig, w: World, op: Op): World
    requires Enabled(w, op)
  {
    match op
    case Start(now) =>
      if !Grants(config, w, op) then w
      else w.(state := w.state.(inFlight := true), tokens := w.tokens + [Token(w.forces, w.state.generation, false)])
    case Finish(token, result, now) =>
      var t := w.tokens[token];
      if t.finished then w
      else w.(state := Finished(config, w.state, t.generation, result, now),
              tokens := w.tokens[token := t.(finished := true)],
              results := if TakesEffect(w, op) && result.Some? then w.results + [result.value] else w.results)
    case Force(status) =>
      w.(state := Forced(w.state, status), forces := w.forces + 1, origin := status, results := [])
  }

  /** Length of the final stretch of equal results. */
  function Streak(results: seq<ProbeResult>, r: ProbeResult): nat {
    if results == [] || results[|results| - 1] != r then 0 else Streak(results[..|results| - 1], r) + 1
  }

  function Saturated(n: nat): u32 {
    if n >= U32_LIMIT then U32_LIMIT - 1 else n
  }

  /** The last streak to reach its threshold decides; with none, the starting status stands. */
  function Classify(config: ActiveHealthConfig, origin: ActiveStatus, results: seq<ProbeResult>): ActiveStatus {
    if Streak(results, Passed) >= config.healthyThreshold then Healthy
    else if Streak(results, Failed) >= config.unhealthyThreshold then Unhealthy
    else if results == [] then origin
    else Classify(config, origin, results[..|results| - 1])
  }

  /** The token was granted under the current generation and has not been finished. */
  predicate Outstanding(w: World, i: nat) {
    i < |w.tokens| && !w.tokens[i].finished && w.tokens[i].epoch == w.forces
  }

  ghost predicate Inv(config: ActiveHealthConfig, w: World) {
    && w.state.generation == w.forces % U64_LIMIT
    && (forall i :: 0 <= i < |w.tokens| ==>
          w.tokens[i].epoch <= w.forces && w.tokens[i].generation == w.tokens[i].epoch % U64_LIMIT)
    && (w.state.inFlight <==> exists i: nat :: Outstanding(w, i))
    && (forall i: nat, j: nat :: Outstanding(w, i) && Outstanding(w, j) ==> i == j)
    && w.state.consecutiveHealthy == Saturated(Streak(w.results, Passed))
    && w.state.consecutiveUnhealthy == Saturated(Streak(w.results, Failed))
    && w.state.status == Classify(config, w.origin, w.results)
  }

  /** Below 2^64 forced statuses, generations distinguish epochs. */
  lemma GenerationNamesEpoch(epoch: nat, forces: nat)
    requires epoch <= forces < U64_LIMIT
    ensures epoch % U64_LIMIT == forces % U64_LIMIT <==> epoch == forces
  {
  }

  lemma StreaksAfter(
      config: ActiveHealthConfig, origin: ActiveStatus, results: seq<ProbeResult>, r: ProbeResult)
    ensures var after := results + [r];
      && Streak(after, r) == Streak(results, r) + 1
      && Streak(after, if r == Passed then Failed else Passed) == 0
      && Classify(config, origin, after) ==
           if r == Passed && Streak(after, Passed) >= config.healthyThreshold then Healthy
           else if r == Failed && Streak(after, Failed) >= config.unhealthyThreshold then Unhealthy
           else Classify(config, origin, results)
  {
    var after := results + [r];
    assert after[..|after| - 1] == results;
  }

  /** Applying a result moves the counters and the status exactly as the reference says. */
  lemma AppliedClassifies(
      config: ActiveHealthConfig, s: ActiveState, origin: ActiveStatus, results: seq<ProbeResult>, r: ProbeResult,
      now: nat)
    requires s.consecutiveHealthy == Saturated(Streak(results, Passed))
    requires s.consecutiveUnhealthy == Saturated(Streak(results, Failed))
    requires s.status == Classify(config, origin, results)
    ensures var after, t := results + [r], Applied(config, s, Some(r), now);
      && t.consecutiveHealthy == Saturated(Streak(after, Passed))
      && t.consecutiveUnhealthy == Saturated(Streak(after, Failed))
      && t.status == Classify(config, origin, after)
  {
    hide Streak, Classify;
    StreaksAfter(config, origin, results, r);
  }

  lemma StartIsInv(config: ActiveHealthConfig)
    ensures Inv(config, START)
  {
    assert forall i: nat :: !Outstanding(START, i);
  }

  lemma GrantKeepsInv(config: ActiveHealthConfig, w: World, op: Op)
    requires Inv(config, w) && Grants(config, w, op)
    ensures Inv(config, Next(config, w, op))
  {
    hide Classify, Streak;
    var v := Next(config, w, op);
    forall i: nat
      ensures Outstanding(v, i) <==> i == |w.tokens|
    {
      assert Outstanding(v, i) && i < |w.tokens| ==> Outstanding(w, i);
    }
    assert Outstanding(v, |w.tokens|);
  }

  lemma ForceKeepsInv(config: ActiveHealthConfig, w: World, status: ActiveStatus)
    requires Inv(config, w)
    ensures Inv(config, Next(config, w, Force(status)))
  {
    var v := Next(config, w, Force(status));
    assert forall i: nat :: !Outstanding(v, i);
    WrappingNext(w.forces);
  }

  lemma WrappingNext(n: nat)
    ensures (n % U64_LIMIT + 1) % U64_LIMIT == (n + 1) % U64_LIMIT
  {
  }

  lemma FinishKeepsInv(config: ActiveHealthConfig, w: World, op: Op)
    requires Inv(config, w) && Enabled(w, op) && op.Finish? && w.forces < U64_LIMIT
    ensures Inv(config, Next(config, w, op))
  {
    hide Classify, Streak;
    var v := Next(config, w, op);
    var t := w.tokens[op.token];
    if !t.finished {
      GenerationNamesEpoch(t.epoch, w.forces);
      forall i: nat
        ensures Outstanding(v, i) <==> Outstanding(w, i) && i != op.token
      {
      }
      if TakesEffect(w, op) {
        assert Outstanding(w, op.token);
        if op.result.Some? {
          AppliedClassifies(config, w.state, w.origin, w.results, op.result.value, op.now);
        }
      } else {
        assert Outstanding(w, op.token) ==> w.state.inFlight;
      }
    }
  }

  ghost predicate IsRun(config: ActiveHealthConfig, ws: seq<World>, ops: seq<Op>) {
    && |ws| == |ops| + 1 && ws[0] == START
    && forall k :: 0 <= k < |ops| ==> Enabled(ws[k], ops[k]) && ws[k + 1] == Next(config, ws[k], ops[k])
  }

  lemma {:induction false} ForcesOnlyGrow(config: ActiveHealthConfig, ws: seq<World>, ops: seq<Op>, j: nat, k: nat)
    requires IsRun(config, ws, ops) && j <= k <= |ops|
    ensures ws[j].forces <= ws[k].forces
    decreases k
  {
    if j < k {
      ForcesOnlyGrow(config, ws, ops, j, k - 1);
      assert ws[k] == Next(config, ws[k - 1], ops[k - 1]);
    }
  }

  /**
   * On every run with fewer than 2^64 forced statuses: a probe is in flight exactly when one unfinished
   * reservation carries the current generation, and counters and status are a function of the results
   * applied since the last forced status.
   */
  lemma {:induction false} RunKeepsInv(config: ActiveHealthConfig, ws: seq<World>, ops: seq<Op>, k: nat)
    requires IsRun(config, ws, ops) && k <= |ops| && ws[k].forces < U64_LIMIT
    ensures Inv(config, ws[k])
    decreases k
  {
    hide Inv, Next;
    if k == 0 {
      StartIsInv(config);
    } else {
      ForcesOnlyGrow(config, ws, ops, k - 1, k);
      RunKeepsInv(config, ws, ops, k - 1);
      var w, op := ws[k - 1], ops[k - 1];
      assert ws[k] == Next(config, w, op);
      StepKeepsInv(config, w, op);
    }
  }

  lemma StepKeepsInv(config: ActiveHealthConfig, w: World, op: Op)
    requires Inv(config, w) && Enabled(w, op) && w.forces < U64_LIMIT
    ensures Inv(config, Next(config, w, op))
  {
    match op {
      case Start(now) =>
        if Grants(config, w, op) {
          GrantKeepsInv(config, w, op);
        }
      case Finish(_, _, _) => FinishKeepsInv(config, w, op);
      case Force(status) => ForceKeepsInv(config, w, status);
    }
  }

  /** A late, repeated or outdated finish changes no field: only the one outstanding reservation can. */
  lemma OnlyOutstandingTakesEffect(config: ActiveHealthConfig, w: World, op: Op)
    requires Inv(config, w) && Enabled(w, op) && op.Finish? && w.forces < U64_LIMIT
    ensures TakesEffect(w, op) <==> Outstanding(w, op.token)
    ensures !Outstanding(w, op.token) ==> Next(config, w, op).state == w.state
    ensures Outstanding(w, op.token) ==>
      !Next(config, w, op).state.inFlight && Next(config, w, op).state.lastFinished == Some(op.now)
  {
    hide Classify, Streak;
    GenerationNamesEpoch(w.tokens[op.token].epoch, w.forces);
  }

  /**
   * The guarantee is exactly as wide as the counter: after 2^64 forced statuses an old reservation is mistaken for
   * a new one.
   */
  lemma WrappedGenerationIsAccepted(s: ActiveState, epoch: nat, forces: nat)
    requires s.inFlight && s.generation == forces % U64_LIMIT && epoch <= forces
    ensures Accepts(s, epoch % U64_LIMIT) <==> (forces - epoch) % U64_LIMIT == 0
  {
    var q, r := forces / U64_LIMIT, forces % U64_LIMIT;
    var p, e := epoch / U64_LIMIT, epoch % U64_LIMIT;
    assert forces - epoch == (q - p) * U64_LIMIT + (r - e);
  }

  function Instant(op: Op): Option<nat> {
    match op
    case Start(now) => Some(now)
    case Finish(_, _, now) => Some(now)
    case Force(_) => None
  }

  /** Supplied instants never go back. */
  ghost predicate Monotone(ops: seq<Op>) {
    forall i, j :: 0 <= i <= j < |ops| && Instant(ops[i]).Some? && Instant(ops[j]).Some? ==>
      Instant(ops[i]).value <= Instant(ops[j]).value
  }

  lemma {:induction false} LastFinishedIsLatest(
      config: ActiveHealthConfig, ws: seq<World>, ops: seq<Op>, i: nat, k: nat)
    requires IsRun(config, ws, ops) && Monotone(ops) && i < k <= |ops|
    requires TakesEffect(ws[i], ops[i])
    ensures ws[k].state.lastFinished.Some? && ops[i].now <= ws[k].state.lastFinished.value
    decreases k
  {
    var w, op := ws[k - 1], ops[k - 1];
    assert ws[k] == Next(config, w, op);
    if i < k - 1 {
      LastFinishedIsLatest(config, ws, ops, i, k - 1);
      assert Instant(ops[i]).Some?;
      assert op.Finish? ==> Instant(op).Some?;
    }
  }

  /** On a clock that never goes back, every granted start is at least `interval` after every applied completion. */
  lemma StartsAreSpaced(config: ActiveHealthConfig, ws: seq<World>, ops: seq<Op>, i: nat, k: nat)
    requires IsRun(config, ws, ops) && Monotone(ops) && i < k < |ops|
    requires TakesEffect(ws[i], ops[i]) && Grants(config, ws[k], ops[k])
    ensures ops[k].now >= ops[i].now + config.interval
  {
    LastFinishedIsLatest(config, ws, ops, i, k);
  }

  /** The advertised delay is sufficient exactly when the clock has reached the last completion. */
  lemma RetryAfterSufficesIff(config: ActiveHealthConfig, s: ActiveState, now: nat, sooner: nat)
    requires s.lastFinished.Some? && sooner < DueIn(config, s, now)
    ensures DueIn(config, s, now + DueIn(config, s, now)) == 0 <==> s.lastFinished.value <= now
    ensures DueIn(config, s, now + sooner) > 0
  {
  }

  /** A clock read behind the last completion: waiting the advertised ten units leaves five to wait. */
  lemma RetryAfterCanFallShort(config: ActiveHealthConfig, s: ActiveState)
    requires config.interval == 10 && s.lastFinished == Some(5)
    ensures DueIn(config, s, 0) == 10 && DueIn(config, s, 0 + 10) == 5
  {
  }

  /** A start is due at once while no probe has completed, and otherwise a whole interval after the last completion. */
  lemma StartIsDueIff(config: ActiveHealthConfig, s: ActiveState, now: nat)
    ensures DueIn(config, s, now) == 0 <==>
      s.lastFinished.None? || now >= s.lastFinished.value + config.interval
    ensures s.lastFinished.Some? && s.lastFinished.value <= now < s.lastFinished.value + config.interval ==>
      now + DueIn(config, s, now) == s.lastFinished.value + config.interval
    ensures s.lastFinished.Some? && now < s.lastFinished.value ==> DueIn(config, s, now) == config.interval
  {
  }

  /** Until some completion takes effect, an idle target can be probed at any time. */
  lemma NeverFinishedStartsAtOnce(
      config: ActiveHealthConfig, ws: seq<World>, ops: seq<Op>, k: nat, now: nat)
    requires IsRun(config, ws, ops) && k <= |ops| && !ws[k].state.inFlight
    requires forall i :: 0 <= i < k ==> !TakesEffect(ws[i], ops[i])
    ensures Grants(config, ws[k], Start(now))
  {
    NeverFinished(config, ws, ops, k);
  }

  lemma {:induction false} NeverFinished(config: ActiveHealthConfig, ws: seq<World>, ops: seq<Op>, k: nat)
    requires IsRun(config, ws, ops) && k <= |ops|
    requires forall i :: 0 <= i < k ==> !TakesEffect(ws[i], ops[i])
    ensures ws[k].state.lastFinished == None
  {
    if k > 0 {
      NeverFinished(config, ws, ops, k - 1);
      assert ws[k] == Next(config, ws[k - 1], ops[k - 1]);
    }
  }
}
