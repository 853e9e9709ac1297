/** Active health: one probe at a time, threshold streaks, and reservations that a forced status outdates. */
module ActiveProbes {
  import opened Core

  datatype ActiveStatus = Unknown | Healthy | Unhealthy

  datatype ProbeResult = Passed | Failed

  datatype ProbeRejected = Running | NotDue(retryAfter: nat)

  datatype Thresholds = Thresholds(interval: nat, healthyThreshold: u32, unhealthyThreshold: u32)

  type ActiveHealthConfig = c: Thresholds | c.interval > 0 && c.healthyThreshold > 0 && c.unhealthyThreshold > 0
    witness Thresholds(10, 2, 3)

  /** The value behind the lock. */
  datatype ActiveState = ActiveState(
    status: ActiveStatus, consecutiveHealthy: u32, consecutiveUnhealthy: u32,
    inFlight: bool, lastFinished: Option<nat>, generation: u64)

  const FRESH := ActiveState(Unknown, 0, 0, false, None, 0)

  function SaturatingNext(n: u32): u32 {
    if n == U32_LIMIT - 1 then n else n + 1
  }

  function SaturatingSub(a: nat, b: nat): nat {
    if a < b then 0 else a - b
  }

  function DueIn(config: ActiveHealthConfig, s: ActiveState, now: nat): nat {
    match s.lastFinished
    case None => 0
    case Some(last) => SaturatingSub(config.interval, SaturatingSub(now, last))
  }

  function Forced(s: ActiveState, status: ActiveStatus): ActiveState {
    ActiveState(status, 0, 0, false, s.lastFinished, (s.generation + 1) % U64_LIMIT)
  }

  /** Does a completion carrying this generation take effect? */
  predicate Accepts(s: ActiveState, generation: u64) {
    generation == s.generation && s.inFlight
  }

  function Applied(config: ActiveHealthConfig, s: ActiveState, result: Option<ProbeResult>, now: nat): ActiveState {
    var free := s.(inFlight := false, lastFinished := Some(now));
    match result
    case None => free
    case Some(Passed) =>
      var streak := SaturatingNext(s.consecutiveHealthy);
      free.(consecutiveUnhealthy := 0, consecutiveHealthy := streak,
            status := if streak >= config.healthyThreshold then Healthy else s.status)
    case Some(Failed) =>
      var streak := SaturatingNext(s.consecutiveUnhealthy);
      free.(consecutiveHealthy := 0, consecutiveUnhealthy := streak,
            status := if streak >= config.unhealthyThreshold then Unhealthy else s.status)
  }

  function Finished(
      config: ActiveHealthConfig, s: ActiveState, generation: u64, result: Option<ProbeResult>,
      now: nat): ActiveState {
    if Accepts(s, generation) then Applied(config, s, result, now) else s
  }

  class ActiveHealth {
    const config: ActiveHealthConfig
    var status: ActiveStatus
    var consecutiveHealthy: u32
    var consecutiveUnhealthy: u32
    var inFlight: bool
    var lastFinished: Option<nat>
    var generation: u64

    function State(): ActiveState
      reads this
    {
      ActiveState(status, consecutiveHealthy, consecutiveUnhealthy, inFlight, lastFinished, generation)
    }

    constructor (config: ActiveHealthConfig)
      ensures this.config == config && State() == FRESH
    {
      this.config := config;
      status, consecutiveHealthy, consecutiveUnhealthy := Unknown, 0, 0;
      inFlight, lastFinished, generation := false, None, 0;
    }

    method TryStartProbeAt(now: nat) returns (r: Result<ActiveProbe, ProbeRejected>)
      modifies this`inFlight
      ensures old(inFlight) ==> r == Err(Running)
      ensures !old(inFlight) && DueIn(config, old(State()), now) > 0 ==>
        r == Err(NotDue(DueIn(config, old(State()), now)))
      ensures r.Err? ==> State() == old(State())
      ensures !old(inFlight) && DueIn(config, old(State()), now) == 0 ==>
        && r.Ok? && fresh(r.value) && State() == old(State()).(inFlight := true)
        && r.value.health == this && r.value.generation == generation && !r.value.finished
    {
      if inFlight {
        return Err(Running);
      }
      var dueIn := DueIn(config, State(), now);
      if dueIn > 0 {
        return Err(NotDue(dueIn));
      }
      inFlight := true;
      var probe := new ActiveProbe(this, generation);
      return Ok(probe);
    }

    method ForceStatus(status: ActiveStatus)
      modifies this
      ensures State() == Forced(old(State()), status)
    {
      this.status := status;
      consecutiveHealthy, consecutiveUnhealthy := 0, 0;
      inFlight := false;
      generation := (generation + 1) % U64_LIMIT;
    }

    method FinishAt(generation: u64, result: Option<ProbeResult>, now: nat)
      modifies this
      ensures State() == Finished(config, old(State()), generation, result, now)
    {
      if generation != this.generation || !inFlight {
        return;
      }
      inFlight := false;
      lastFinished := Some(now);
      match result {
        case None => {}
        case Some(Passed) =>
          consecutiveUnhealthy := 0;
          consecutiveHealthy := SaturatingNext(consecutiveHealthy);
          if consecutiveHealthy >= config.healthyThreshold {
            status := Healthy;
          }
        case Some(Failed) =>
          consecutiveHealthy := 0;
          consecutiveUnhealthy := SaturatingNext(consecutiveUnhealthy);
          if consecutiveUnhealthy >= config.unhealthyThreshold {
            status := Unhealthy;
          }
      }
    }
  }

  /** A reservation; completing, cancelling and dropping it all finish it, at most once. */
  class ActiveProbe {
    const health: ActiveHealth
    const generation: u64
    var finished: bool

    constructor (health: ActiveHealth, generation: u64)
      ensures this.health == health && this.generation == generation && !finished
    {
      this.health, this.generation, finished := health, generation, false;
    }

    method FinishAt(result: Option<ProbeResult>, now: nat)
      modifies this, health
      ensures finished
      ensures health.State() ==
        if old(finished) then old(health.State())
        else Finished(health.config, old(health.State()), generation, result, now)
    {
      if finished {
        return;
      }
      health.FinishAt(generation, result, now);
      finished := true;
    }
  }
}
