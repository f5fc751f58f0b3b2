/** The database circuit breaker: its state and the two atomic steps of a call
    (servo-storage/src/circuit_breaker.rs). */
module CircuitBreaker {
  import opened Integers
  import opened Wrappers

  type Instant = nat

  datatype Config = Config(failureThreshold: u32, halfOpenTimeout: nat)

  datatype CircuitState = Closed | Open

  datatype Breaker = Breaker(
    state: CircuitState,
    consecutiveFailures: u32,
    lastFailureTime: Option<Instant>,
    halfOpenProbeInProgress: bool,
    gauge: nat)

  const NEW_BREAKER := Breaker(Closed, 0, None, false, 0)

  datatype Admission = Rejected | Admitted(isHalfOpenProbe: bool)

  /** `Instant::elapsed` saturates at zero. */
  function Elapsed(since: Instant, now: Instant): nat {
    if now < since then 0 else now - since
  }

  /** What a call arriving at `now` is told. */
  function Decide(config: Config, b: Breaker, now: Instant): Admission {
    if b.state == Closed || b.lastFailureTime.None? then Admitted(false)
    else if Elapsed(b.lastFailureTime.value, now) < config.halfOpenTimeout then Rejected
    else if b.halfOpenProbeInProgress then Rejected
    else Admitted(true)
  }

  function AfterArrival(config: Config, b: Breaker, now: Instant): Breaker {
    if Decide(config, b, now) == Admitted(true) then b.(halfOpenProbeInProgress := true) else b
  }

  function AfterSuccess(b: Breaker): Breaker {
    NEW_BREAKER
  }

  /** The counter is a `u32` and wraps around in a release build. */
  function AfterFailure(config: Config, b: Breaker, isHalfOpenProbe: bool, now: Instant): Breaker {
    var failures: u32 := (b.consecutiveFailures + 1) % U32_LIMIT;
    var opens := failures >= config.failureThreshold && b.state == Closed;
    Breaker(if opens then Open else b.state,
            failures,
            Some(now),
            b.halfOpenProbeInProgress && !isHalfOpenProbe,
            if opens then 1 else b.gauge)
  }

  class DatabaseCircuitBreaker {
    const config: Config
    var state: CircuitState
    var consecutiveFailures: u32
    var lastFailureTime: Option<Instant>
    var halfOpenProbeInProgress: bool
    var gauge: nat

    function View(): Breaker
      reads this
    {
      Breaker(state, consecutiveFailures, lastFailureTime, halfOpenProbeInProgress, gauge)
    }

    constructor (config: Config)
      ensures this.config == config && View() == NEW_BREAKER
    {
      this.config := config;
      state := Closed;
      consecutiveFailures := 0;
      lastFailureTime := None;
      halfOpenProbeInProgress := false;
      gauge := 0;
    }

    /** The part of `call` before the operation runs, under the lock. */
    method Arrive(now: Instant) returns (r: Admission)
      modifies this`halfOpenProbeInProgress
      ensures r == Decide(config, old(View()), now)
      ensures View() == AfterArrival(config, old(View()), now)
    {
      if state == Open {
        if lastFailureTime.Some? {
          if Elapsed(lastFailureTime.value, now) < config.halfOpenTimeout {
            return Rejected;
          }
          if halfOpenProbeInProgress {
            return Rejected;
          }
          halfOpenProbeInProgress := true;
          return Admitted(true);
        }
      }
      return Admitted(false);
    }

    /** The part of `call` after the operation succeeded, under the lock. */
    method Succeed()
      modifies this
      ensures View() == AfterSuccess(old(View()))
    {
      state := Closed;
      consecutiveFailures := 0;
      lastFailureTime := None;
      halfOpenProbeInProgress := false;
      gauge := 0;
    }

    /** The part of `call` after the operation failed, under the lock. */
    method Fail(isHalfOpenProbe: bool, now: Instant)
      modifies this
      ensures View() == AfterFailure(config, old(View()), isHalfOpenProbe, now)
    {
      if isHalfOpenProbe {
        halfOpenProbeInProgress := false;
      }
      consecutiveFailures := (consecutiveFailures + 1) % U32_LIMIT;
      lastFailureTime := Some(now);
      if consecutiveFailures >= config.failureThreshold && state == Closed {
        state := Open;
        gauge := 1;
      }
    }

    /** Reports open only while every call is rejected. */
    method IsOpen(now: Instant) returns (r: bool)
      ensures r <==> state == Open && lastFailureTime.Some?
                     && Elapsed(lastFailureTime.value, now) < config.halfOpenTimeout
      ensures r ==> Decide(config, View(), now) == Rejected
      ensures !r && Decide(config, View(), now) == Rejected ==> halfOpenProbeInProgress
    {
      if state == Open && lastFailureTime.Some? {
        return Elapsed(lastFailureTime.value, now) < config.halfOpenTimeout;
      }
      return false;
    }
  }
}
