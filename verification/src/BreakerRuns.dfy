/** The circuit breaker as a concurrent protocol: any number of calls, each an arrival
    and a completion, interleaved in any order. A call whose future is dropped between
    the two never completes. */
module BreakerRuns {
  import opened Integers
  import opened Wrappers
  import opened CircuitBreaker

  type CallId = nat

  datatype Event =
    | Arrival(call: CallId, now: Instant)
    | Completion(call: CallId, ok: bool, now: Instant)
    | Abandon(call: CallId)

  datatype Outcome = Outcome(ok: bool, at: Instant)

  /** The breaker with the calls around it: those admitted and not completed (and whether
      each is a probe), those abandoned, and the completions so far. `guardSetter` is the
      call that last set the probe guard. */
  datatype System = System(
    breaker: Breaker,
    inFlight: map<CallId, bool>,
    seen: set<CallId>,
    abandoned: set<CallId>,
    log: seq<Outcome>,
    guardSetter: Option<CallId>,
    clock: Instant)

  const START := System(NEW_BREAKER, map[], {}, {}, [], None, 0)

  predicate Possible(s: System, e: Event) {
    match e
    case Arrival(call, now) => call !in s.seen && s.clock <= now
    case Completion(call, _, now) => call in s.inFlight && s.clock <= now
    case Abandon(call) => call in s.inFlight
  }

  function Step(config: Config, s: System, e: Event): System
    requires Possible(s, e)
  {
    match e
    case Arrival(call, now) =>
      var s' := s.(clock := now, seen := s.seen + {call}, breaker := AfterArrival(config, s.breaker, now));
      (match Decide(config, s.breaker, now)
       case Rejected => s'
       case Admitted(probe) =>
         s'.(inFlight := s.inFlight[call := probe], guardSetter := if probe then Some(call) else s.guardSetter))
    case Completion(call, ok, now) =>
      s.(clock := now,
         inFlight := s.inFlight - {call},
         log := s.log + [Outcome(ok, now)],
         breaker := if ok then AfterSuccess(s.breaker) else AfterFailure(config, s.breaker, s.inFlight[call], now))
    case Abandon(call) =>
      s.(inFlight := s.inFlight - {call}, abandoned := s.abandoned + {call})
  }

  ghost predicate IsRun(config: Config, events: seq<Event>)
    decreases |events|, 0
  {
    events == [] ||
    (var n := |events| - 1; IsRun(config, events[..n]) && Possible(After(config, events[..n]), events[n]))
  }

  ghost function After(config: Config, events: seq<Event>): System
    requires IsRun(config, events)
    decreases |events|, 1
  {
    if events == [] then START
    else var n := |events| - 1; Step(config, After(config, events[..n]), events[n])
  }

  lemma {:induction false} PrefixIsRun(config: Config, events: seq<Event>, k: nat)
    requires IsRun(config, events) && k <= |events|
    ensures IsRun(config, events[..k])
  {
    if k == |events| {
      assert events[..k] == events;
    } else {
      var n := |events| - 1;
      PrefixIsRun(config, events[..n], k);
      assert events[..n][..k] == events[..k];
    }
  }

  // ----- The failure count and the gauge -----

  /** The length of the run of failures at the end of the completion log. */
  function TrailingFailures(log: seq<Outcome>): nat {
    if log == [] || log[|log| - 1].ok then 0 else 1 + TrailingFailures(log[..|log| - 1])
  }

  /** Enough failures to be open: at least the threshold, and at least one. */
  predicate Tripped(config: Config, log: seq<Outcome>) {
    TrailingFailures(log) >= 1 && TrailingFailures(log) >= config.failureThreshold
  }

  ghost predicate CountsTheLog(config: Config, s: System) {
    && s.breaker.consecutiveFailures == TrailingFailures(s.log) % U32_LIMIT
    && (s.breaker.state == Open <==> Tripped(config, s.log))
    && s.breaker.gauge == (if s.breaker.state == Open then 1 else 0)
    && s.breaker.lastFailureTime ==
         (if TrailingFailures(s.log) == 0 then None else Some(s.log[|s.log| - 1].at))
    && (s.log != [] ==> s.log[|s.log| - 1].at <= s.clock)
  }

  lemma CountWraps(n: nat)
    ensures (n % U32_LIMIT + 1) % U32_LIMIT == (n + 1) % U32_LIMIT
    ensures n < U32_LIMIT ==> n % U32_LIMIT == n
  {
    var q, m := n / U32_LIMIT, n % U32_LIMIT;
    assert n == U32_LIMIT * q + m;
    if m + 1 == U32_LIMIT {
      assert n + 1 == U32_LIMIT * (q + 1);
    } else {
      assert n + 1 == U32_LIMIT * q + (m + 1);
    }
  }

  lemma StepCountsTheLog(config: Config, s: System, e: Event)
    requires CountsTheLog(config, s) && Possible(s, e)
    ensures CountsTheLog(config, Step(config, s, e))
  {
    if e.Completion? {
      var s' := Step(config, s, e);
      assert s'.log[..|s'.log| - 1] == s.log;
      var run := TrailingFailures(s.log);
      assert e.ok || TrailingFailures(s'.log) == run + 1;
      CountWraps(run);
    }
  }

  /** After any interleaving of calls the breaker is Open exactly when the log ends in
      enough failures, the counter is their number (as a `u32`), the gauge agrees, and the
      last failure time is the time of the last of them. */
  lemma {:induction false} FailureCountTheorem(config: Config, events: seq<Event>)
    requires IsRun(config, events)
    ensures CountsTheLog(config, After(config, events))
  {
    if events != [] {
      var n := |events| - 1;
      FailureCountTheorem(config, events[..n]);
      StepCountsTheLog(config, After(config, events[..n]), events[n]);
    }
  }

  /** An arrival is turned away exactly when the log has tripped the breaker and either the
      last failure is too recent or the probe guard is set. */
  lemma RejectionTheorem(config: Config, events: seq<Event>, now: Instant)
    requires IsRun(config, events)
    ensures var s := After(config, events);
            Decide(config, s.breaker, now) == Rejected
            <==> Tripped(config, s.log)
                 && (Elapsed(s.log[|s.log| - 1].at, now) < config.halfOpenTimeout || s.breaker.halfOpenProbeInProgress)
    ensures var s := After(config, events);
            s.clock <= now ==>
              (Decide(config, s.breaker, now) == Rejected
               <==> Tripped(config, s.log)
                    && (now < s.log[|s.log| - 1].at + config.halfOpenTimeout || s.breaker.halfOpenProbeInProgress))
  {
    FailureCountTheorem(config, events);
  }

  // ----- The probe guard -----

  /** The guard is set only while Open, and then the probe that set it has not completed:
      it is in flight, or its future was dropped. */
  ghost predicate GuardIsHeld(s: System) {
    && s.inFlight.Keys <= s.seen && s.abandoned <= s.seen && s.inFlight.Keys !! s.abandoned
    && (s.breaker.halfOpenProbeInProgress ==>
          && s.breaker.state == Open
          && s.breaker.lastFailureTime.Some?
          && s.guardSetter.Some?
          && (if s.guardSetter.value in s.inFlight then s.inFlight[s.guardSetter.value]
              else s.guardSetter.value in s.abandoned))
  }

  lemma {:induction false} GuardTheorem(config: Config, events: seq<Event>)
    requires IsRun(config, events)
    ensures GuardIsHeld(After(config, events))
  {
    if events != [] {
      var n := |events| - 1;
      GuardTheorem(config, events[..n]);
    }
  }

  /** With nothing in flight and the timeout past, an Open breaker admits a call, as a probe,
      unless the guard is held by a probe whose future was dropped. In particular it does
      if no admitted call was dropped. */
  lemma QuietBreakerProbes(config: Config, events: seq<Event>, now: Instant)
    requires IsRun(config, events)
    requires var s := After(config, events); s.breaker.state == Open && s.inFlight == map[]
    requires var last := After(config, events).breaker.lastFailureTime;
             last.Some? ==> Elapsed(last.value, now) >= config.halfOpenTimeout
    ensures var s := After(config, events);
            && (Decide(config, s.breaker, now) == Admitted(true) <==> !s.breaker.halfOpenProbeInProgress)
            && (s.breaker.halfOpenProbeInProgress ==> s.guardSetter.Some? && s.guardSetter.value in s.abandoned)
            && (s.abandoned == {} ==> Decide(config, s.breaker, now) == Admitted(true))
  {
    GuardTheorem(config, events);
    FailureCountTheorem(config, events);
  }

  /** A dropped probe whose guard nothing in flight can clear leaves the breaker open for good:
      whatever happens later, every call is turned away. */
  lemma {:induction false} DroppedProbeSticks(config: Config, events: seq<Event>, more: seq<Event>, now: Instant)
    requires IsRun(config, events) && IsRun(config, events + more)
    requires var s := After(config, events); s.breaker.halfOpenProbeInProgress && s.inFlight == map[]
    ensures After(config, events + more).inFlight == map[]
    ensures After(config, events + more).breaker == After(config, events).breaker
    ensures Decide(config, After(config, events + more).breaker, now) == Rejected
  {
    GuardTheorem(config, events);
    if more == [] {
      assert events + more == events;
    } else {
      var n := |more| - 1;
      assert (events + more)[..|events + more| - 1] == events + more[..n];
      assert (events + more)[|events + more| - 1] == more[n];
      DroppedProbeSticks(config, events, more[..n], now);
      if more[n].Arrival? {
        DroppedProbeSticks(config, events, more[..n], more[n].now);
      }
    }
  }

  // ----- How often an Open breaker lets a call through -----

  /** The `k`-th event is a call that is let through. */
  ghost predicate LetsThrough(config: Config, events: seq<Event>, k: nat)
    requires IsRun(config, events) && k < |events|
  {
    PrefixIsRun(config, events, k);
    events[k].Arrival? && Decide(config, After(config, events[..k]).breaker, events[k].now) != Rejected
  }

  /** How many of the events `i` up to `j` are calls let through. */
  ghost function CallsThrough(config: Config, events: seq<Event>, i: nat, j: nat): nat
    requires IsRun(config, events) && i <= j <= |events|
  {
    if i == j then 0 else CallsThrough(config, events, i, j - 1) + if LetsThrough(config, events, j - 1) then 1 else 0
  }

  ghost function StateAfter(config: Config, events: seq<Event>, k: nat): System
    requires IsRun(config, events) && k <= |events|
  {
    PrefixIsRun(config, events, k);
    After(config, events[..k])
  }

  lemma StateAfterStep(config: Config, events: seq<Event>, k: nat)
    requires IsRun(config, events) && k < |events|
    ensures Possible(StateAfter(config, events, k), events[k])
    ensures StateAfter(config, events, k + 1) == Step(config, StateAfter(config, events, k), events[k])
  {
    PrefixIsRun(config, events, k);
    PrefixIsRun(config, events, k + 1);
    assert events[..k + 1][..k] == events[..k];
  }

  /** The breaker opens with event `i` and is still open after the first `j` events. */
  ghost predicate IsOpenSpell(config: Config, events: seq<Event>, i: nat, j: nat)
    requires IsRun(config, events)
  {
    && i < j <= |events|
    && StateAfter(config, events, i).breaker.state == Closed
    && forall k :: i < k <= j ==> StateAfter(config, events, k).breaker.state == Open
  }

  /** While Open, no call will be let through for a timeout after `bound`, counting from the
      completion that will clear the guard if it is set. */
  ghost predicate Spaced(s: System, bound: nat) {
    && s.breaker.state == Open
    && s.breaker.lastFailureTime.Some?
    && s.breaker.lastFailureTime.value <= s.clock
    && bound <= s.clock
    && (!s.breaker.halfOpenProbeInProgress ==> bound <= s.breaker.lastFailureTime.value)
  }

  lemma StepKeepsSpacing(config: Config, s: System, e: Event, bound: nat)
    requires Spaced(s, bound) && Possible(s, e) && Step(config, s, e).breaker.state == Open
    ensures e.Arrival? && Decide(config, s.breaker, e.now) != Rejected
            ==> bound + config.halfOpenTimeout <= e.now && Spaced(Step(config, s, e), bound + config.halfOpenTimeout)
    ensures Spaced(Step(config, s, e), bound)
  {
  }

  lemma LetThroughIsSpaced(config: Config, s: System, e: Event, bound: nat)
    requires Spaced(s, bound) && Possible(s, e)
    requires e.Arrival? && Decide(config, s.breaker, e.now) != Rejected
    ensures bound + config.halfOpenTimeout <= e.now
  {
  }

  lemma FirstOpeningIsSpaced(config: Config, s: System, e: Event)
    requires CountsTheLog(config, s) && GuardIsHeld(s) && Possible(s, e)
    requires s.breaker.state == Closed && Step(config, s, e).breaker.state == Open
    ensures e.Completion? && Spaced(Step(config, s, e), e.now)
  {
  }

  /** `k` timeouts, one after the other. */
  function Timeouts(config: Config, k: nat): nat {
    if k == 0 then 0 else Timeouts(config, k - 1) + config.halfOpenTimeout
  }

  lemma {:induction false} TimeoutsIsProduct(config: Config, k: nat)
    ensures Timeouts(config, k) == k * config.halfOpenTimeout
  {
    if k > 0 {
      TimeoutsIsProduct(config, k - 1);
    }
  }

  lemma {:induction false} SpellInvariant(config: Config, events: seq<Event>, i: nat, j: nat)
    requires IsRun(config, events) && IsOpenSpell(config, events, i, j)
    ensures events[i].Completion?
    ensures Spaced(StateAfter(config, events, j),
                   events[i].now + Timeouts(config, CallsThrough(config, events, i + 1, j)))
    decreases j
  {
    var s := StateAfter(config, events, j - 1);
    StateAfterStep(config, events, j - 1);
    if j == i + 1 {
      PrefixIsRun(config, events, i);
      FailureCountTheorem(config, events[..i]);
      GuardTheorem(config, events[..i]);
      FirstOpeningIsSpaced(config, s, events[i]);
    } else {
      SpellInvariant(config, events, i, j - 1);
      var n := CallsThrough(config, events, i + 1, j - 1);
      StepKeepsSpacing(config, s, events[j - 1], events[i].now + Timeouts(config, n));
    }
  }

  /** In one unbroken Open spell the k-th call let through arrives no earlier than k timeouts
      after the spell began, whatever stragglers succeed or fail meanwhile. */
  lemma ProbesAreSpaced(config: Config, events: seq<Event>, i: nat, j: nat)
    requires IsRun(config, events) && IsOpenSpell(config, events, i, j)
    requires j < |events| && LetsThrough(config, events, j)
    ensures events[i].Completion?
    ensures events[j].now >= events[i].now + (CallsThrough(config, events, i + 1, j) + 1) * config.halfOpenTimeout
  {
    var n := CallsThrough(config, events, i + 1, j);
    TimeoutsIsProduct(config, n + 1);
    SpellInvariant(config, events, i, j);
    StateAfterStep(config, events, j);
    LetThroughIsSpaced(config, StateAfter(config, events, j), events[j], events[i].now + Timeouts(config, n));
  }

  // ----- What does not hold -----

  /** A probe and a straggler: one admitted after the breaker opened, one before. */
  lemma ProbeAndStraggler(config: Config) returns (events: seq<Event>)
    requires config == Config(1, 10)
    ensures IsRun(config, events)
    ensures var s := After(config, events);
            s.breaker == Breaker(Open, 1, Some(0), true, 1) && s.inFlight == map[1 := false, 2 := true]
            && s.seen == {0, 1, 2} && s.clock == 10
  {
    events := TwoAdmitted(config);
    events := Extend(config, events, Completion(0, false, 0));
    assert After(config, events).breaker == Breaker(Open, 1, Some(0), false, 1);
    assert After(config, events).inFlight == map[1 := false];
    events := Extend(config, events, Arrival(2, 10));
  }

  lemma TwoAdmitted(config: Config) returns (events: seq<Event>)
    requires config == Config(1, 10)
    ensures IsRun(config, events)
    ensures After(config, events) == System(NEW_BREAKER, map[0 := false, 1 := false], {0, 1}, {}, [], None, 0)
  {
    events := Extend(config, [], Arrival(0, 0));
    events := Extend(config, events, Arrival(1, 0));
  }

  /** Two probes can be in flight at once: a straggler's success clears the first one's guard. */
  lemma TwoProbesAtOnce() returns (config: Config, events: seq<Event>)
    ensures IsRun(config, events)
    ensures After(config, events).inFlight == map[2 := true, 4 := true]
  {
    config := Config(1, 10);
    events := StragglerCloses(config);
    events := Extend(config, events, Completion(3, false, 10));
    assert After(config, events).breaker == Breaker(Open, 1, Some(10), false, 1);
    assert After(config, events).inFlight == map[2 := true];
    events := Extend(config, events, Arrival(4, 20));
  }

  lemma StragglerCloses(config: Config) returns (events: seq<Event>)
    requires config == Config(1, 10)
    ensures IsRun(config, events)
    ensures var s := After(config, events);
            s.breaker == NEW_BREAKER && s.inFlight == map[2 := true, 3 := false] && s.seen == {0, 1, 2, 3}
            && s.clock == 10
  {
    events := ProbeAndStraggler(config);
    events := Extend(config, events, Completion(1, true, 10));
    assert After(config, events).breaker == NEW_BREAKER;
    assert After(config, events).inFlight == map[2 := true];
    events := Extend(config, events, Arrival(3, 10));
  }

  /** A dropped probe does leave an Open breaker stuck with nothing in flight. */
  lemma DroppedProbeExample() returns (config: Config, events: seq<Event>)
    ensures IsRun(config, events)
    ensures var s := After(config, events); s.breaker.halfOpenProbeInProgress && s.inFlight == map[]
  {
    config := Config(1, 10);
    events := ProbeAndStraggler(config);
    events := Extend(config, events, Abandon(1));
    events := Extend(config, events, Abandon(2));
  }

  lemma Extend(config: Config, events: seq<Event>, e: Event) returns (longer: seq<Event>)
    requires IsRun(config, events) && Possible(After(config, events), e)
    ensures longer == events + [e]
    ensures IsRun(config, longer) && After(config, longer) == Step(config, After(config, events), e)
  {
    longer := events + [e];
    assert longer[..|longer| - 1] == events;
  }
}
