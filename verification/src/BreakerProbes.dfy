/** When a second probe can join the one in flight, and when an Open breaker stays open for good
    (servo-storage/src/circuit_breaker.rs). */
module BreakerProbes {
  import opened Wrappers
  import opened CircuitBreaker
  import opened BreakerRuns

  /** After the further events both calls are in flight as probes. */
  ghost predicate AreJoined(config: Config, events: seq<Event>, more: seq<Event>, p: CallId, r: CallId) {
    IsRun(config, events + more)
    && p != r && InFlightProbe(After(config, events + more), p) && InFlightProbe(After(config, events + more), r)
  }

  predicate InFlightProbe(s: System, call: CallId) {
    call in s.inFlight && s.inFlight[call]
  }

  ghost predicate CanBeJoined(config: Config, events: seq<Event>, p: CallId) {
    exists more, r :: AreJoined(config, events, more, p, r)
  }

  /** The run with one more event, if it is possible then. */
  lemma ExtendBy(config: Config, events: seq<Event>, more: seq<Event>, e: Event)
    requires IsRun(config, events + more) && Possible(After(config, events + more), e)
    ensures IsRun(config, events + (more + [e]))
    ensures After(config, events + (more + [e])) == Step(config, After(config, events + more), e)
  {
    var longer := Extend(config, events + more, e);
    assert longer == events + (more + [e]);
  }

  lemma DropLast(config: Config, events: seq<Event>, more: seq<Event>)
    requires IsRun(config, events + more) && more != []
    ensures var n := |more| - 1;
            && IsRun(config, events + more[..n])
            && Possible(After(config, events + more[..n]), more[n])
            && After(config, events + more) == Step(config, After(config, events + more[..n]), more[n])
  {
    var n := |more| - 1;
    assert (events + more)[..|events + more| - 1] == events + more[..n];
    assert (events + more)[|events + more| - 1] == more[n];
  }

  /** With only the probe in flight, no other call is admitted until the probe leaves; and it does
      not come back. */
  lemma {:induction false} NobodyJoins(config: Config, events: seq<Event>, more: seq<Event>, p: CallId)
    requires IsRun(config, events) && IsRun(config, events + more)
    requires After(config, events).breaker.halfOpenProbeInProgress && After(config, events).inFlight == map[p := true]
    ensures var s, s' := After(config, events), After(config, events + more);
            && p in s'.seen
            && (p in s'.inFlight ==> s'.inFlight == map[p := true] && s'.breaker == s.breaker)
  {
    GuardTheorem(config, events);
    if more == [] {
      assert events + more == events;
    } else {
      DropLast(config, events, more);
      NobodyJoins(config, events, more[..|more| - 1], p);
    }
  }

  /** A number above all calls seen. */
  lemma {:induction false} FreshCall(seen: set<CallId>) returns (call: CallId)
    ensures forall c :: c in seen ==> c < call
  {
    if seen == {} {
      call := 0;
    } else {
      var c :| c in seen;
      call := FreshCall(seen - {c});
      assert forall x :: x in seen && x != c ==> x in seen - {c};
      call := if call <= c then c + 1 else call;
    }
  }

  /** A fresh call fails. */
  lemma FailOnce(config: Config, events: seq<Event>, more0: seq<Event>, p: CallId) returns (more: seq<Event>)
    requires IsRun(config, events + more0) && InFlightProbe(After(config, events + more0), p)
    requires After(config, events + more0).breaker.state == Closed
    ensures IsRun(config, events + more)
    ensures var s, s' := After(config, events + more0), After(config, events + more);
            InFlightProbe(s', p) && s'.clock == s.clock && s'.breaker == AfterFailure(config, s.breaker, false, s.clock)
  {
    hide AfterFailure, IsRun, After;
    var s := After(config, events + more0);
    var call := FreshCall(s.seen + s.inFlight.Keys);
    ExtendBy(config, events, more0, Arrival(call, s.clock));
    more := more0 + [Arrival(call, s.clock)];
    ExtendBy(config, events, more, Completion(call, false, s.clock));
    more := more + [Completion(call, false, s.clock)];
  }

  /** Failures enough to open a closed breaker: each of a fresh call, while `p` stays in flight. */
  lemma {:induction false} FailUntilOpen(config: Config, events: seq<Event>, more0: seq<Event>, p: CallId)
    returns (more: seq<Event>)
    requires IsRun(config, events + more0) && InFlightProbe(After(config, events + more0), p)
    requires var b := After(config, events + more0).breaker;
             b.state == Closed && !b.halfOpenProbeInProgress && b.consecutiveFailures < NeededFailures(config)
    ensures IsRun(config, events + more)
    ensures var s := After(config, events + more);
            InFlightProbe(s, p) && s.breaker.state == Open && !s.breaker.halfOpenProbeInProgress
            && s.breaker.lastFailureTime == Some(s.clock)
    decreases NeededFailures(config) - After(config, events + more0).breaker.consecutiveFailures
  {
    var s := After(config, events + more0);
    more := FailOnce(config, events, more0, p);
    if s.breaker.consecutiveFailures + 1 < NeededFailures(config) {
      more := FailUntilOpen(config, events, more, p);
    }
  }

  /** The failures in a row that open the breaker. */
  function NeededFailures(config: Config): nat {
    if config.failureThreshold == 0 then 1 else config.failureThreshold
  }

  /** With the guard clear a second probe can be admitted: once the breaker is open and the timeout has
      passed. */
  lemma GuardIsClear(config: Config, events: seq<Event>, more0: seq<Event>, p: CallId)
    returns (more: seq<Event>, r: CallId)
    requires IsRun(config, events + more0) && InFlightProbe(After(config, events + more0), p)
    requires !After(config, events + more0).breaker.halfOpenProbeInProgress
    ensures AreJoined(config, events, more, p, r)
  {
    more := more0;
    FailureCountTheorem(config, events + more0);
    if After(config, events + more0).breaker.state == Closed {
      ClosedCountsFew(config, events + more0);
      more := FailUntilOpen(config, events, more0, p);
    }
    var s := After(config, events + more);
    FailureCountTheorem(config, events + more);
    r := FreshCall(s.seen + s.inFlight.Keys);
    var e := Arrival(r, s.clock + config.halfOpenTimeout);
    ExtendBy(config, events, more, e);
    more := more + [e];
  }

  /** A closed breaker has counted fewer failures than open it. */
  lemma ClosedCountsFew(config: Config, events: seq<Event>)
    requires IsRun(config, events) && After(config, events).breaker.state == Closed
    ensures After(config, events).breaker.consecutiveFailures < NeededFailures(config)
  {
    FailureCountTheorem(config, events);
    CountWraps(TrailingFailures(After(config, events).log));
  }

  /** Any other call in flight can let a second probe in: if it succeeds the guard is clear. */
  lemma SecondProbe(config: Config, events: seq<Event>, p: CallId, q: CallId) returns (more: seq<Event>, r: CallId)
    requires IsRun(config, events) && InFlightProbe(After(config, events), p)
    requires q in After(config, events).inFlight && p != q
    ensures AreJoined(config, events, more, p, r)
  {
    var s := After(config, events);
    assert events + [] == events;
    ExtendBy(config, events, [], Completion(q, true, s.clock));
    more, r := GuardIsClear(config, events, [] + [Completion(q, true, s.clock)], p);
  }

  /** Whatever probe is in flight, a second one can join it exactly if the guard is clear or some other
      call is in flight too. */
  lemma CanBeJoinedIff(config: Config, events: seq<Event>, p: CallId)
    requires IsRun(config, events) && InFlightProbe(After(config, events), p)
    ensures var s := After(config, events);
            CanBeJoined(config, events, p) <==> !s.breaker.halfOpenProbeInProgress || s.inFlight.Keys != {p}
  {
    var s := After(config, events);
    assert events + [] == events;
    if s.inFlight.Keys != {p} {
      var q :| q in s.inFlight.Keys && q != p;
      var more, r := SecondProbe(config, events, p, q);
      assert AreJoined(config, events, more, p, r);
    } else if !s.breaker.halfOpenProbeInProgress {
      var more, r := GuardIsClear(config, events, [], p);
      assert AreJoined(config, events, more, p, r);
    } else {
      assert s.inFlight == map[p := true];
      forall more, r ensures !AreJoined(config, events, more, p, r) {
        if AreJoined(config, events, more, p, r) {
          NobodyJoins(config, events, more, p);
        }
      }
    }
  }

  // ----- Open for good -----

  ghost predicate IsRejectedAfter(config: Config, events: seq<Event>, more: seq<Event>, now: Instant) {
    IsRun(config, events + more) ==> Decide(config, After(config, events + more).breaker, now) == Rejected
  }

  /** Whatever happens next, every call is turned away. */
  ghost predicate IsStuck(config: Config, events: seq<Event>) {
    forall more, now :: IsRejectedAfter(config, events, more, now)
  }

  /** The breaker turns every call away for good exactly if its guard is set and nothing is in
      flight to clear it. */
  lemma IsStuckIff(config: Config, events: seq<Event>)
    requires IsRun(config, events)
    ensures IsStuck(config, events) <==>
              After(config, events).breaker.halfOpenProbeInProgress && After(config, events).inFlight == map[]
  {
    var s := After(config, events);
    assert events + [] == events;
    if s.breaker.halfOpenProbeInProgress && s.inFlight == map[] {
      forall more, now ensures IsRejectedAfter(config, events, more, now) {
        if IsRun(config, events + more) {
          DroppedProbeSticks(config, events, more, now);
        }
      }
    } else if !s.breaker.halfOpenProbeInProgress {
      var last := if s.breaker.lastFailureTime.Some? then s.breaker.lastFailureTime.value else 0;
      var now := last + config.halfOpenTimeout;
      assert !IsRejectedAfter(config, events, [], now);
    } else {
      var q :| q in s.inFlight;
      ExtendBy(config, events, [], Completion(q, true, s.clock));
      assert !IsRejectedAfter(config, events, [] + [Completion(q, true, s.clock)], s.clock);
    }
  }
}
