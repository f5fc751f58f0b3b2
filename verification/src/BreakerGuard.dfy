/** What sets and clears the guard of the half-open probe (servo-storage/src/circuit_breaker.rs). */
module BreakerGuard {
  import opened CircuitBreaker
  import opened BreakerRuns
  import opened BreakerProbes

  /** The `k`-th event is a call let through as a probe. */
  ghost predicate LetsProbe(config: Config, events: seq<Event>, k: nat)
    requires IsRun(config, events) && k < |events|
  {
    events[k].Arrival? && Decide(config, StateAfter(config, events, k).breaker, events[k].now) == Admitted(true)
  }

  /** The `k`-th event is a success, or the failure of a probe. */
  ghost predicate EndsProbing(config: Config, events: seq<Event>, k: nat)
    requires IsRun(config, events) && k < |events|
  {
    events[k].Completion? && (events[k].ok || InFlightProbe(StateAfter(config, events, k), events[k].call))
  }

  /** The `k`-th event lets a probe through, and nothing since ended the probing. */
  ghost predicate ProbesSince(config: Config, events: seq<Event>, k: nat)
    requires IsRun(config, events) && k < |events|
  {
    LetsProbe(config, events, k) && forall j :: k < j < |events| ==> !EndsProbing(config, events, j)
  }

  /** The guard is set exactly if a probe was let through, and since then no call has succeeded and no
      probe has failed. */
  lemma {:induction false} GuardIsSetIff(config: Config, events: seq<Event>)
    requires IsRun(config, events)
    ensures After(config, events).breaker.halfOpenProbeInProgress <==>
              exists k :: 0 <= k < |events| && ProbesSince(config, events, k)
  {
    if events != [] {
      hide ProbesSince, LetsProbe, EndsProbing, Step, Possible;
      var n := |events| - 1;
      GuardIsSetIff(config, events[..n]);
      GuardStep(config, events);
      forall k | 0 <= k < n
        ensures ProbesSince(config, events, k) <==>
                  ProbesSince(config, events[..n], k) && !EndsProbing(config, events, n)
      {
        ProbesSinceStep(config, events, k);
      }
      LastProbesSince(config, events);
    }
  }

  lemma GuardStep(config: Config, events: seq<Event>)
    requires IsRun(config, events) && events != []
    ensures var n := |events| - 1;
            After(config, events).breaker.halfOpenProbeInProgress <==>
              LetsProbe(config, events, n)
              || (After(config, events[..n]).breaker.halfOpenProbeInProgress && !EndsProbing(config, events, n))
  {
    var n := |events| - 1;
    GuardTheorem(config, events[..n]);
    StateAfterStep(config, events, n);
    assert events[..n + 1] == events;
  }

  lemma ProbesSinceStep(config: Config, events: seq<Event>, k: nat)
    requires IsRun(config, events) && k < |events| - 1
    ensures var n := |events| - 1;
            ProbesSince(config, events, k) <==>
              ProbesSince(config, events[..n], k) && !EndsProbing(config, events, n)
  {
    hide Decide;
    var n := |events| - 1;
    forall j | 0 <= j < n
      ensures LetsProbe(config, events, j) <==> LetsProbe(config, events[..n], j)
      ensures EndsProbing(config, events, j) <==> EndsProbing(config, events[..n], j)
    {
      assert events[..n][..j] == events[..j];
    }
  }

  lemma LastProbesSince(config: Config, events: seq<Event>)
    requires IsRun(config, events) && events != []
    ensures ProbesSince(config, events, |events| - 1) <==> LetsProbe(config, events, |events| - 1)
  {
  }

  /** While the guard is set and only stragglers fail, the guard stays set, the breaker stays open and
      nobody is let through. */
  lemma {:induction false} StragglersKeepGuard(config: Config, events: seq<Event>, more: seq<Event>)
    requires IsRun(config, events) && IsRun(config, events + more)
    requires After(config, events).breaker.halfOpenProbeInProgress
    requires forall i :: 0 <= i < |more| && more[i].Completion? ==>
               !more[i].ok && !InFlightProbe(After(config, events), more[i].call)
    ensures var s, s' := After(config, events), After(config, events + more);
            && s'.breaker.halfOpenProbeInProgress && s'.breaker.state == Open
            && (forall call :: call in s'.inFlight ==> call in s.inFlight && s'.inFlight[call] == s.inFlight[call])
  {
    GuardTheorem(config, events);
    if more == [] {
      assert events + more == events;
    } else {
      hide IsRun, After;
      DropLast(config, events, more);
      StragglersKeepGuard(config, events, more[..|more| - 1]);
      GuardTheorem(config, events + more[..|more| - 1]);
    }
  }
}
