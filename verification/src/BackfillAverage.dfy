/** The moving average of the partition durations over the rounds of a loop and the steps of a session
    (`process_job` of servo-runtime/src/backfill_executor.rs). */
module BackfillAverage {
  import opened Wrappers
  import opened Eta
  import opened BackfillStorage
  import opened BackfillExecutor
  import opened BackfillProtocol
  import opened BackfillCheckpoint

  /** The average that a session starts from: a positive stored one counts as one observation. */
  function AverageFrom(stored: Option<int>): Ewma {
    match stored
    case Some(ms) => Ewma(0.3, ms as real, if ms > 0 then 1 else 0)
    case None => Ewma(0.3, 0.0, 0)
  }

  /** The duration of an execution that returns `Ok`, put back or not. */
  function DurationOf(o: Outcome): seq<nat> {
    match o
    case Succeeds(ms) => [ms]
    case NotReady(ms) => [ms]
    case Fails => []
  }

  function DurationsOfRounds(rounds: seq<Round>): seq<nat> {
    if rounds == [] then []
    else DurationsOfRounds(rounds[..|rounds| - 1]) + DurationOf(rounds[|rounds| - 1].outcome)
  }

  lemma AverageAfter(e: Ewma, durations: seq<nat>, o: Outcome)
    ensures Averaged(ObserveAll(e, durations), o) == ObserveAll(e, durations + DurationOf(o))
  {
    hide Observe;
    if o.Fails? {
      assert durations + DurationOf(o) == durations;
    } else {
      assert (durations + DurationOf(o))[..|durations|] == durations;
    }
  }

  /** After any rounds the average is that of the durations of all executions that returned `Ok`, in order,
      on top of the stored one; and after one round at least it is what is stored. */
  lemma {:induction false} AverageOfRounds(start: Db, rounds: seq<Round>, run: Behaviour, maxRetries: nat)
    requires start.state == JobRunning && AreRounds(start, rounds, run, maxRetries)
    ensures var l := LoopAfter(start, rounds, run, maxRetries);
            && l.db.state == JobRunning
            && l.average == ObserveAll(AverageFrom(start.progress.avgDurationMs), DurationsOfRounds(rounds))
            && l.db.progress.avgDurationMs ==
                 (if rounds == [] then start.progress.avgDurationMs else Some(Stored(l.average)))
  {
    if rounds != [] {
      hide Averaged, Stored, ObserveAll, AverageFrom;
      var n := |rounds| - 1;
      AverageOfRounds(start, rounds[..n], run, maxRetries);
      AverageAfter(AverageFrom(start.progress.avgDurationMs), DurationsOfRounds(rounds[..n]), rounds[n].outcome);
    }
  }

  // ----- Sessions -----

  function DurationsOf(events: seq<Event>): seq<nat> {
    if events == [] then []
    else
      var e := events[|events| - 1];
      DurationsOf(events[..|events| - 1]) + if e.Execute? then DurationOf(e.outcome) else []
  }

  predicate HasExecuted(events: seq<Event>) {
    events != [] && (events[|events| - 1].Execute? || HasExecuted(events[..|events| - 1]))
  }

  /** A session starts from the stored average. */
  lemma SessionStartsFromStored(s: System, maxRetries: nat)
    requires Enabled(s, TakeJob, maxRetries)
    ensures var l := Step(s, TakeJob, maxRetries).l;
            l.average == AverageFrom(s.l.db.progress.avgDurationMs) && l.db.progress == s.l.db.progress
  {
  }

  /** Until the job is taken again the executor's average is that of the durations of the executions that
      returned `Ok`, whatever the user does; and while the job keeps running it is what is stored,
      but between an execution and its report. */
  lemma {:induction false} AverageOfSession(s: System, events: seq<Event>, maxRetries: nat)
    requires IsRun(s, events, maxRetries) && Untaken(events)
    requires s.pc != Reporting
    ensures var s' := After(s, events, maxRetries);
            && s'.l.average == ObserveAll(s.l.average, DurationsOf(events))
            && (s'.l.db.state == JobRunning && s'.pc != Reporting ==>
                  s'.l.db.progress.avgDurationMs ==
                    (if HasExecuted(events) then Some(Stored(s'.l.average)) else s.l.db.progress.avgDurationMs))
  {
    if events != [] {
      hide Enabled, Step, ObserveAll, Stored;
      var n := |events| - 1;
      AverageOfSession(s, events[..n], maxRetries);
      var s' := After(s, events[..n], maxRetries);
      AverageStep(s', events[n], maxRetries);
      if events[n].Execute? {
        AverageAfter(s.l.average, DurationsOf(events[..n]), events[n].outcome);
      } else {
        assert DurationsOf(events) == DurationsOf(events[..n]);
      }
    }
  }

  lemma AverageStep(s: System, e: Event, maxRetries: nat)
    requires Enabled(s, e, maxRetries) && e != TakeJob
    ensures var s' := Step(s, e, maxRetries);
            && s'.l.average == (if e.Execute? then Averaged(s.l.average, e.outcome) else s.l.average)
            && (s'.l.db.state == JobRunning ==> s.l.db.state == JobRunning)
            && (e.Execute? ==> s'.pc == Reporting)
            && (s.l.db.state == JobRunning ==>
                  s'.l.db.progress.avgDurationMs ==
                    if e == Report then Some(Stored(s.l.average)) else s.l.db.progress.avgDurationMs)
            && (s.pc == Reporting && e != Report ==> s'.pc == Reporting)
            && (e == Report ==> s.pc == Reporting)
  {
    hide IsNextClaim, NothingToClaim, LastCompletedKey;
  }
}
