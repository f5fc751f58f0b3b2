/** The counters of the job row against its partition rows, over all runs with pauses, resumptions,
    cancellations and partitions put back (`process_job` of servo-runtime/src/backfill_executor.rs,
    `cancel_backfill_job` and `update_backfill_job_progress_with_eta` of
    servo-storage/src/postgres.rs). */
module BackfillCounters {
  import opened BackfillStorage
  import opened BackfillExecutor
  import opened BackfillProtocol
  import opened BackfillCheckpoint

  /** By how much the executor's own counters differ from the partition rows. */
  function LocalGap(s: System, maxRetries: nat): int {
    var progress := s.l.db.progress.(completed := s.l.counts.completed, failed := s.l.counts.failed);
    Discrepancy(progress, s.l.db.rows, maxRetries)
  }

  function Gap(s: System, maxRetries: nat): int {
    Discrepancy(s.l.db.progress, s.l.db.rows, maxRetries)
  }

  // ----- What happens in a run -----

  /** What executions add to the two counters. */
  datatype Ledger = Ledger(completed: nat, failed: nat)
  {
    function Plus(other: Ledger): Ledger {
      Ledger(completed + other.completed, failed + other.failed)
    }

    function Total(): nat {
      completed + failed
    }
  }

  const NOTHING := Ledger(0, 0)

  /** What the executor counts at a step: an `Ok`, put back or not, or a failure with no retry left. */
  function CountedAt(s: System, e: Event, maxRetries: nat): Ledger {
    if e.Execute? && s.pc.Executing? && s.pc.row < |s.l.db.rows| then
      match e.outcome
      case Succeeds(_) => Ledger(1, 0)
      case NotReady(_) => Ledger(1, 0)
      case Fails => Ledger(0, if s.l.db.rows[s.pc.row].attempts >= maxRetries then 1 else 0)
    else NOTHING
  }

  /** What a run did to the counts. Lost and unreported is what was counted since the last report
      that took effect: lost once the job is taken again, unreported until then. In hand is what
      is not yet reported; ignored is what was in hand at reports that had no effect because the
      job was not running. */
  datatype History = History(lost: Ledger, unreported: Ledger, inHand: Ledger, ignored: Ledger, putBacks: nat,
                             skipped: nat)
  {
    /** What the counters of the job row miss. */
    function Missing(): Ledger {
      lost.Plus(unreported)
    }
  }

  const NO_HISTORY := History(NOTHING, NOTHING, NOTHING, NOTHING, 0, 0)

  function PendingRows(rows: seq<Partition>): nat {
    if rows == [] then 0 else PendingRows(rows[..|rows| - 1]) + if rows[|rows| - 1].state == Pending then 1 else 0
  }

  function NextHistory(h: History, s: System, e: Event, maxRetries: nat): History {
    match e
    case TakeJob => h.(lost := h.lost.Plus(h.unreported), unreported := NOTHING)
    case Execute(_) =>
      var counted := CountedAt(s, e, maxRetries);
      h.(unreported := h.unreported.Plus(counted), inHand := counted,
         putBacks := h.putBacks + if PutBack(e) then 1 else 0)
    case Report =>
      if s.l.db.state == JobRunning then h.(unreported := NOTHING, inHand := NOTHING)
      else h.(ignored := h.ignored.Plus(h.inHand), inHand := NOTHING)
    case Cancel => h.(skipped := h.skipped + PendingRows(s.l.db.rows))
    case _ => h
  }

  ghost function HistoryOf(s: System, events: seq<Event>, maxRetries: nat): History
    requires IsRun(s, events, maxRetries)
  {
    if events == [] then NO_HISTORY
    else
      var n := |events| - 1;
      NextHistory(HistoryOf(s, events[..n], maxRetries), After(s, events[..n], maxRetries), events[n], maxRetries)
  }

  // ----- What a step does to the rows -----

  lemma {:induction false} SkippingTallies(rows: seq<Partition>, maxRetries: nat)
    ensures Tally(SkipPending(rows), maxRetries, Done) == Tally(rows, maxRetries, Done)
    ensures Tally(SkipPending(rows), maxRetries, GivenUp) == Tally(rows, maxRetries, GivenUp)
    ensures Tally(SkipPending(rows), maxRetries, InProgress) == Tally(rows, maxRetries, InProgress)
    ensures Tally(SkipPending(rows), maxRetries, Omitted) == Tally(rows, maxRetries, Omitted) + PendingRows(rows)
  {
    if rows != [] {
      var n := |rows| - 1;
      SkippingTallies(rows[..n], maxRetries);
      assert SkipPending(rows)[..n] == SkipPending(rows[..n]);
    }
  }

  lemma ChangedTallies(rows: seq<Partition>, maxRetries: nat, i: nat, p: Partition)
    requires i < |rows|
    ensures forall c :: Tally(rows[i := p], maxRetries, c)
                     == Tally(rows, maxRetries, c)
                        - (if Classify(rows[i], maxRetries) == c then 1 else 0)
                        + (if Classify(p, maxRetries) == c then 1 else 0)
  {
    hide Classify, Tally;
    forall c ensures Tally(rows[i := p], maxRetries, c)
                  == Tally(rows, maxRetries, c)
                     - (if Classify(rows[i], maxRetries) == c then 1 else 0)
                     + (if Classify(p, maxRetries) == c then 1 else 0)
    {
      TallyAfterUpdate(rows, maxRetries, c, i, p);
    }
  }

  /** An execution ends a row or puts it back to be claimed; a cancellation skips what is pending. */
  lemma StepTallies(s: System, e: Event, maxRetries: nat)
    requires Enabled(s, e, maxRetries)
    ensures var rows, rows' := s.l.db.rows, Step(s, e, maxRetries).l.db.rows;
            var counted := CountedAt(s, e, maxRetries);
            && Tally(rows', maxRetries, Done)
               == Tally(rows, maxRetries, Done) + counted.completed - (if PutBack(e) then 1 else 0)
            && Tally(rows', maxRetries, GivenUp) == Tally(rows, maxRetries, GivenUp) + counted.failed
            && Tally(rows', maxRetries, Omitted)
               == Tally(rows, maxRetries, Omitted) + (if e == Cancel then PendingRows(rows) else 0)
            && Tally(rows', maxRetries, InProgress)
               == Tally(rows, maxRetries, InProgress) + (if e.Claim? then 1 else if e.Execute? then -1 else 0)
  {
    hide Tally, PendingRows;
    var rows, rows' := s.l.db.rows, Step(s, e, maxRetries).l.db.rows;
    if e.Claim? {
      ChangedTallies(rows, maxRetries, e.row, rows'[e.row]);
    } else if e.Execute? {
      ChangedTallies(rows, maxRetries, s.pc.row, rows'[s.pc.row]);
    } else if e == Cancel {
      SkippingTallies(rows, maxRetries);
    }
  }

  // ----- The account of a run -----

  /** What a step does to the counts of the executor and of the job row. */
  lemma StepCounts(s: System, e: Event, maxRetries: nat)
    requires Enabled(s, e, maxRetries)
    ensures var l, l' := s.l, Step(s, e, maxRetries).l;
            var counted := CountedAt(s, e, maxRetries);
            && l'.db.progress.skipped == l.db.progress.skipped && |l'.db.rows| == |l.db.rows|
            && (if e == TakeJob then
                  && l'.counts.completed == l.db.progress.completed == l'.db.progress.completed
                  && l'.counts.failed == l.db.progress.failed == l'.db.progress.failed
                else if e == Report && l.db.state == JobRunning then
                  && l'.counts.completed == l.counts.completed == l'.db.progress.completed
                  && l'.counts.failed == l.counts.failed == l'.db.progress.failed
                else
                  && l'.counts.completed == l.counts.completed + counted.completed
                  && l'.counts.failed == l.counts.failed + counted.failed
                  && l'.db.progress.completed == l.db.progress.completed
                  && l'.db.progress.failed == l.db.progress.failed)
  {
  }

  lemma OnlyExecutionsCount(s: System, e: Event, maxRetries: nat)
    ensures !e.Execute? ==> CountedAt(s, e, maxRetries) == NOTHING
  {
  }

  /** Every count of the executor and of the job row, from the state where a run began. */
  ghost predicate IsAccounted(s: System, s': System, h: History, maxRetries: nat) {
    var db, db' := s.l.db, s'.l.db;
    && s'.l.counts.completed + h.lost.completed
       == db.progress.completed + Tally(db'.rows, maxRetries, Done) - Tally(db.rows, maxRetries, Done) + h.putBacks
    && s'.l.counts.failed + h.lost.failed
       == db.progress.failed + Tally(db'.rows, maxRetries, GivenUp) - Tally(db.rows, maxRetries, GivenUp)
    && s'.l.counts.completed == db'.progress.completed + h.unreported.completed
    && s'.l.counts.failed == db'.progress.failed + h.unreported.failed
    && db'.progress.skipped == db.progress.skipped
    && Tally(db'.rows, maxRetries, Omitted) == Tally(db.rows, maxRetries, Omitted) + h.skipped
    && |db'.rows| == |db.rows|
  }

  /** The account of every run: whatever the user does, a count misses the rows by what was lost when
      sessions were cut, by what is unreported, by partitions put back and by partitions skipped. */
  lemma {:induction false} RunsAreAccounted(s: System, events: seq<Event>, maxRetries: nat)
    requires IsRun(s, events, maxRetries)
    requires s.l.counts.completed == s.l.db.progress.completed && s.l.counts.failed == s.l.db.progress.failed
    ensures IsAccounted(s, After(s, events, maxRetries), HistoryOf(s, events, maxRetries), maxRetries)
  {
    if events != [] {
      hide IsAccounted, Enabled, Step, NextHistory;
      var n := |events| - 1;
      RunsAreAccounted(s, events[..n], maxRetries);
      StepIsAccounted(s, After(s, events[..n], maxRetries), events[n], HistoryOf(s, events[..n], maxRetries),
                      maxRetries);
    }
  }

  lemma StepIsAccounted(s: System, s': System, e: Event, h: History, maxRetries: nat)
    requires Enabled(s', e, maxRetries) && IsAccounted(s, s', h, maxRetries)
    ensures IsAccounted(s, Step(s', e, maxRetries), NextHistory(h, s', e, maxRetries), maxRetries)
  {
    hide Tally, PendingRows, Enabled, Step, CountedAt, NextHistory;
    StepTallies(s', e, maxRetries);
    StepCounts(s', e, maxRetries);
    OnlyExecutionsCount(s', e, maxRetries);
    NextHistoryFields(h, s', e, maxRetries);
    if e == TakeJob {
    } else if e == Report {
    } else if e.Execute? {
    } else {
    }
  }

  lemma NextHistoryFields(h: History, s: System, e: Event, maxRetries: nat)
    ensures var h', counted := NextHistory(h, s, e, maxRetries), CountedAt(s, e, maxRetries);
            && h'.putBacks == h.putBacks + (if PutBack(e) then 1 else 0)
            && h'.skipped == h.skipped + (if e == Cancel then PendingRows(s.l.db.rows) else 0)
            && (if e == TakeJob then h'.lost == h.lost.Plus(h.unreported) && h'.unreported == NOTHING
                else h'.lost == h.lost
                     && h'.unreported ==
                          if e == Report && s.l.db.state == JobRunning then NOTHING else h.unreported.Plus(counted))
  {
  }

  /** The discrepancies of the job row and of the executor, over every run. */
  lemma GapOfRun(s: System, events: seq<Event>, maxRetries: nat)
    requires IsRun(s, events, maxRetries)
    requires s.l.counts.completed == s.l.db.progress.completed && s.l.counts.failed == s.l.db.progress.failed
    ensures var s', h := After(s, events, maxRetries), HistoryOf(s, events, maxRetries);
            && Gap(s', maxRetries) == Gap(s, maxRetries) + h.putBacks - h.Missing().Total() - h.skipped
            && LocalGap(s', maxRetries) == Gap(s, maxRetries) + h.putBacks - h.lost.Total() - h.skipped
  {
    hide IsRun, After, Tally, HistoryOf;
    RunsAreAccounted(s, events, maxRetries);
  }

  /** For a new job, at any moment, each counter of the job row agrees with the rows exactly if: of
      the completed ones, as many are missing as were put back; of the failed ones, none is
      missing; none was skipped. So without put-backs and cancellations they agree exactly if nothing
      that was counted is lost or unreported. */
  lemma CountersAgreeIff(db: Db, events: seq<Event>, maxRetries: nat)
    requires IsNewJob(db) && IsRun(Starting(db), events, maxRetries)
    ensures var db', h := After(Starting(db), events, maxRetries).l.db, HistoryOf(Starting(db), events, maxRetries);
            && (db'.progress.completed == Tally(db'.rows, maxRetries, Done) <==> h.Missing().completed == h.putBacks)
            && (db'.progress.failed == Tally(db'.rows, maxRetries, GivenUp) <==> h.Missing().failed == 0)
            && (db'.progress.skipped == Tally(db'.rows, maxRetries, Omitted) <==> h.skipped == 0)
  {
    hide IsRun, After, Tally, HistoryOf;
    RunsAreAccounted(Starting(db), events, maxRetries);
    NothingSettled(db.rows, maxRetries);
  }

  lemma {:induction false} NothingSettled(rows: seq<Partition>, maxRetries: nat)
    requires forall i :: 0 <= i < |rows| ==> rows[i].state == Pending
    ensures forall c :: c != ToDo ==> Tally(rows, maxRetries, c) == 0
  {
    if rows != [] {
      NothingSettled(rows[..|rows| - 1], maxRetries);
    }
  }

  // ----- Reports that find the job not running -----

  ghost predicate HandsOver(s: System, h: History) {
    && h.Missing() == h.ignored.Plus(h.inHand)
    && (s.pc != Reporting ==> h.inHand == NOTHING)
    && (s.pc != Idle && s.l.db.state == JobRunning ==> h.unreported == h.inHand)
  }

  /** What the counters miss is what reports said that found the job not running, and what is in hand. */
  lemma {:induction false} MissingIsIgnored(s: System, events: seq<Event>, maxRetries: nat)
    requires IsRun(s, events, maxRetries) && s.pc == Idle
    ensures HandsOver(After(s, events, maxRetries), HistoryOf(s, events, maxRetries))
  {
    if events != [] {
      hide HandsOver, NextHistory, Enabled, Step;
      var n := |events| - 1;
      MissingIsIgnored(s, events[..n], maxRetries);
      StepHandsOver(After(s, events[..n], maxRetries), events[n], HistoryOf(s, events[..n], maxRetries), maxRetries);
    }
  }

  lemma StepHandsOver(s: System, e: Event, h: History, maxRetries: nat)
    requires Enabled(s, e, maxRetries) && HandsOver(s, h)
    ensures HandsOver(Step(s, e, maxRetries), NextHistory(h, s, e, maxRetries))
  {
    hide CountedAt, Enabled, Step, PendingRows;
    StepMoves(s, e, maxRetries);
  }

  /** How a step moves the executor, and that only taking the job makes it run. */
  lemma StepMoves(s: System, e: Event, maxRetries: nat)
    requires Enabled(s, e, maxRetries)
    ensures var s' := Step(s, e, maxRetries);
            && (e.Execute? ==> s.pc.Executing? && s'.pc == Reporting)
            && (e == Report ==> s.pc == Reporting && s'.pc == CancelCheck)
            && (e == TakeJob ==> s.pc == Idle && s'.pc == CancelCheck)
            && (!e.Execute? && e != Report ==> (s'.pc == Reporting <==> s.pc == Reporting))
            && (e != TakeJob && s'.pc != Idle && s'.l.db.state == JobRunning ==>
                  s.pc != Idle && s.l.db.state == JobRunning)
  {
  }

  /** For a new job without put-backs and cancellations the counters of the job row agree with its rows
      exactly if no report that had something to say found the job not running, and nothing is in
      hand. */
  lemma CountersAgreeIffHeard(db: Db, events: seq<Event>, maxRetries: nat)
    requires IsNewJob(db) && IsRun(Starting(db), events, maxRetries)
    requires var h := HistoryOf(Starting(db), events, maxRetries); h.putBacks == 0 && h.skipped == 0
    ensures var db', h := After(Starting(db), events, maxRetries).l.db, HistoryOf(Starting(db), events, maxRetries);
            (&& db'.progress.completed == Tally(db'.rows, maxRetries, Done)
             && db'.progress.failed == Tally(db'.rows, maxRetries, GivenUp)
             && db'.progress.skipped == Tally(db'.rows, maxRetries, Omitted))
            <==> h.ignored == NOTHING && h.inHand == NOTHING
  {
    hide IsRun, After, Tally, HistoryOf;
    CountersAgreeIff(db, events, maxRetries);
    MissingIsIgnored(Starting(db), events, maxRetries);
  }

  // ----- What is lost while the job is not running -----

  /** The execution ends the partition for good: it succeeds, or fails with no retry left. */
  predicate EndsRow(s: System, e: Event, maxRetries: nat) {
    !PutBack(e) && CountedAt(s, e, maxRetries) != NOTHING
  }

  ghost function Ended(s: System, events: seq<Event>, maxRetries: nat): nat
    requires IsRun(s, events, maxRetries)
  {
    if events == [] then 0
    else
      var n := |events| - 1;
      Ended(s, events[..n], maxRetries)
      + if EndsRow(After(s, events[..n], maxRetries), events[n], maxRetries) then 1 else 0
  }

  /** From a moment when the job is not running until it is taken again, every partition that ends is
      missing from the counters of the job row. */
  lemma {:induction false} FrozenRunLosesCounts(s: System, events: seq<Event>, maxRetries: nat)
    requires IsRun(s, events, maxRetries) && s.l.db.state != JobRunning
    requires Untaken(events) && forall i :: 0 <= i < |events| ==> events[i] != Cancel
    ensures After(s, events, maxRetries).l.db.state != JobRunning
    ensures Gap(After(s, events, maxRetries), maxRetries) == Gap(s, maxRetries) - Ended(s, events, maxRetries)
  {
    if events != [] {
      hide Gap, Enabled, Step, EndsRow;
      var n := |events| - 1;
      FrozenRunLosesCounts(s, events[..n], maxRetries);
      FrozenStepLosesCount(After(s, events[..n], maxRetries), events[n], maxRetries);
    }
  }

  lemma FrozenStepLosesCount(s: System, e: Event, maxRetries: nat)
    requires Enabled(s, e, maxRetries) && s.l.db.state != JobRunning && e !in {TakeJob, Cancel}
    ensures Step(s, e, maxRetries).l.db.state != JobRunning
    ensures Gap(Step(s, e, maxRetries), maxRetries) == Gap(s, maxRetries) - (if EndsRow(s, e, maxRetries) then 1 else 0)
  {
    hide Tally, Step, PendingRows;
    FrozenStep(s, e, maxRetries);
    StepTallies(s, e, maxRetries);
  }

  /** If the job stays paused, that is at most one. */
  lemma {:induction false} PausedRunLosesAtMostOne(s: System, events: seq<Event>, maxRetries: nat)
    requires IsRun(s, events, maxRetries) && Stays(s, events, {JobPaused}, maxRetries)
    ensures Ended(s, events, maxRetries)
         <= if StepsLeft(After(s, events, maxRetries).pc, JobPaused) < StepsLeft(Executing(0), JobPaused) then 1 else 0
  {
    if events != [] {
      hide Enabled, Step, EndsRow, StepsLeft;
      var n := |events| - 1;
      PausedRunLosesAtMostOne(s, events[..n], maxRetries);
      var s' := After(s, events[..n], maxRetries);
      FlaggedStep(s', events[n], JobPaused, maxRetries);
      if EndsRow(s', events[n], maxRetries) {
        EndsOnlyExecuting(s', events[n], maxRetries);
      }
    }
  }

  lemma EndsOnlyExecuting(s: System, e: Event, maxRetries: nat)
    requires EndsRow(s, e, maxRetries)
    ensures StepsLeft(s.pc, JobPaused) == StepsLeft(Executing(0), JobPaused)
  {
  }

  // ----- How a job ends -----

  /** Rows marked running are those being executed. */
  ghost predicate OneInProgress(s: System, maxRetries: nat) {
    Tally(s.l.db.rows, maxRetries, InProgress) == if s.pc.Executing? then 1 else 0
  }

  lemma {:induction false} RunsHaveOneInProgress(s: System, events: seq<Event>, maxRetries: nat)
    requires IsRun(s, events, maxRetries) && OneInProgress(s, maxRetries)
    ensures OneInProgress(After(s, events, maxRetries), maxRetries)
  {
    if events != [] {
      hide Tally;
      var n := |events| - 1;
      RunsHaveOneInProgress(s, events[..n], maxRetries);
      StepTallies(After(s, events[..n], maxRetries), events[n], maxRetries);
    }
  }

  /** A job that is about to finish has nothing to claim, and one not cancelled nothing skipped. */
  ghost predicate IsExhausted(s: System, h: History, maxRetries: nat) {
    s.l.db.state != JobCancelled ==> h.skipped == 0 && (s.pc == Finishing ==> NothingToClaim(s.l.db.rows, maxRetries))
  }

  lemma {:induction false} RunsAreExhausted(s: System, events: seq<Event>, maxRetries: nat)
    requires IsRun(s, events, maxRetries) && s.pc == Idle
    ensures IsExhausted(After(s, events, maxRetries), HistoryOf(s, events, maxRetries), maxRetries)
  {
    if events != [] {
      hide IsExhausted, Enabled, Step, NextHistory;
      var n := |events| - 1;
      RunsAreExhausted(s, events[..n], maxRetries);
      StepIsExhausted(After(s, events[..n], maxRetries), events[n], HistoryOf(s, events[..n], maxRetries), maxRetries);
    }
  }

  lemma StepIsExhausted(s: System, e: Event, h: History, maxRetries: nat)
    requires Enabled(s, e, maxRetries) && IsExhausted(s, h, maxRetries)
    ensures IsExhausted(Step(s, e, maxRetries), NextHistory(h, s, e, maxRetries), maxRetries)
  {
    hide NothingToClaim, PendingRows, CountedAt;
  }

  /** The branch of `process_job` for a job with unprocessed partitions. */
  predicate HasUnprocessed(l: Loop, total: int) {
    FinalState(l.counts) != JobFailed && l.counts.completed + l.counts.failed + l.db.progress.skipped < total
  }

  /** A new job that comes to finish, however often it was paused and resumed, ends with counters that
      miss its rows by what was lost, and exceed them by the put-backs. So it fails exactly if more
      partitions failed than were lost and every completion, with every put-back, was lost, even if
      partitions are completed; and it has unprocessed partitions exactly if it does not fail and
      more was lost than put back. */
  lemma FinishedJob(db: Db, events: seq<Event>, maxRetries: nat)
    requires IsNewJob(db) && IsRun(Starting(db), events, maxRetries)
    requires var s := After(Starting(db), events, maxRetries); s.pc == Finishing && s.l.db.state == JobRunning
    ensures var s, h := After(Starting(db), events, maxRetries), HistoryOf(Starting(db), events, maxRetries);
            var done, givenUp := Tally(s.l.db.rows, maxRetries, Done), Tally(s.l.db.rows, maxRetries, GivenUp);
            && s.l.counts.completed == done + h.putBacks - h.lost.completed
            && s.l.counts.failed == givenUp - h.lost.failed
            && done + givenUp == |db.rows|
            && (Step(s, Finish, maxRetries).l.db.state == JobFailed
                <==> givenUp > h.lost.failed && done + h.putBacks == h.lost.completed)
            && (HasUnprocessed(s.l, |db.rows|)
                <==> Step(s, Finish, maxRetries).l.db.state != JobFailed && h.lost.Total() > h.putBacks)
  {
    hide IsRun, After, Tally, HistoryOf, NothingToClaim;
    var s := After(Starting(db), events, maxRetries);
    RunsAreAccounted(Starting(db), events, maxRetries);
    NothingSettled(db.rows, maxRetries);
    MissingIsIgnored(Starting(db), events, maxRetries);
    RunsHaveOneInProgress(Starting(db), events, maxRetries);
    RunsAreExhausted(Starting(db), events, maxRetries);
    NothingToClaimTally(s.l.db.rows, maxRetries);
    TalliesFillTheTable(s.l.db.rows, maxRetries);
  }

  /** A cancellation skips every pending partition, and counts none of them as skipped. */
  lemma CancelledSkipsAreNotCounted(db: Db, maxRetries: nat)
    requires CancelJob(db).Ok?
    ensures var db' := CancelJob(db).value;
            && PendingRows(db'.rows) == 0 && db'.progress == db.progress
            && Discrepancy(db'.progress, db'.rows, maxRetries)
               == Discrepancy(db.progress, db.rows, maxRetries) - PendingRows(db.rows)
  {
    SkippingTallies(db.rows, maxRetries);
    NothingPending(SkipPending(db.rows));
  }

  lemma {:induction false} NothingPending(rows: seq<Partition>)
    requires forall i :: 0 <= i < |rows| ==> rows[i].state != Pending
    ensures PendingRows(rows) == 0
  {
    if rows != [] {
      NothingPending(rows[..|rows| - 1]);
    }
  }
}
