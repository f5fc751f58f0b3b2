/** The loop that processes a backfill job partition by partition
    (`process_job` and `execute_partition` of servo-runtime/src/backfill_executor.rs), run
    with no storage error and nobody pausing or cancelling the job meanwhile. */
module BackfillExecutor {
  import opened Wrappers
  import opened Eta
  import opened BackfillStorage

  /** What becomes of one execution of a partition, with its duration. */
  datatype Outcome = Succeeds(durationMs: nat) | Fails | NotReady(durationMs: nat)

  /** The outcome of each partition at each attempt. */
  type Behaviour = (string, nat) -> Outcome

  /** The `Ok` or `Err` of `execute_partition`: a partition whose upstream is not ready is put
      back, and that is an `Ok`. */
  function ExecutionOk(o: Outcome): bool {
    !o.Fails?
  }

  /** The storage update of an execution. */
  function AfterExecution(db: Db, i: nat, o: Outcome): Result<Db, StorageError>
    requires i < |db.rows|
  {
    match o
    case Succeeds(_) => CompleteRow(db, i)
    case Fails => FailRow(db, i)
    case NotReady(_) => RequeueRow(db, i)
  }

  /** The counters that the loop keeps: completed and failed as the job row is told, and, to
      state what they mean, the claims and the partitions put back. */
  datatype Counts = Counts(completed: int, failed: int, claims: nat, requeues: nat)

  function Counted(c: Counts, o: Outcome, attempts: nat, maxRetries: nat): Counts {
    match o
    case Succeeds(_) => c.(completed := c.completed + 1, claims := c.claims + 1)
    case NotReady(_) => c.(completed := c.completed + 1, claims := c.claims + 1, requeues := c.requeues + 1)
    case Fails => c.(failed := c.failed + (if attempts >= maxRetries then 1 else 0), claims := c.claims + 1)
  }

  /** From attempt `patience` on the upstream of every row's partition is ready. */
  ghost predicate UpstreamReadyFrom(run: Behaviour, rows: seq<Partition>, patience: nat) {
    forall i, attempt :: 0 <= i < |rows| && attempt >= patience ==> !run(rows[i].key, attempt).NotReady?
  }

  ghost predicate HasSameKeys(rows: seq<Partition>, rows': seq<Partition>) {
    |rows'| == |rows| && forall i :: 0 <= i < |rows| ==> rows'[i].key == rows[i].key
  }

  function Max(a: nat, b: nat): nat {
    if a < b then b else a
  }

  /** By how much the counters of the job row differ from its partition rows. */
  function Discrepancy(p: Progress, rows: seq<Partition>, maxRetries: nat): int {
    p.completed + p.failed + p.skipped
    - Tally(rows, maxRetries, Done) - Tally(rows, maxRetries, GivenUp) - Tally(rows, maxRetries, Omitted)
  }

  // ----- One round -----

  /** The row after its claim and execution. */
  function AfterRound(db: Db, i: nat, o: Outcome): Result<Db, StorageError>
    requires i < |db.rows|
  {
    AfterExecution(ClaimRow(db, i), i, o)
  }

  /** How the loop's counters relate to the rows they started from. */
  ghost predicate CountsFollowRows(start: Db, db: Db, c: Counts, maxRetries: nat, limit: nat) {
    && |db.rows| == |start.rows|
    && c.completed == start.progress.completed
                      + Tally(db.rows, maxRetries, Done) - Tally(start.rows, maxRetries, Done) + c.requeues
    && c.failed == start.progress.failed + Tally(db.rows, maxRetries, GivenUp) - Tally(start.rows, maxRetries, GivenUp)
    && Tally(db.rows, maxRetries, InProgress) == Tally(start.rows, maxRetries, InProgress)
    && Tally(db.rows, maxRetries, Omitted) == Tally(start.rows, maxRetries, Omitted)
    && c.claims + Budget(db.rows, maxRetries, limit) <= Budget(start.rows, maxRetries, limit)
  }

  lemma RoundRow(db: Db, i: nat, o: Outcome, maxRetries: nat, limit: nat, patience: nat)
    requires i < |db.rows| && Claimable(db.rows[i], maxRetries)
    requires limit >= maxRetries && limit >= patience
    requires db.rows[i].attempts + 1 >= patience ==> !o.NotReady?
    ensures AfterRound(db, i, o).Ok?
    ensures var db' := AfterRound(db, i, o).value;
            && |db'.rows| == |db.rows|
            && db'.rows == db.rows[i := db'.rows[i]]
            && db'.rows[i].key == db.rows[i].key
            && db'.progress == db.progress && db'.state == db.state
            && ClaimsLeft(db'.rows[i], maxRetries, limit) < ClaimsLeft(db.rows[i], maxRetries, limit)
            && Classify(db.rows[i], maxRetries) == ToDo
            && Classify(db'.rows[i], maxRetries) ==
                 (match o
                  case Succeeds(_) => Done
                  case Fails => if db.rows[i].attempts + 1 < maxRetries then ToDo else GivenUp
                  case NotReady(_) => ToDo)
  {
  }

  lemma RoundKeepsCounts(start: Db, db: Db, c: Counts, i: nat, o: Outcome, maxRetries: nat, limit: nat, patience: nat)
    requires CountsFollowRows(start, db, c, maxRetries, limit)
    requires i < |db.rows| && Claimable(db.rows[i], maxRetries)
    requires limit >= maxRetries && limit >= patience
    requires db.rows[i].attempts + 1 >= patience ==> !o.NotReady?
    ensures AfterRound(db, i, o).Ok?
    ensures CountsFollowRows(start, AfterRound(db, i, o).value,
                             Counted(c, o, db.rows[i].attempts + 1, maxRetries), maxRetries, limit)
    ensures Budget(AfterRound(db, i, o).value.rows, maxRetries, limit) < Budget(db.rows, maxRetries, limit)
  {
    RoundRow(db, i, o, maxRetries, limit, patience);
    hide AfterRound, Classify, ClaimsLeft;
    var p := AfterRound(db, i, o).value.rows[i];
    BudgetAfterUpdate(db.rows, maxRetries, limit, i, p);
    TallyAfterUpdate(db.rows, maxRetries, Done, i, p);
    TallyAfterUpdate(db.rows, maxRetries, GivenUp, i, p);
    TallyAfterUpdate(db.rows, maxRetries, InProgress, i, p);
    TallyAfterUpdate(db.rows, maxRetries, Omitted, i, p);
  }

  /** When nothing is left to claim, completed, failed and skipped add up to the rows that no
      stale claim holds, plus what the counters were off by at the start, plus one for every
      time a partition was put back. */
  lemma CountsAddUp(start: Db, db: Db, c: Counts, maxRetries: nat, limit: nat)
    requires CountsFollowRows(start, db, c, maxRetries, limit)
    requires NothingToClaim(db.rows, maxRetries)
    ensures c.completed + c.failed + start.progress.skipped
         == |start.rows| - Tally(start.rows, maxRetries, InProgress)
            + Discrepancy(start.progress, start.rows, maxRetries) + c.requeues
  {
    NothingToClaimTally(db.rows, maxRetries);
    TalliesFillTheTable(db.rows, maxRetries);
  }

  // ----- The executor -----

  /** The job was found paused or cancelled, or ran out of partitions to claim. */
  datatype Report = Stopped | Finished(completed: int, failed: int, unprocessed: bool, finalState: JobState)

  /** The state of the loop: the storage and the local variables. */
  datatype Loop = Loop(db: Db, counts: Counts, lastCompleted: Option<string>, average: Ewma)

  datatype Round = Round(row: nat, outcome: Outcome)

  /** The average after a round. */
  function Averaged(e: Ewma, o: Outcome): Ewma {
    if ExecutionOk(o) then Observe(e, o.durationMs) else e
  }

  function InitialAverage(p: Progress): Ewma {
    match p.avgDurationMs
    case Some(ms) => Resumed(0.3, ms)
    case None => Fresh(0.3)
  }

  function FirstLoop(db: Db): Loop {
    Loop(db, Counts(db.progress.completed, db.progress.failed, 0, 0), db.progress.checkpoint,
         InitialAverage(db.progress))
  }

  /** One round: claim, execute, count, and write the progress. A partition put back counts as
      completed, becomes the checkpoint and enters the average. */
  function NextLoop(l: Loop, r: Round, maxRetries: nat): Loop
    requires r.row < |l.db.rows| && AfterRound(l.db, r.row, r.outcome).Ok?
  {
    var counts := Counted(l.counts, r.outcome, l.db.rows[r.row].attempts + 1, maxRetries);
    var last := if ExecutionOk(r.outcome) then Some(l.db.rows[r.row].key) else l.lastCompleted;
    var average := Averaged(l.average, r.outcome);
    var progress := Progress(counts.completed, counts.failed, l.db.progress.skipped, Some(Stored(average)), last);
    Loop(SaveProgress(AfterRound(l.db, r.row, r.outcome).value, progress), counts, last, average)
  }

  /** The rounds are those of the loop: each takes the row that the claim query selects, and has
      the outcome of that partition at that attempt. */
  ghost predicate AreRounds(start: Db, rounds: seq<Round>, run: Behaviour, maxRetries: nat)
    decreases |rounds|, 0
  {
    rounds == [] ||
    (var n := |rounds| - 1;
     && AreRounds(start, rounds[..n], run, maxRetries)
     && IsRound(LoopAfter(start, rounds[..n], run, maxRetries).db, rounds[n], run, maxRetries))
  }

  ghost predicate IsRound(db: Db, r: Round, run: Behaviour, maxRetries: nat) {
    && IsNextClaim(db.rows, maxRetries, r.row)
    && r.outcome == run(db.rows[r.row].key, db.rows[r.row].attempts + 1)
    && AfterRound(db, r.row, r.outcome).Ok?
  }

  ghost function LoopAfter(start: Db, rounds: seq<Round>, run: Behaviour, maxRetries: nat): Loop
    requires AreRounds(start, rounds, run, maxRetries)
    decreases |rounds|, 1
  {
    if rounds == [] then FirstLoop(start)
    else
      var n := |rounds| - 1;
      NextLoop(LoopAfter(start, rounds[..n], run, maxRetries), rounds[n], maxRetries)
  }

  lemma OneMoreRound(start: Db, rounds: seq<Round>, run: Behaviour, maxRetries: nat, r: Round)
    requires AreRounds(start, rounds, run, maxRetries)
    requires IsRound(LoopAfter(start, rounds, run, maxRetries).db, r, run, maxRetries)
    ensures AreRounds(start, rounds + [r], run, maxRetries)
    ensures LoopAfter(start, rounds + [r], run, maxRetries)
         == NextLoop(LoopAfter(start, rounds, run, maxRetries), r, maxRetries)
  {
    assert (rounds + [r])[..|rounds|] == rounds;
  }

  /** What the loop keeps. */
  ghost predicate LoopInvariant(start: Db, rounds: seq<Round>, l: Loop, run: Behaviour, maxRetries: nat, limit: nat) {
    && AreRounds(start, rounds, run, maxRetries)
    && l == LoopAfter(start, rounds, run, maxRetries)
    && l.counts.claims == |rounds|
    && l.db.state == start.state
    && l.db.progress.skipped == start.progress.skipped
    && HasSameKeys(start.rows, l.db.rows)
    && CountsFollowRows(start, l.db, l.counts, maxRetries, limit)
  }

  lemma RoundKeepsInvariant(start: Db, rounds: seq<Round>, l: Loop, r: Round, run: Behaviour,
                            maxRetries: nat, limit: nat, patience: nat)
    requires LoopInvariant(start, rounds, l, run, maxRetries, limit)
    requires IsNextClaim(l.db.rows, maxRetries, r.row)
    requires r.outcome == run(l.db.rows[r.row].key, l.db.rows[r.row].attempts + 1)
    requires UpstreamReadyFrom(run, start.rows, patience) && limit >= maxRetries && limit >= patience
    ensures AfterRound(l.db, r.row, r.outcome).Ok?
    ensures LoopInvariant(start, rounds + [r], NextLoop(l, r, maxRetries), run, maxRetries, limit)
    ensures Budget(NextLoop(l, r, maxRetries).db.rows, maxRetries, limit) < Budget(l.db.rows, maxRetries, limit)
  {
    hide CountsFollowRows, Budget, AreRounds, LoopAfter, AfterRound, ClaimsLeft, Classify, SaveProgress,
         Counted, Averaged;
    assert Claimable(l.db.rows[r.row], maxRetries);
    RoundKeepsCounts(start, l.db, l.counts, r.row, r.outcome, maxRetries, limit, patience);
    RoundRow(l.db, r.row, r.outcome, maxRetries, limit, patience);
    OneMoreRound(start, rounds, run, maxRetries, r);
    var after, next := AfterRound(l.db, r.row, r.outcome).value, NextLoop(l, r, maxRetries);
    NextLoopRows(l, r, maxRetries);
    SameRowsSameCounts(start, after, next.db, next.counts, maxRetries, limit);
  }

  lemma NextLoopRows(l: Loop, r: Round, maxRetries: nat)
    requires r.row < |l.db.rows| && AfterRound(l.db, r.row, r.outcome).Ok?
    ensures var after, next := AfterRound(l.db, r.row, r.outcome).value, NextLoop(l, r, maxRetries);
            && next.db.rows == after.rows && next.db.state == l.db.state
            && HasSameKeys(l.db.rows, after.rows)
            && next.db.progress.skipped == l.db.progress.skipped
            && next.counts.claims == l.counts.claims + 1
  {
  }

  lemma SameRowsSameCounts(start: Db, db: Db, db': Db, c: Counts, maxRetries: nat, limit: nat)
    requires CountsFollowRows(start, db, c, maxRetries, limit) && db.rows == db'.rows
    ensures CountsFollowRows(start, db', c, maxRetries, limit)
  {
  }

  /** The state in which the job ends. */
  function FinalState(c: Counts): JobState {
    if c.failed > 0 && c.completed == 0 then JobFailed else JobCompleted
  }

  lemma FirstLoopInvariant(start: Db, run: Behaviour, maxRetries: nat, limit: nat)
    ensures LoopInvariant(start, [], FirstLoop(start), run, maxRetries, limit)
  {
  }

  lemma InvariantMeansRun(start: Db, rounds: seq<Round>, l: Loop, run: Behaviour, maxRetries: nat, limit: nat)
    requires LoopInvariant(start, rounds, l, run, maxRetries, limit)
    ensures AreRounds(start, rounds, run, maxRetries)
    ensures l == LoopAfter(start, rounds, run, maxRetries)
  {
  }

  /** Every run of the loop keeps the invariant. */
  lemma {:induction false} RunsKeepInvariant(start: Db, rounds: seq<Round>, run: Behaviour, maxRetries: nat,
                                             limit: nat, patience: nat)
    requires AreRounds(start, rounds, run, maxRetries)
    requires UpstreamReadyFrom(run, start.rows, patience) && limit >= maxRetries && limit >= patience
    ensures LoopInvariant(start, rounds, LoopAfter(start, rounds, run, maxRetries), run, maxRetries, limit)
  {
    hide CountsFollowRows, Budget, UpstreamReadyFrom, NextLoop;
    if rounds == [] {
      FirstLoopInvariant(start, run, maxRetries, limit);
    } else {
      var n := |rounds| - 1;
      RunsKeepInvariant(start, rounds[..n], run, maxRetries, limit, patience);
      var l := LoopAfter(start, rounds[..n], run, maxRetries);
      RoundKeepsInvariant(start, rounds[..n], l, rounds[n], run, maxRetries, limit, patience);
      assert rounds == rounds[..n] + [rounds[n]];
    }
  }

  lemma {:induction false} NoRequeues(start: Db, rounds: seq<Round>, run: Behaviour, maxRetries: nat)
    requires AreRounds(start, rounds, run, maxRetries) && UpstreamReadyFrom(run, start.rows, 0)
    ensures LoopAfter(start, rounds, run, maxRetries).counts.requeues == 0
  {
    if rounds != [] {
      var n := |rounds| - 1;
      NoRequeues(start, rounds[..n], run, maxRetries);
      RunsKeepInvariant(start, rounds[..n], run, maxRetries, maxRetries, 0);
    }
  }

  /** With upstream always ready, no stale claims and counters that match the rows, no run has
      more rounds than attempts left, and one with nothing left to claim has processed every row:
      the branch for unprocessed partitions is not reached. */
  lemma UndisturbedJobIsFullyProcessed(start: Db, rounds: seq<Round>, run: Behaviour, maxRetries: nat)
    requires AreRounds(start, rounds, run, maxRetries) && UpstreamReadyFrom(run, start.rows, 0)
    requires Tally(start.rows, maxRetries, InProgress) == 0 && Discrepancy(start.progress, start.rows, maxRetries) == 0
    ensures |rounds| <= Budget(start.rows, maxRetries, maxRetries)
    ensures var l := LoopAfter(start, rounds, run, maxRetries);
            NothingToClaim(l.db.rows, maxRetries) ==>
              l.counts.completed + l.counts.failed + start.progress.skipped == |start.rows|
  {
    hide AreRounds, LoopAfter, Tally, Budget, Discrepancy, NothingToClaim;
    RunsKeepInvariant(start, rounds, run, maxRetries, maxRetries, 0);
    NoRequeues(start, rounds, run, maxRetries);
    var l := LoopAfter(start, rounds, run, maxRetries);
    if NothingToClaim(l.db.rows, maxRetries) {
      InvariantAtTheEnd(start, rounds, l, run, maxRetries, maxRetries);
    }
  }

  lemma InvariantAtTheEnd(start: Db, rounds: seq<Round>, l: Loop, run: Behaviour, maxRetries: nat, limit: nat)
    requires LoopInvariant(start, rounds, l, run, maxRetries, limit)
    requires NothingToClaim(l.db.rows, maxRetries)
    ensures l.counts.claims == |rounds| <= Budget(start.rows, maxRetries, limit)
    ensures l.counts.completed + l.counts.failed + start.progress.skipped
         == |start.rows| - Tally(start.rows, maxRetries, InProgress)
            + Discrepancy(start.progress, start.rows, maxRetries) + l.counts.requeues
  {
    CountsAddUp(start, l.db, l.counts, maxRetries, limit);
  }

  class Storage {
    var db: Db

    constructor (db: Db)
      ensures this.db == db
    {
      this.db := db;
    }

    /** The claim query: selects the next row, marks it running and counts the attempt. */
    method ClaimPendingPartition(maxRetries: nat) returns (r: Option<nat>)
      modifies this
      ensures r.None? ==> NothingToClaim(old(db).rows, maxRetries) && db == old(db)
      ensures r.Some? ==> r.value < |old(db).rows| && IsNextClaim(old(db).rows, maxRetries, r.value)
                          && db == ClaimRow(old(db), r.value)
    {
      r := None;
      for i := 0 to |db.rows|
        invariant db == old(db)
        invariant if r.Some? then IsFirstOf(db.rows, maxRetries, i, r.value) else NothingAmong(db.rows, maxRetries, i)
      {
        FirstOfMore(db.rows, maxRetries, i, r);
        if Claimable(db.rows[i], maxRetries) && (r.None? || ClaimedBefore(db.rows[i], db.rows[r.value])) {
          r := Some(i);
        }
      }
      if r.Some? {
        db := ClaimRow(db, r.value);
      }
    }

    /** One execution of a claimed partition: the stored end state, and whether the caller sees `Ok`. */
    method ExecutePartition(i: nat, run: Behaviour) returns (ok: bool, durationMs: nat)
      requires i < |db.rows| && db.rows[i].state == Running
      modifies this
      ensures var o := run(old(db).rows[i].key, old(db).rows[i].attempts);
              && Ok(db) == AfterExecution(old(db), i, o)
              && ok == ExecutionOk(o)
              && (ok ==> durationMs == o.durationMs)
    {
      var outcome := run(db.rows[i].key, db.rows[i].attempts);
      match outcome {
        case NotReady(ms) =>
          db := RequeueRow(db, i).value;
          return true, ms;
        case Succeeds(ms) =>
          db := CompleteRow(db, i).value;
          return true, ms;
        case Fails =>
          db := FailRow(db, i).value;
          return false, 0;
      }
    }

    method SaveProgress(p: Progress)
      modifies this
      ensures db == BackfillStorage.SaveProgress(old(db), p)
    {
      if db.state == JobRunning {
        db := db.(progress := p.(avgDurationMs := Coalesce(p.avgDurationMs, db.progress.avgDurationMs),
                                 checkpoint := Coalesce(p.checkpoint, db.progress.checkpoint)));
      }
    }

    method Finish(final: JobState)
      requires db.state == JobRunning
      modifies this
      ensures Ok(db) == FinishJob(old(db), final)
    {
      db := db.(state := final);
    }
  }

  class Executor {
    const storage: Storage
    const maxRetries: nat

    constructor (storage: Storage, maxRetries: nat)
      ensures this.storage == storage && this.maxRetries == maxRetries
    {
      this.storage := storage;
      this.maxRetries := maxRetries;
    }

    /** Processes a claimed job of `total` partitions until nothing is left to claim. Then the
        counts add up to the rows, off only by what the counters were off by before, by rows a
        stale claim holds, and by one for every partition put back. If they then miss the total,
        the job has unprocessed partitions, unless it failed. A job that was paused or cancelled
        before its first round is left alone. */
    method ProcessJob(total: int, run: Behaviour, ghost patience: nat) returns (r: Report, ghost rounds: seq<Round>)
      requires storage.db.state in {JobRunning, JobPaused, JobCancelled}
      requires UpstreamReadyFrom(run, storage.db.rows, patience)
      modifies storage
      ensures r.Stopped? <==> old(storage.db).state != JobRunning
      ensures r.Stopped? ==> storage.db == old(storage.db) && rounds == []
      ensures AreRounds(old(storage.db), rounds, run, maxRetries)
      ensures r.Finished? ==>
                var start, l := old(storage.db), LoopAfter(old(storage.db), rounds, run, maxRetries);
                && r.completed == l.counts.completed && r.failed == l.counts.failed
                && r.finalState == FinalState(l.counts)
                && storage.db == l.db.(state := r.finalState)
                && NothingToClaim(storage.db.rows, maxRetries)
                && |rounds| <= Budget(start.rows, maxRetries, Max(maxRetries, patience))
                && r.completed + r.failed + start.progress.skipped
                   == |start.rows| - Tally(start.rows, maxRetries, InProgress)
                      + Discrepancy(start.progress, start.rows, maxRetries) + l.counts.requeues
                && (r.unprocessed <==>
                      r.finalState != JobFailed && r.completed + r.failed + start.progress.skipped < total)
    {
      hide LoopInvariant, AreRounds, LoopAfter, IsRound, IsNextClaim, NothingToClaim, Tally, Budget,
           Discrepancy, UpstreamReadyFrom;
      ghost var start, limit := storage.db, Max(maxRetries, patience);
      var completed, failed := storage.db.progress.completed, storage.db.progress.failed;
      var skipped := storage.db.progress.skipped;
      var lastCompleted := storage.db.progress.checkpoint;
      var eta: EtaCalculator;
      if storage.db.progress.avgDurationMs.Some? {
        eta := new EtaCalculator.WithInitialAvg(0.3, storage.db.progress.avgDurationMs.value);
      } else {
        eta := new EtaCalculator(0.3);
      }
      rounds := [];
      ghost var l := FirstLoop(start);
      FirstLoopInvariant(start, run, maxRetries, limit);
      while true
        invariant LoopInvariant(start, rounds, l, run, maxRetries, limit)
        invariant storage.db == l.db && storage.db.progress.skipped == skipped
        invariant storage.db.state == start.state && (start.state != JobRunning ==> rounds == [] && storage.db == start)
        invariant completed == l.counts.completed && failed == l.counts.failed
        invariant lastCompleted == l.lastCompleted
        invariant fresh(eta) && eta.View() == l.average
        decreases Budget(storage.db.rows, maxRetries, limit)
      {
        if storage.db.state == JobCancelled {
          InvariantMeansRun(start, rounds, l, run, maxRetries, limit);
          return Stopped, rounds;
        }
        if storage.db.state == JobPaused {
          InvariantMeansRun(start, rounds, l, run, maxRetries, limit);
          return Stopped, rounds;
        }
        var claimed := storage.ClaimPendingPartition(maxRetries);
        if claimed.None? {
          break;
        }
        var i := claimed.value;
        var key, attempts := storage.db.rows[i].key, storage.db.rows[i].attempts;
        ghost var round := Round(i, run(key, attempts));
        RoundKeepsInvariant(start, rounds, l, round, run, maxRetries, limit, patience);
        l, rounds := NextLoop(l, round, maxRetries), rounds + [round];
        var ok, durationMs := storage.ExecutePartition(i, run);
        if ok {
          eta.Update(durationMs);
          completed := completed + 1;
          lastCompleted := Some(key);
        } else if attempts >= maxRetries {
          failed := failed + 1;
        }
        var average := eta.AvgDurationMs();
        storage.SaveProgress(Progress(completed, failed, skipped, Some(average), lastCompleted));
      }
      InvariantAtTheEnd(start, rounds, l, run, maxRetries, limit);
      InvariantMeansRun(start, rounds, l, run, maxRetries, limit);
      var final, unprocessed := JobCompleted, false;
      if failed > 0 && completed == 0 {
        final := JobFailed;
      } else if completed + failed + skipped < total {
        unprocessed := true;
      }
      storage.Finish(final);
      return Finished(completed, failed, unprocessed, final), rounds;
    }
  }
}
