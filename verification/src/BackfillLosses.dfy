/** How much a pause can lose: runs in which the job is paused and resumed, or paused and stopped, at
    an unlucky moment (servo-runtime/src/backfill_executor.rs, servo-storage/src/postgres.rs). */
module BackfillLosses {
  import opened Wrappers
  import opened Text
  import opened BackfillStorage
  import opened BackfillExecutor
  import opened BackfillProtocol
  import opened BackfillCheckpoint
  import opened BackfillCounters

  // ----- A pause the executor does not notice -----

  ghost predicate IsUnheard(s: System, progress: Progress) {
    && s.pc == Claiming && s.l.db.state == JobResuming && s.l.db.progress == progress
    && forall i :: 0 <= i < |s.l.db.rows| ==> s.l.db.rows[i].state in {Pending, Completed}
  }

  /** With the job resuming a partition is completed, and the report has no effect. */
  lemma OneUnheard(s: System, progress: Progress, maxRetries: nat, row: nat) returns (events: seq<Event>)
    requires IsUnheard(s, progress) && IsNextClaim(s.l.db.rows, maxRetries, row)
    ensures IsRun(s, events, maxRetries) && IsUnheard(After(s, events, maxRetries), progress)
    ensures var rows' := After(s, events, maxRetries).l.db.rows;
            && row < |s.l.db.rows| == |rows'|
            && rows' == s.l.db.rows[row := rows'[row]] && rows'[row].state == Completed
  {
    events := Extend(s, [], Claim(row), maxRetries);
    events := Extend(s, events, Execute(Succeeds(0)), maxRetries);
    events := Extend(s, events, Report, maxRetries);
    events := Extend(s, events, CheckCancelled, maxRetries);
    events := Extend(s, events, CheckPaused, maxRetries);
  }

  lemma {:induction false} PendingAfterUpdate(rows: seq<Partition>, i: nat, p: Partition)
    requires i < |rows| && rows[i].state == Pending && p.state != Pending
    ensures PendingRows(rows[i := p]) == PendingRows(rows) - 1
  {
    var n := |rows| - 1;
    if i < n {
      PendingAfterUpdate(rows[..n], i, p);
      assert rows[i := p][..n] == rows[..n][i := p];
    } else {
      assert rows[i := p][..n] == rows[..n];
    }
  }

  /** From there on every partition that is left is completed unheard. */
  lemma {:induction false} AllUnheard(s: System, progress: Progress, maxRetries: nat) returns (events: seq<Event>)
    requires IsUnheard(s, progress)
    ensures IsRun(s, events, maxRetries) && IsUnheard(After(s, events, maxRetries), progress)
    ensures NothingToClaim(After(s, events, maxRetries).l.db.rows, maxRetries)
    decreases PendingRows(s.l.db.rows)
  {
    var found := FindNextClaim(s.l.db.rows, maxRetries, |s.l.db.rows|);
    if found.None? {
      events := [];
    } else {
      hide IsRun, After, IsFirstOf, NothingToClaim, NothingAmong;
      ClaimsPending(s.l.db.rows, maxRetries, found.value);
      var first := OneUnheard(s, progress, maxRetries, found.value);
      var s' := After(s, first, maxRetries);
      PendingAfterUpdate(s.l.db.rows, found.value, s'.l.db.rows[found.value]);
      var rest := AllUnheard(s', progress, maxRetries);
      Concat(s, first, rest, maxRetries);
      events := first + rest;
    }
  }

  lemma ClaimsPending(rows: seq<Partition>, maxRetries: nat, row: nat)
    requires IsNextClaim(rows, maxRetries, row)
    requires forall i :: 0 <= i < |rows| ==> rows[i].state in {Pending, Completed}
    ensures row < |rows| && rows[row].state == Pending
  {
  }

  /** Every new job, however many partitions it has, can be completed without a single one being
      counted: it is paused and resumed between the executor's checks and its first claim. */
  lemma WholeJobUnheard(db: Db, maxRetries: nat) returns (events: seq<Event>)
    requires IsNewJob(db)
    ensures IsRun(Starting(db), events, maxRetries)
    ensures var s := After(Starting(db), events, maxRetries);
            && s.pc == Idle && s.l.db.state == JobResuming && s.l.db.progress == db.progress
            && |s.l.db.rows| == |db.rows|
            && forall i :: 0 <= i < |db.rows| ==> s.l.db.rows[i].state == Completed
  {
    var start := Starting(db);
    var before := ResumedUnnoticed(db, maxRetries);
    var s := After(start, before, maxRetries);
    var work := AllUnheard(s, s.l.db.progress, maxRetries);
    Concat(start, before, work, maxRetries);
    events := Extend(start, before + work, FindNothing, maxRetries);
    events := Extend(start, events, Finish, maxRetries);
    RunsAdvance(start, before + work, maxRetries);
  }

  lemma ResumedUnnoticed(db: Db, maxRetries: nat) returns (events: seq<Event>)
    requires IsNewJob(db)
    ensures IsRun(Starting(db), events, maxRetries)
    ensures IsUnheard(After(Starting(db), events, maxRetries), db.progress)
  {
    var start := Starting(db);
    events := TakeAndCheck(db, maxRetries);
    NoneCompleted(db.rows, |db.rows|);
    events := Extend(start, events, Pause, maxRetries);
    events := Extend(start, events, Resume, maxRetries);
  }

  // ----- A completion that is lost -----

  function PartitionA(state: PartitionState, attempts: nat, completedAt: nat): Partition {
    Partition("a", state, attempts, completedAt)
  }

  function PartitionB(state: PartitionState, attempts: nat): Partition {
    Partition("b", state, attempts, 0)
  }

  /** Partition a is completed while the job is paused, and the executor stops. */
  lemma LostCompletion() returns (db: Db, events: seq<Event>)
    ensures IsNewJob(db) && IsRun(Starting(db), events, 1)
    ensures var s := After(Starting(db), events, 1);
            && s.pc == Idle && s.l.db.state == JobPaused && s.l.db.progress == Progress(0, 0, 0, None, None)
            && s.l.db.rows == [PartitionA(Completed, 1, 1), PartitionB(Pending, 0)]
  {
    var a, b := PartitionA(Pending, 0, 0), PartitionB(Pending, 0);
    db := Db(JobPending, Progress(0, 0, 0, None, None), [a, b], 1);
    var start := Starting(db);
    var before := ClaimedA(db);
    var s := After(start, before, 1);
    NoneCompleted(s.l.db.rows, 2);
    before := Extend(start, before, Pause, 1);
    s := After(start, before, 1);
    var after := CompletesA(s);
    Concat(start, before, after, 1);
    events := before + after;
  }

  lemma NoneCompleted(rows: seq<Partition>, n: nat)
    requires n <= |rows| && forall i :: 0 <= i < |rows| ==> rows[i].state != Completed
    ensures LastCompleted(rows, n) == None
  {
  }

  lemma CompletesA(s: System) returns (events: seq<Event>)
    requires s.pc == Executing(0) && s.l.db.state == JobPaused && s.l.db.clock == 1
    requires s.l.db.rows == [PartitionA(Running, 1, 0), PartitionB(Pending, 0)]
    ensures IsRun(s, events, 1)
    ensures var s' := After(s, events, 1);
            && s'.pc == Idle && s'.l.db.state == JobPaused && s'.l.db.progress == s.l.db.progress
            && s'.l.db.rows == [PartitionA(Completed, 1, 1), PartitionB(Pending, 0)]
  {
    events := Extend(s, [], Execute(Succeeds(5)), 1);
    assert After(s, events, 1).l.db.rows == [PartitionA(Completed, 1, 1), PartitionB(Pending, 0)];
    events := Extend(s, events, Report, 1);
    events := Extend(s, events, CheckCancelled, 1);
    events := Extend(s, events, CheckPaused, 1);
  }

  lemma AIsNext()
    ensures IsNextClaim([PartitionA(Pending, 0, 0), PartitionB(Pending, 0)], 1, 0)
  {
    LessIrreflexive("a");
    assert Less("a", "b") && !Less("b", "a");
  }

  lemma ClaimedA(db: Db) returns (events: seq<Event>)
    requires db == Db(JobPending, Progress(0, 0, 0, None, None), [PartitionA(Pending, 0, 0), PartitionB(Pending, 0)], 1)
    ensures IsRun(Starting(db), events, 1)
    ensures After(Starting(db), events, 1)
         == System(FirstLoop(db.(state := JobRunning)).(db := db.(state := JobRunning,
                     rows := [PartitionA(Running, 1, 0), PartitionB(Pending, 0)])), Executing(0))
  {
    var start := Starting(db);
    events := TakeAndCheck(db, 1);
    AIsNext();
    events := Extend(start, events, Claim(0), 1);
  }

  /** Resumed, the job ends as failed though partition a is completed: its count was lost, and
      partition b fails. */
  lemma LostCompletionFailsJob() returns (db: Db, events: seq<Event>)
    ensures IsNewJob(db) && IsRun(Starting(db), events, 1)
    ensures var db' := After(Starting(db), events, 1).l.db;
            db'.state == JobFailed && db'.rows == [PartitionA(Completed, 1, 1), PartitionB(Failed, 1)]
  {
    var before;
    db, before := LostCompletion();
    var s := After(Starting(db), before, 1);
    var more := FailsB(s);
    Concat(Starting(db), before, more, 1);
    events := before + more;
  }

  lemma FailsB(s: System) returns (events: seq<Event>)
    requires s.pc == Idle && s.l.db.state == JobPaused && s.l.db.progress == Progress(0, 0, 0, None, None)
    requires s.l.db.rows == [PartitionA(Completed, 1, 1), PartitionB(Pending, 0)]
    ensures IsRun(s, events, 1)
    ensures var db' := After(s, events, 1).l.db;
            db'.state == JobFailed && db'.rows == [PartitionA(Completed, 1, 1), PartitionB(Failed, 1)]
  {
    var first := ClaimsB(s);
    var s' := After(s, first, 1);
    var rest := FinishesFailed(s');
    Concat(s, first, rest, 1);
    events := first + rest;
  }

  lemma ClaimsB(s: System) returns (events: seq<Event>)
    requires s.pc == Idle && s.l.db.state == JobPaused && s.l.db.progress == Progress(0, 0, 0, None, None)
    requires s.l.db.rows == [PartitionA(Completed, 1, 1), PartitionB(Pending, 0)]
    ensures IsRun(s, events, 1)
    ensures var s' := After(s, events, 1);
            && s'.pc == Executing(1) && s'.l.db.state == JobRunning && s'.l.counts == Counts(0, 0, 0, 0)
            && s'.l.db.rows == [PartitionA(Completed, 1, 1), PartitionB(Running, 1)]
  {
    events := Extend(s, [], Resume, 1);
    events := Extend(s, events, TakeJob, 1);
    events := Extend(s, events, CheckCancelled, 1);
    events := Extend(s, events, CheckPaused, 1);
    LessIrreflexive("b");
    events := Extend(s, events, Claim(1), 1);
    assert After(s, events, 1).l.db.rows == [PartitionA(Completed, 1, 1), PartitionB(Running, 1)];
  }

  lemma ReportsFailure(s: System) returns (events: seq<Event>)
    requires s.pc == Executing(1) && s.l.db.state == JobRunning && s.l.counts == Counts(0, 0, 0, 0)
    requires s.l.db.rows == [PartitionA(Completed, 1, 1), PartitionB(Running, 1)]
    ensures IsRun(s, events, 1)
    ensures var s' := After(s, events, 1);
            && s'.pc == CancelCheck && s'.l.db.state == JobRunning && s'.l.counts == Counts(0, 1, 1, 0)
            && s'.l.db.rows == [PartitionA(Completed, 1, 1), PartitionB(Failed, 1)]
  {
    events := Extend(s, [], Execute(Fails), 1);
    assert After(s, events, 1).l.db.rows == [PartitionA(Completed, 1, 1), PartitionB(Failed, 1)];
    events := Extend(s, events, Report, 1);
  }

  lemma FinishesFailed(s: System) returns (events: seq<Event>)
    requires s.pc == Executing(1) && s.l.db.state == JobRunning && s.l.counts == Counts(0, 0, 0, 0)
    requires s.l.db.rows == [PartitionA(Completed, 1, 1), PartitionB(Running, 1)]
    ensures IsRun(s, events, 1)
    ensures var db' := After(s, events, 1).l.db;
            db'.state == JobFailed && db'.rows == [PartitionA(Completed, 1, 1), PartitionB(Failed, 1)]
  {
    events := ReportsFailure(s);
    events := Extend(s, events, CheckCancelled, 1);
    events := Extend(s, events, CheckPaused, 1);
    events := Extend(s, events, FindNothing, 1);
    events := Extend(s, events, Finish, 1);
  }
}
