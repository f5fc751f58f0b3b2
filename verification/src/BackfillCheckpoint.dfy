/** What a pause leaves in the job row as the checkpoint (`pause_backfill_job` of
    servo-storage/src/postgres.rs, `process_job` of servo-runtime/src/backfill_executor.rs). */
module BackfillCheckpoint {
  import opened Wrappers
  import opened Text
  import opened BackfillStorage
  import opened BackfillExecutor
  import opened BackfillProtocol

  /** The checkpoint of the job row is the partition completed last, if any is completed. */
  ghost predicate CheckpointIsCurrent(db: Db) {
    LastCompletedKey(db.rows).None? || db.progress.checkpoint == LastCompletedKey(db.rows)
  }

  ghost predicate ClockIsAhead(db: Db) {
    forall i :: 0 <= i < |db.rows| && db.rows[i].state == Completed ==> db.rows[i].completedAt < db.clock
  }

  /** A key that names only completed partitions. */
  ghost predicate NamesCompleted(rows: seq<Partition>, key: Option<string>) {
    key.Some? ==> forall i :: 0 <= i < |rows| && rows[i].key == key.value ==> rows[i].state == Completed
  }

  ghost predicate NamesUnfinished(rows: seq<Partition>, key: Option<string>) {
    exists i :: 0 <= i < |rows| && key == Some(rows[i].key) && rows[i].state != Completed
  }

  /** The rows keep their keys, and completed ones stay completed. */
  ghost predicate RowsAdvance(rows: seq<Partition>, rows': seq<Partition>) {
    && |rows'| == |rows|
    && forall i :: 0 <= i < |rows| ==>
         rows'[i].key == rows[i].key && (rows[i].state == Completed ==> rows'[i].state == Completed)
  }

  /** No two rows of the job have the same key. */
  ghost predicate DistinctKeys(rows: seq<Partition>) {
    forall i, j :: 0 <= i < j < |rows| ==> rows[i].key != rows[j].key
  }

  predicate Succeeded(e: Event) {
    e.Execute? && e.outcome.Succeeds?
  }

  function Successes(events: seq<Event>): nat {
    if events == [] then 0
    else Successes(events[..|events| - 1]) + if Succeeded(events[|events| - 1]) then 1 else 0
  }

  /** The same rows are completed, at the same times. */
  ghost predicate HaveSameCompletions(rows: seq<Partition>, rows': seq<Partition>) {
    && HasSameKeys(rows, rows')
    && forall i :: 0 <= i < |rows| ==>
         && (rows[i].state == Completed <==> rows'[i].state == Completed)
         && (rows[i].state == Completed ==> rows'[i].completedAt == rows[i].completedAt)
  }

  lemma {:induction false} LastCompletedOfSame(rows: seq<Partition>, rows': seq<Partition>, n: nat)
    requires HaveSameCompletions(rows, rows') && n <= |rows|
    ensures LastCompleted(rows', n) == LastCompleted(rows, n)
  {
    if n > 0 {
      LastCompletedOfSame(rows, rows', n - 1);
    }
  }

  lemma SameCompletionsSameKey(rows: seq<Partition>, rows': seq<Partition>)
    requires HaveSameCompletions(rows, rows')
    ensures LastCompletedKey(rows') == LastCompletedKey(rows)
    ensures forall key :: NamesCompleted(rows', key) <==> NamesCompleted(rows, key)
  {
    LastCompletedOfSame(rows, rows', |rows|);
  }

  lemma CompletionIsLast(db: Db, i: nat)
    requires i < |db.rows| && db.rows[i].state == Running && ClockIsAhead(db)
    ensures var db' := CompleteRow(db, i).value;
            LastCompletedKey(db'.rows) == Some(db.rows[i].key) && ClockIsAhead(db') && RowsAdvance(db.rows, db'.rows)
  {
    var rows := CompleteRow(db, i).value.rows;
    var last := LastCompleted(rows, |rows|);
    assert rows[i].state == Completed && rows[i].completedAt == db.clock;
    assert forall j :: 0 <= j < |rows| && j != i ==> rows[j] == db.rows[j];
    assert last.Some? && rows[last.value].completedAt >= db.clock;
  }

  /** Only an execution that succeeds completes a row. */
  lemma StepCompletes(s: System, e: Event, maxRetries: nat)
    requires Enabled(s, e, maxRetries) && ClockIsAhead(s.l.db)
    ensures var rows, db' := s.l.db.rows, Step(s, e, maxRetries).l.db;
            && ClockIsAhead(db') && RowsAdvance(rows, db'.rows)
            && (!Succeeded(e) ==> HaveSameCompletions(rows, db'.rows))
            && (Succeeded(e) ==> s.pc.Executing? && s.pc.row < |rows|
                                 && rows[s.pc.row].state == Running && db'.rows[s.pc.row].state == Completed
                                 && LastCompletedKey(db'.rows) == Some(rows[s.pc.row].key))
  {
    hide LastCompletedKey;
    if Succeeded(e) {
      CompletionIsLast(s.l.db, s.pc.row);
    }
  }

  lemma {:induction false} RunsAdvance(s: System, events: seq<Event>, maxRetries: nat)
    requires IsRun(s, events, maxRetries) && ClockIsAhead(s.l.db)
    ensures RowsAdvance(s.l.db.rows, After(s, events, maxRetries).l.db.rows)
    ensures ClockIsAhead(After(s, events, maxRetries).l.db)
  {
    if events != [] {
      hide ClockIsAhead, Enabled, Step, HaveSameCompletions;
      var n := |events| - 1;
      RunsAdvance(s, events[..n], maxRetries);
      StepCompletes(After(s, events[..n], maxRetries), events[n], maxRetries);
    }
  }

  // ----- After a pause -----

  /** The job is not taken by an executor during the events. */
  ghost predicate Untaken(events: seq<Event>) {
    forall i :: 0 <= i < |events| ==> events[i] != TakeJob
  }

  /** A job that is not running stays so until it is taken, and its progress stays as it is. */
  lemma FrozenStep(s: System, e: Event, maxRetries: nat)
    requires Enabled(s, e, maxRetries) && s.l.db.state != JobRunning && e != TakeJob
    ensures var db, db' := s.l.db, Step(s, e, maxRetries).l.db;
            db'.progress == db.progress && db'.state != JobRunning
  {
  }

  /** What happens to a job that is not running, until it is taken again: its progress is frozen,
      and the partition completed last changes exactly if an execution succeeds. */
  lemma {:induction false} FrozenRun(s: System, events: seq<Event>, maxRetries: nat)
    requires IsRun(s, events, maxRetries) && Untaken(events)
    requires s.l.db.state != JobRunning && ClockIsAhead(s.l.db)
    ensures var db, db' := s.l.db, After(s, events, maxRetries).l.db;
            && db'.state != JobRunning && db'.progress == db.progress
            && ClockIsAhead(db') && RowsAdvance(db.rows, db'.rows)
            && (if Successes(events) == 0 then LastCompletedKey(db'.rows) == LastCompletedKey(db.rows)
                else NamesUnfinished(db.rows, LastCompletedKey(db'.rows)))
  {
    hide LastCompletedKey, ClockIsAhead, Enabled, Step, HaveSameCompletions;
    if events != [] {
      var n := |events| - 1;
      FrozenRun(s, events[..n], maxRetries);
      var s' := After(s, events[..n], maxRetries);
      StepCompletes(s', events[n], maxRetries);
      FrozenStep(s', events[n], maxRetries);
      if !Succeeded(events[n]) {
        SameCompletionsSameKey(s'.l.db.rows, After(s, events, maxRetries).l.db.rows);
      }
    }
  }

  /** A pause records the partition completed last. Until the job is taken again, what it persists
      is still that exactly if no execution succeeded after the pause; or nothing was completed
      before it and the checkpoint already named the partition that then succeeded last, which
      had been put back. */
  lemma CheckpointIsCurrentIff(s: System, events: seq<Event>, maxRetries: nat)
    requires PauseJob(s.l.db).Ok? && ClockIsAhead(s.l.db) && DistinctKeys(s.l.db.rows)
    requires IsRun(Step(s, Pause, maxRetries), events, maxRetries) && Untaken(events)
    ensures var paused := Step(s, Pause, maxRetries).l.db;
            var db' := After(Step(s, Pause, maxRetries), events, maxRetries).l.db;
            && CheckpointIsCurrent(paused)
            && (CheckpointIsCurrent(db') <==>
                  Successes(events) == 0
                  || (LastCompletedKey(paused.rows).None? && paused.progress.checkpoint == LastCompletedKey(db'.rows)))
  {
    hide IsRun, After, Untaken;
    var paused := Step(s, Pause, maxRetries);
    FrozenRun(paused, events, maxRetries);
    LastCompletedIsNamed(paused.l.db.rows);
  }

  lemma LastCompletedIsNamed(rows: seq<Partition>)
    requires DistinctKeys(rows)
    ensures NamesCompleted(rows, LastCompletedKey(rows))
  {
  }

  // ----- Which partition the checkpoint names -----

  predicate PutBack(e: Event) {
    e.Execute? && e.outcome.NotReady?
  }

  datatype LastOk = NoneOk | Success | BackInQueue

  /** What the last execution that returned `Ok` did. */
  function LastOkOf(events: seq<Event>): LastOk {
    if events == [] then NoneOk
    else
      var e := events[|events| - 1];
      if Succeeded(e) then Success else if PutBack(e) then BackInQueue else LastOkOf(events[..|events| - 1])
  }

  /** Over a session the executor's checkpoint names only completed partitions exactly if the last
      execution that returned `Ok` was not one put back; before the first, if it did from the start. */
  ghost predicate NamesCompletedAsOf(s: System, events: seq<Event>, rows: seq<Partition>, key: Option<string>) {
    NamesCompleted(rows, key) <==>
      match LastOkOf(events)
      case NoneOk => NamesCompleted(s.l.db.rows, s.l.lastCompleted)
      case Success => true
      case BackInQueue => false
  }

  lemma {:induction false} SessionNamesCompletedIff(s: System, events: seq<Event>, maxRetries: nat)
    requires IsRun(s, events, maxRetries) && Untaken(events)
    requires ClockIsAhead(s.l.db) && DistinctKeys(s.l.db.rows)
    ensures var l := After(s, events, maxRetries).l;
            && NamesCompletedAsOf(s, events, l.db.rows, l.lastCompleted)
            && (LastOkOf(events) == NoneOk ==> l.lastCompleted == s.l.lastCompleted)
            && (LastOkOf(events) != NoneOk ==> l.lastCompleted.Some?)
            && DistinctKeys(l.db.rows) && ClockIsAhead(l.db)
  {
    if events != [] {
      hide ClockIsAhead, Enabled, Step, DistinctKeys, NamesCompleted, HaveSameCompletions, RowsAdvance;
      var n := |events| - 1;
      SessionNamesCompletedIff(s, events[..n], maxRetries);
      StepNames(After(s, events[..n], maxRetries), events[n], maxRetries);
    }
  }

  lemma StepNames(s: System, e: Event, maxRetries: nat)
    requires Enabled(s, e, maxRetries) && e != TakeJob && ClockIsAhead(s.l.db) && DistinctKeys(s.l.db.rows)
    ensures var l, l' := s.l, Step(s, e, maxRetries).l;
            && DistinctKeys(l'.db.rows) && ClockIsAhead(l'.db)
            && (if Succeeded(e) then l'.lastCompleted.Some? && NamesCompleted(l'.db.rows, l'.lastCompleted)
                else if PutBack(e) then l'.lastCompleted.Some? && !NamesCompleted(l'.db.rows, l'.lastCompleted)
                else l'.lastCompleted == l.lastCompleted
                     && (NamesCompleted(l'.db.rows, l'.lastCompleted) <==> NamesCompleted(l.db.rows, l.lastCompleted)))
  {
    hide ClockIsAhead, HaveSameCompletions, LastCompletedKey;
    StepCompletes(s, e, maxRetries);
    if PutBack(e) {
      assert Step(s, e, maxRetries).l.db.rows[s.pc.row].state == Pending;
    } else if !Succeeded(e) {
      SameCompletionsSameKey(s.l.db.rows, Step(s, e, maxRetries).l.db.rows);
    }
  }

  /** While the job is running its checkpoint is the executor's, but between an execution and its
      report; and the executor has one if the job row does. */
  ghost predicate CheckpointIsReported(s: System) {
    s.l.db.state == JobRunning && s.pc != Idle ==>
      && (s.pc != Reporting ==> s.l.db.progress.checkpoint == s.l.lastCompleted)
      && (s.l.lastCompleted.None? ==> s.l.db.progress.checkpoint.None?)
  }

  lemma {:induction false} RunsReportCheckpoint(s: System, events: seq<Event>, maxRetries: nat)
    requires IsRun(s, events, maxRetries) && CheckpointIsReported(s)
    ensures CheckpointIsReported(After(s, events, maxRetries))
  {
    if events != [] {
      RunsReportCheckpoint(s, events[..|events| - 1], maxRetries);
    }
  }

  /** The same of the checkpoint in the job row, whenever the executor has nothing to report. */
  lemma PersistedNamesCompletedIff(s: System, events: seq<Event>, maxRetries: nat)
    requires IsRun(s, events, maxRetries) && Untaken(events)
    requires ClockIsAhead(s.l.db) && DistinctKeys(s.l.db.rows) && CheckpointIsReported(s)
    requires var s' := After(s, events, maxRetries); s'.l.db.state == JobRunning && s'.pc !in {Idle, Reporting}
    ensures var db' := After(s, events, maxRetries).l.db;
            NamesCompletedAsOf(s, events, db'.rows, db'.progress.checkpoint)
  {
    hide NamesCompletedAsOf, ClockIsAhead, DistinctKeys;
    SessionNamesCompletedIff(s, events, maxRetries);
    RunsReportCheckpoint(s, events, maxRetries);
  }

  // ----- Whether a pause keeps the executor's checkpoint -----

  /** The executor has just taken the job, and its checkpoint is that of the job row. */
  predicate StartsSession(s: System) {
    s.l.db.state == JobRunning && s.pc == CancelCheck && s.l.db.progress.checkpoint == s.l.lastCompleted
  }

  /** While the job keeps running, the executor's checkpoint is the partition completed last once an
      execution has succeeded and none was put back since, and the persisted one stays as it was
      until some execution returns `Ok`. */
  lemma {:induction false} SessionCheckpoint(s: System, events: seq<Event>, maxRetries: nat)
    requires IsRun(s, events, maxRetries) && Untaken(events) && StartsSession(s) && ClockIsAhead(s.l.db)
    requires After(s, events, maxRetries).l.db.state == JobRunning
    ensures var l := After(s, events, maxRetries).l;
            && ClockIsAhead(l.db)
            && (LastOkOf(events) == Success ==> l.lastCompleted == LastCompletedKey(l.db.rows))
            && (LastOkOf(events) == NoneOk ==>
                  l.lastCompleted == s.l.lastCompleted && l.db.progress.checkpoint == s.l.lastCompleted)
  {
    if events != [] {
      hide LastCompletedKey, ClockIsAhead, Enabled, Step, HaveSameCompletions;
      var n := |events| - 1;
      var s' := After(s, events[..n], maxRetries);
      SessionStep(s', events[n], maxRetries);
      SessionCheckpoint(s, events[..n], maxRetries);
      StepCompletes(s', events[n], maxRetries);
      if !Succeeded(events[n]) {
        SameCompletionsSameKey(s'.l.db.rows, After(s, events, maxRetries).l.db.rows);
      }
    }
  }

  lemma SessionStep(s: System, e: Event, maxRetries: nat)
    requires Enabled(s, e, maxRetries) && e != TakeJob && Step(s, e, maxRetries).l.db.state == JobRunning
    ensures s.l.db.state == JobRunning
    ensures var l, l' := s.l, Step(s, e, maxRetries).l;
            && (l'.db.progress.checkpoint == l.db.progress.checkpoint
                || l'.db.progress.checkpoint == Coalesce(l.lastCompleted, l.db.progress.checkpoint))
            && (!Succeeded(e) && !PutBack(e) ==> l'.lastCompleted == l.lastCompleted)
            && (Succeeded(e) ==> s.pc.Executing? && s.pc.row < |l.db.rows|
                                 && l'.lastCompleted == Some(l.db.rows[s.pc.row].key))
  {
    hide IsNextClaim, NothingToClaim, LastCompletedKey;
  }

  /** The partition whose execution returned `Ok` last was not completed before. */
  lemma {:induction false} LastOkWasUnfinished(s: System, events: seq<Event>, maxRetries: nat)
    requires IsRun(s, events, maxRetries) && Untaken(events) && ClockIsAhead(s.l.db)
    ensures var last := After(s, events, maxRetries).l.lastCompleted;
            if LastOkOf(events) == NoneOk then last == s.l.lastCompleted else NamesUnfinished(s.l.db.rows, last)
  {
    if events != [] {
      hide ClockIsAhead;
      var n := |events| - 1;
      LastOkWasUnfinished(s, events[..n], maxRetries);
      RunsAdvance(s, events[..n], maxRetries);
      OkStep(s.l.db.rows, After(s, events[..n], maxRetries), events[n], maxRetries);
    }
  }

  lemma OkStep(rows: seq<Partition>, s: System, e: Event, maxRetries: nat)
    requires Enabled(s, e, maxRetries) && e != TakeJob && RowsAdvance(rows, s.l.db.rows)
    ensures var last := Step(s, e, maxRetries).l.lastCompleted;
            if Succeeded(e) || PutBack(e) then NamesUnfinished(rows, last) else last == s.l.lastCompleted
  {
    hide IsNextClaim, NothingToClaim, LastCompletedKey;
    if Succeeded(e) || PutBack(e) {
      assert rows[s.pc.row].key == s.l.db.rows[s.pc.row].key && rows[s.pc.row].state != Completed;
    }
  }

  /** From a pause until the job is taken again, the persisted checkpoint is the partition whose
      execution returned `Ok` last, as the executor has it, exactly in these cases. If none did after
      the pause: the last one in the session succeeded; or it was put back, was reported, and
      nothing is completed; or there was none, and what the session started from is the partition
      completed last, if any is. If one did after the pause: nothing was completed by then, and the
      checkpoint already named it. */
  lemma PauseKeepsExecutorsIff(s: System, events: seq<Event>, more: seq<Event>, maxRetries: nat)
    requires IsRun(s, events, maxRetries) && Untaken(events) && StartsSession(s)
    requires ClockIsAhead(s.l.db) && DistinctKeys(s.l.db.rows)
    requires Enabled(After(s, events, maxRetries), Pause, maxRetries)
    requires IsRun(Step(After(s, events, maxRetries), Pause, maxRetries), more, maxRetries) && Untaken(more)
    ensures var l := After(s, events, maxRetries).l;
            var l' := After(Step(After(s, events, maxRetries), Pause, maxRetries), more, maxRetries).l;
            var before := LastCompletedKey(l.db.rows);
            l'.db.progress.checkpoint == l'.lastCompleted <==>
              if LastOkOf(more) != NoneOk then before.None? && l.db.progress.checkpoint == l'.lastCompleted
              else match LastOkOf(events)
                   case Success => true
                   case BackInQueue => before.None? && l.db.progress.checkpoint == l.lastCompleted
                   case NoneOk => before.None? || before == s.l.lastCompleted
  {
    hide IsRun, After, Untaken, LastOkOf, LastCompletedKey, DistinctKeys, NamesCompleted;
    var s' := After(s, events, maxRetries);
    var paused := Step(s', Pause, maxRetries);
    SessionNamesCompletedIff(s, events, maxRetries);
    SessionCheckpoint(s, events, maxRetries);
    FrozenRun(paused, more, maxRetries);
    LastOkWasUnfinished(paused, more, maxRetries);
    LastCompletedIsNamed(s'.l.db.rows);
    UnfinishedIsNotNamed(s'.l.db.rows, LastCompletedKey(s'.l.db.rows));
  }

  lemma UnfinishedIsNotNamed(rows: seq<Partition>, key: Option<string>)
    requires NamesCompleted(rows, key)
    ensures !NamesUnfinished(rows, key)
  {
  }

  // ----- Runs of a new job -----

  /** A job as it is created, with nothing done. */
  ghost predicate IsNewJob(db: Db) {
    && db.state == JobPending && db.progress.checkpoint.None?
    && db.progress.completed == 0 && db.progress.failed == 0 && db.progress.skipped == 0
    && DistinctKeys(db.rows) && forall i :: 0 <= i < |db.rows| ==> db.rows[i].state == Pending
  }

  lemma NewJobRuns(db: Db, events: seq<Event>, maxRetries: nat)
    requires IsNewJob(db) && IsRun(Starting(db), events, maxRetries)
    ensures var db' := After(Starting(db), events, maxRetries).l.db; ClockIsAhead(db') && DistinctKeys(db'.rows)
  {
    RunsAdvance(Starting(db), events, maxRetries);
  }

  /** For a new job paused at any moment: until it is taken again the persisted checkpoint is the
      partition completed last exactly in the cases of `CheckpointIsCurrentIff`. */
  lemma CheckpointAfterPause(db: Db, before: seq<Event>, after: seq<Event>, maxRetries: nat)
    requires IsNewJob(db) && IsRun(Starting(db), before, maxRetries)
    requires Enabled(After(Starting(db), before, maxRetries), Pause, maxRetries)
    requires var paused := Step(After(Starting(db), before, maxRetries), Pause, maxRetries);
             IsRun(paused, after, maxRetries) && Untaken(after)
    ensures var paused := Step(After(Starting(db), before, maxRetries), Pause, maxRetries);
            var db' := After(paused, after, maxRetries).l.db;
            CheckpointIsCurrent(db') <==>
              Successes(after) == 0
              || (LastCompletedKey(paused.l.db.rows).None?
                  && paused.l.db.progress.checkpoint == LastCompletedKey(db'.rows))
  {
    hide IsRun, After, CheckpointIsCurrent, Successes, LastCompletedKey, ClockIsAhead, DistinctKeys;
    NewJobRuns(db, before, maxRetries);
    CheckpointIsCurrentIff(After(Starting(db), before, maxRetries), after, maxRetries);
  }

  ghost predicate NamesARow(rows: seq<Partition>, key: Option<string>) {
    key.Some? ==> exists i :: 0 <= i < |rows| && rows[i].key == key.value
  }

  lemma {:induction false} RunsNameRows(s: System, events: seq<Event>, maxRetries: nat)
    requires IsRun(s, events, maxRetries) && ClockIsAhead(s.l.db)
    requires NamesARow(s.l.db.rows, s.l.lastCompleted) && NamesARow(s.l.db.rows, s.l.db.progress.checkpoint)
    ensures var l := After(s, events, maxRetries).l;
            NamesARow(l.db.rows, l.lastCompleted) && NamesARow(l.db.rows, l.db.progress.checkpoint)
  {
    if events != [] {
      hide ClockIsAhead, NamesARow, HaveSameCompletions, Enabled, Step;
      var n := |events| - 1;
      RunsNameRows(s, events[..n], maxRetries);
      RunsAdvance(s, events[..n], maxRetries);
      StepNamesRows(After(s, events[..n], maxRetries), events[n], maxRetries);
    }
  }

  lemma StepNamesRows(s: System, e: Event, maxRetries: nat)
    requires Enabled(s, e, maxRetries) && ClockIsAhead(s.l.db)
    requires NamesARow(s.l.db.rows, s.l.lastCompleted) && NamesARow(s.l.db.rows, s.l.db.progress.checkpoint)
    ensures var l := Step(s, e, maxRetries).l;
            NamesARow(l.db.rows, l.lastCompleted) && NamesARow(l.db.rows, l.db.progress.checkpoint)
  {
    hide ClockIsAhead, HaveSameCompletions, NamesARow, RowsAdvance, LastCompletedKey;
    StepCompletes(s, e, maxRetries);
    var rows, rows' := s.l.db.rows, Step(s, e, maxRetries).l.db.rows;
    StillNamesARow(rows, rows', s.l.lastCompleted);
    StillNamesARow(rows, rows', s.l.db.progress.checkpoint);
    LastCompletedNamesARow(rows);
    if e.Execute? {
      RowNamesARow(rows', s.pc.row);
    }
  }

  lemma StillNamesARow(rows: seq<Partition>, rows': seq<Partition>, key: Option<string>)
    requires RowsAdvance(rows, rows') && NamesARow(rows, key)
    ensures NamesARow(rows', key)
  {
    if key.Some? {
      var i :| 0 <= i < |rows| && rows[i].key == key.value;
      assert rows'[i].key == key.value;
    }
  }

  lemma LastCompletedNamesARow(rows: seq<Partition>)
    ensures NamesARow(rows, LastCompletedKey(rows))
  {
  }

  lemma RowNamesARow(rows: seq<Partition>, i: nat)
    requires i < |rows|
    ensures NamesARow(rows, Some(rows[i].key))
  {
  }

  ghost predicate NamesOnlyCompleted(s: System) {
    NamesCompleted(s.l.db.rows, s.l.db.progress.checkpoint) && NamesCompleted(s.l.db.rows, s.l.lastCompleted)
  }

  lemma StepNamesOnlyCompleted(s: System, e: Event, maxRetries: nat)
    requires Enabled(s, e, maxRetries) && ClockIsAhead(s.l.db) && DistinctKeys(s.l.db.rows)
    requires NamesOnlyCompleted(s) && !PutBack(e)
    ensures NamesOnlyCompleted(Step(s, e, maxRetries))
    ensures ClockIsAhead(Step(s, e, maxRetries).l.db) && DistinctKeys(Step(s, e, maxRetries).l.db.rows)
  {
    hide ClockIsAhead, HaveSameCompletions, LastCompletedKey;
    StepCompletes(s, e, maxRetries);
    LastCompletedIsNamed(s.l.db.rows);
  }

  /** If no partition is put back, no checkpoint ever names an unfinished one. */
  lemma {:induction false} RunsNameOnlyCompleted(s: System, events: seq<Event>, maxRetries: nat)
    requires IsRun(s, events, maxRetries) && NamesOnlyCompleted(s) && ClockIsAhead(s.l.db) && DistinctKeys(s.l.db.rows)
    requires forall i :: 0 <= i < |events| ==> !PutBack(events[i])
    ensures var s' := After(s, events, maxRetries);
            NamesOnlyCompleted(s') && ClockIsAhead(s'.l.db) && DistinctKeys(s'.l.db.rows)
  {
    if events != [] {
      hide NamesOnlyCompleted, ClockIsAhead, DistinctKeys, Enabled, Step;
      var n := |events| - 1;
      RunsNameOnlyCompleted(s, events[..n], maxRetries);
      StepNamesOnlyCompleted(After(s, events[..n], maxRetries), events[n], maxRetries);
    }
  }

  /** Pausing a new job leaves a checkpoint that names only completed partitions exactly if some
      partition is completed or there was no checkpoint. With nothing completed, a checkpoint is a
      partition put back. */
  lemma PauseNamesCompletedIff(db: Db, before: seq<Event>, maxRetries: nat)
    requires IsNewJob(db) && IsRun(Starting(db), before, maxRetries)
    requires Enabled(After(Starting(db), before, maxRetries), Pause, maxRetries)
    ensures var s := After(Starting(db), before, maxRetries);
            var paused := Step(s, Pause, maxRetries).l.db;
            NamesCompleted(paused.rows, paused.progress.checkpoint) <==>
              LastCompletedKey(s.l.db.rows).Some? || s.l.db.progress.checkpoint.None?
    ensures var db' := After(Starting(db), before, maxRetries).l.db;
            LastCompletedKey(db'.rows).None? && db'.progress.checkpoint.Some? ==>
              exists i :: 0 <= i < |before| && PutBack(before[i])
  {
    hide IsRun, After;
    NewJobRuns(db, before, maxRetries);
    if forall i :: 0 <= i < |before| ==> !PutBack(before[i]) {
      RunsNameOnlyCompleted(Starting(db), before, maxRetries);
    }
    RunsNameRows(Starting(db), before, maxRetries);
    LastCompletedIsNamed(After(Starting(db), before, maxRetries).l.db.rows);
  }

  // ----- What does not hold -----

  lemma FirstLoopOf(db: Db, rows: seq<Partition>)
    ensures FirstLoop(db).db == db && FirstLoop(db.(rows := rows)) == FirstLoop(db).(db := db.(rows := rows))
  {
  }

  /** A pending job of one partition, claimed, and its partition claimed. */
  lemma OneClaimed() returns (db: Db, events: seq<Event>)
    ensures IsNewJob(db) && IsRun(Starting(db), events, 3)
    ensures forall i :: 0 <= i < |events| ==> !PutBack(events[i])
    ensures After(Starting(db), events, 3)
         == System(FirstLoop(db.(state := JobRunning, rows := [Partition("a", Running, 1, 0)])), Executing(0))
    ensures db.progress == Progress(0, 0, 0, None, None) && db.rows == [Partition("a", Pending, 0, 0)]
  {
    hide IsRun, After, LastCompletedKey, FirstLoop;
    db := Db(JobPending, Progress(0, 0, 0, None, None), [Partition("a", Pending, 0, 0)], 1);
    events := TakeAndCheck(db, 3);
    LessIrreflexive("a");
    FirstLoopOf(db.(state := JobRunning), [Partition("a", Running, 1, 0)]);
    events := Extend(Starting(db), events, Claim(0), 3);
  }

  /** The checkpoint is not always the last partition whose execution returned `Ok`: one that
      completes after the pause is missing from the job row when the executor has stopped. */
  lemma CompletionAfterPauseIsLost() returns (db: Db, before: seq<Event>, after: seq<Event>)
    ensures IsNewJob(db) && IsRun(Starting(db), before, 3) && Enabled(After(Starting(db), before, 3), Pause, 3)
    ensures var paused := Step(After(Starting(db), before, 3), Pause, 3);
            && IsRun(paused, after, 3)
            && var s := After(paused, after, 3);
               && s.pc == Idle && s.l.db.state == JobPaused
               && s.l.lastCompleted == Some("a") && s.l.db.progress.checkpoint == None
               && LastCompletedKey(s.l.db.rows) == Some("a")
  {
    hide IsRun, After;
    db, before := OneClaimed();
    LastOfOne(Partition("a", Running, 1, 0));
    LastOfOne(Partition("a", Completed, 1, db.clock));
    after := CompleteAndStop(Step(After(Starting(db), before, 3), Pause, 3));
  }

  lemma LastOfOne(p: Partition)
    ensures LastCompletedKey([p]) == if p.state == Completed then Some(p.key) else None
  {
  }

  /** The partition completes, its end is reported, and the executor finds the job paused. */
  lemma CompleteAndStop(paused: System) returns (after: seq<Event>)
    requires paused.pc == Executing(0) && paused.l.db.state == JobPaused
    requires paused.l.db.rows == [Partition("a", Running, 1, 0)]
    ensures IsRun(paused, after, 3)
    ensures var s, db := After(paused, after, 3), paused.l.db;
            && s.pc == Idle && s.l.lastCompleted == Some("a") && s.l.db.state == JobPaused
            && s.l.db.progress == db.progress && s.l.db.rows == [Partition("a", Completed, 1, db.clock)]
  {
    hide IsRun, After, LastCompletedKey, IsNextClaim, NothingToClaim;
    NoEvents(paused, 3);
    after := Extend(paused, [], Execute(Succeeds(5)), 3);
    assert After(paused, after, 3).l.db.rows == [Partition("a", Completed, 1, paused.l.db.clock)];
    after := Extend(paused, after, Report, 3);
    after := Extend(paused, after, CheckCancelled, 3);
    after := Extend(paused, after, CheckPaused, 3);
  }

  /** A partition put back is recorded as the checkpoint though it is still pending. */
  lemma PutBackIsRecorded() returns (db: Db, events: seq<Event>)
    ensures IsNewJob(db) && IsRun(Starting(db), events, 3)
    ensures var s := After(Starting(db), events, 3);
            s.l.db.progress.checkpoint == Some("a") && s.l.db.progress.completed == 1
            && s.l.db.rows == [Partition("a", Pending, 1, 0)]
  {
    db, events := OneClaimed();
    events := Extend(Starting(db), events, Execute(NotReady(5)), 3);
    events := Extend(Starting(db), events, Report, 3);
  }
}
