/** The backfill job row and its partition rows, and the SQL statements that the executor and
    the user run on them (servo-storage/src/postgres.rs). Each statement is one transaction. */
module BackfillStorage {
  import opened Wrappers
  import opened Text

  datatype PartitionState = Pending | Running | Completed | Failed | Skipped

  /** `completedAt` orders the completions; the clock ticks at each of them. */
  datatype Partition = Partition(key: string, state: PartitionState, attempts: nat, completedAt: nat)

  datatype JobState = JobPending | JobRunning | JobPaused | JobResuming | JobCompleted | JobFailed | JobCancelled

  datatype Progress = Progress(
    completed: int,
    failed: int,
    skipped: int,
    avgDurationMs: Option<int>,
    checkpoint: Option<string>)

  datatype Db = Db(state: JobState, progress: Progress, rows: seq<Partition>, clock: nat)

  datatype StorageError = NotFound | InvalidTransition

  function Coalesce<T>(a: Option<T>, b: Option<T>): Option<T> {
    if a.Some? then a else b
  }

  // ----- Claiming -----

  predicate Claimable(p: Partition, maxRetries: nat) {
    p.state == Pending || (p.state == Failed && p.attempts < maxRetries)
  }

  /** Pending rows come before failed ones, then the smaller key. */
  predicate ClaimedBefore(p: Partition, q: Partition) {
    (p.state == Pending && q.state != Pending) || (p.state == q.state && Less(p.key, q.key))
  }

  /** Of the first `n` rows, row `i` is one that the claim query puts first. */
  ghost predicate IsFirstOf(rows: seq<Partition>, maxRetries: nat, n: nat, i: nat)
    requires n <= |rows|
  {
    && i < n
    && Claimable(rows[i], maxRetries)
    && forall j :: 0 <= j < n && Claimable(rows[j], maxRetries) ==> !ClaimedBefore(rows[j], rows[i])
  }

  /** Row `i` is the one that the claim query selects. */
  ghost predicate IsNextClaim(rows: seq<Partition>, maxRetries: nat, i: nat) {
    IsFirstOf(rows, maxRetries, |rows|, i)
  }

  ghost predicate NothingAmong(rows: seq<Partition>, maxRetries: nat, n: nat)
    requires n <= |rows|
  {
    forall j :: 0 <= j < n ==> !Claimable(rows[j], maxRetries)
  }

  /** Looking at one more row keeps the first one found, or takes the new row in its place. */
  lemma FirstOfMore(rows: seq<Partition>, maxRetries: nat, n: nat, found: Option<nat>)
    requires n < |rows|
    requires if found.Some? then IsFirstOf(rows, maxRetries, n, found.value) else NothingAmong(rows, maxRetries, n)
    ensures var better := Claimable(rows[n], maxRetries) && (found.None? || ClaimedBefore(rows[n], rows[found.value]));
            if better then IsFirstOf(rows, maxRetries, n + 1, n)
            else if found.Some? then IsFirstOf(rows, maxRetries, n + 1, found.value)
            else NothingAmong(rows, maxRetries, n + 1)
  {
    hide Less;
    if Claimable(rows[n], maxRetries) && (found.None? || ClaimedBefore(rows[n], rows[found.value])) {
      forall j | 0 <= j <= n && Claimable(rows[j], maxRetries) ensures !ClaimedBefore(rows[j], rows[n]) {
        LessIrreflexive(rows[n].key);
        if found.Some? && j < n {
          if Less(rows[n].key, rows[found.value].key) {
            LessAsymmetric(rows[n].key, rows[found.value].key);
          }
          if !Less(rows[j].key, rows[found.value].key) && !Less(rows[found.value].key, rows[n].key) {
            LessTransitive(rows[n].key, rows[found.value].key, rows[j].key);
          }
        }
      }
    }
  }

  /** There is a row to claim whenever a row is claimable. */
  lemma {:induction false} FindNextClaim(rows: seq<Partition>, maxRetries: nat, n: nat) returns (found: Option<nat>)
    requires n <= |rows|
    ensures if found.Some? then IsFirstOf(rows, maxRetries, n, found.value) else NothingAmong(rows, maxRetries, n)
  {
    if n == 0 {
      found := None;
    } else {
      found := FindNextClaim(rows, maxRetries, n - 1);
      FirstOfMore(rows, maxRetries, n - 1, found);
      if Claimable(rows[n - 1], maxRetries) && (found.None? || ClaimedBefore(rows[n - 1], rows[found.value])) {
        found := Some(n - 1);
      }
    }
  }

  /** The claim query takes a pending row if there is one, and otherwise a failed one with a retry left,
      and of those the one with the least key. */
  lemma NextClaimIff(rows: seq<Partition>, maxRetries: nat, i: nat)
    ensures IsNextClaim(rows, maxRetries, i) <==>
              && i < |rows|
              && (if exists j :: 0 <= j < |rows| && rows[j].state == Pending then rows[i].state == Pending
                  else rows[i].state == Failed && rows[i].attempts < maxRetries)
              && (forall j :: 0 <= j < |rows| && rows[j].state == rows[i].state
                              && (rows[j].state == Failed ==> rows[j].attempts < maxRetries)
                    ==> !Less(rows[j].key, rows[i].key))
  {
    hide Less;
  }

  ghost predicate NothingToClaim(rows: seq<Partition>, maxRetries: nat) {
    forall i :: 0 <= i < |rows| ==> !Claimable(rows[i], maxRetries)
  }

  function ClaimRow(db: Db, i: nat): Db
    requires i < |db.rows|
  {
    db.(rows := db.rows[i := db.rows[i].(state := Running, attempts := db.rows[i].attempts + 1)])
  }

  // ----- The end of an execution -----

  function CompleteRow(db: Db, i: nat): Result<Db, StorageError>
    requires i < |db.rows|
  {
    if db.rows[i].state != Running then Err(NotFound)
    else Ok(db.(rows := db.rows[i := db.rows[i].(state := Completed, completedAt := db.clock)], clock := db.clock + 1))
  }

  function FailRow(db: Db, i: nat): Result<Db, StorageError>
    requires i < |db.rows|
  {
    if db.rows[i].state != Running then Err(NotFound)
    else Ok(db.(rows := db.rows[i := db.rows[i].(state := Failed)]))
  }

  /** Back to pending, keeping the attempt count. */
  function RequeueRow(db: Db, i: nat): Result<Db, StorageError>
    requires i < |db.rows|
  {
    if db.rows[i].state != Running then Err(NotFound)
    else Ok(db.(rows := db.rows[i := db.rows[i].(state := Pending)]))
  }

  // ----- The job row -----

  /** Progress is written only while the job is running. */
  function SaveProgress(db: Db, p: Progress): Db {
    if db.state == JobRunning then
      db.(progress := p.(avgDurationMs := Coalesce(p.avgDurationMs, db.progress.avgDurationMs),
                         checkpoint := Coalesce(p.checkpoint, db.progress.checkpoint)))
    else db
  }

  /** The row completed last, of the first `n`. */
  function LastCompleted(rows: seq<Partition>, n: nat): (r: Option<nat>)
    requires n <= |rows|
    ensures r.Some? ==> r.value < n && rows[r.value].state == Completed
    ensures r.Some? ==>
              forall i :: 0 <= i < n && rows[i].state == Completed ==> rows[i].completedAt <= rows[r.value].completedAt
    ensures r.None? ==> forall i :: 0 <= i < n ==> rows[i].state != Completed
  {
    if n == 0 then None
    else
      var before := LastCompleted(rows, n - 1);
      if rows[n - 1].state == Completed && (before.None? || rows[before.value].completedAt <= rows[n - 1].completedAt)
      then Some(n - 1) else before
  }

  /** The key of the partition completed last. */
  function LastCompletedKey(rows: seq<Partition>): Option<string> {
    match LastCompleted(rows, |rows|)
    case Some(i) => Some(rows[i].key)
    case None => None
  }

  /** A pause records the partition completed last as the checkpoint. */
  function PauseJob(db: Db): Result<Db, StorageError> {
    if db.state != JobRunning then Err(InvalidTransition)
    else Ok(db.(state := JobPaused,
                progress := db.progress.(checkpoint := Coalesce(LastCompletedKey(db.rows), db.progress.checkpoint))))
  }

  function ResumeJob(db: Db): Result<Db, StorageError> {
    if db.state != JobPaused then Err(InvalidTransition) else Ok(db.(state := JobResuming))
  }

  function SkipPending(rows: seq<Partition>): (r: seq<Partition>)
    ensures |r| == |rows|
    ensures forall i :: 0 <= i < |rows| ==>
              r[i] == if rows[i].state == Pending then rows[i].(state := Skipped) else rows[i]
  {
    if rows == [] then []
    else
      var last := rows[|rows| - 1];
      SkipPending(rows[..|rows| - 1]) + [if last.state == Pending then last.(state := Skipped) else last]
  }

  /** A cancellation also skips the pending partitions. */
  function CancelJob(db: Db): Result<Db, StorageError> {
    if db.state in {JobPending, JobRunning, JobPaused, JobResuming}
    then Ok(db.(state := JobCancelled, rows := SkipPending(db.rows)))
    else Err(InvalidTransition)
  }

  /** A job that is pending or resuming is claimed by an executor. */
  function ClaimJob(db: Db): Result<Db, StorageError> {
    if db.state == JobPending || db.state == JobResuming then Ok(db.(state := JobRunning)) else Err(NotFound)
  }

  /** The transition from running to a final state. */
  function FinishJob(db: Db, final: JobState): Result<Db, StorageError> {
    if db.state == JobRunning then Ok(db.(state := final)) else Err(NotFound)
  }

  // ----- Counting rows -----

  /** What a row means for the job: to be claimed, claimed, done, given up, or skipped. */
  datatype Class = ToDo | InProgress | Done | GivenUp | Omitted

  function Classify(p: Partition, maxRetries: nat): Class {
    match p.state
    case Pending => ToDo
    case Running => InProgress
    case Completed => Done
    case Failed => if p.attempts < maxRetries then ToDo else GivenUp
    case Skipped => Omitted
  }

  function Tally(rows: seq<Partition>, maxRetries: nat, c: Class): nat {
    if rows == [] then 0
    else Tally(rows[..|rows| - 1], maxRetries, c) + if Classify(rows[|rows| - 1], maxRetries) == c then 1 else 0
  }

  lemma {:induction false} TallyAfterUpdate(rows: seq<Partition>, maxRetries: nat, c: Class, i: nat, p: Partition)
    requires i < |rows|
    ensures Tally(rows[i := p], maxRetries, c)
         == Tally(rows, maxRetries, c) - (if Classify(rows[i], maxRetries) == c then 1 else 0)
            + (if Classify(p, maxRetries) == c then 1 else 0)
  {
    var n := |rows| - 1;
    if i < n {
      TallyAfterUpdate(rows[..n], maxRetries, c, i, p);
      assert rows[i := p][..n] == rows[..n][i := p];
    } else {
      assert rows[i := p][..n] == rows[..n];
    }
  }

  /** Every row is in exactly one class. */
  lemma {:induction false} TalliesFillTheTable(rows: seq<Partition>, maxRetries: nat)
    ensures Tally(rows, maxRetries, ToDo) + Tally(rows, maxRetries, InProgress) + Tally(rows, maxRetries, Done)
            + Tally(rows, maxRetries, GivenUp) + Tally(rows, maxRetries, Omitted) == |rows|
  {
    if rows != [] {
      TalliesFillTheTable(rows[..|rows| - 1], maxRetries);
    }
  }

  lemma {:induction false} NothingToClaimTally(rows: seq<Partition>, maxRetries: nat)
    ensures NothingToClaim(rows, maxRetries) <==> Tally(rows, maxRetries, ToDo) == 0
  {
    if rows != [] {
      var n := |rows| - 1;
      NothingToClaimTally(rows[..n], maxRetries);
      assert forall i :: 0 <= i < n ==> rows[i] == rows[..n][i];
      assert Claimable(rows[n], maxRetries) <==> Classify(rows[n], maxRetries) == ToDo;
    }
  }

  // ----- How many claims can follow -----

  /** The most often a row can still be claimed, if every execution from attempt `limit` on
      neither fails retryably nor is put back. */
  function ClaimsLeft(p: Partition, maxRetries: nat, limit: nat): nat {
    if !Claimable(p, maxRetries) then 0
    else if p.attempts < limit then limit - p.attempts else 1
  }

  function Budget(rows: seq<Partition>, maxRetries: nat, limit: nat): nat {
    if rows == [] then 0
    else Budget(rows[..|rows| - 1], maxRetries, limit) + ClaimsLeft(rows[|rows| - 1], maxRetries, limit)
  }

  lemma {:induction false} BudgetAfterUpdate(rows: seq<Partition>, maxRetries: nat, limit: nat, i: nat, p: Partition)
    requires i < |rows|
    ensures Budget(rows[i := p], maxRetries, limit)
         == Budget(rows, maxRetries, limit) - ClaimsLeft(rows[i], maxRetries, limit) + ClaimsLeft(p, maxRetries, limit)
  {
    var n := |rows| - 1;
    if i < n {
      BudgetAfterUpdate(rows[..n], maxRetries, limit, i, p);
      assert rows[i := p][..n] == rows[..n][i := p];
    } else {
      assert rows[i := p][..n] == rows[..n];
    }
  }
}
