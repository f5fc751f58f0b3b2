/** When a job that is paused or cancelled sees two more of its partitions claimed
    (`process_job` of servo-runtime/src/backfill_executor.rs). */
module BackfillClaims {
  import opened Wrappers
  import opened Text
  import opened BackfillStorage
  import opened BackfillExecutor
  import opened BackfillProtocol

  /** A run along which the job is paused or cancelled. */
  ghost predicate IsFlagged(s: System, events: seq<Event>, maxRetries: nat) {
    IsRun(s, events, maxRetries) && Stays(s, events, {JobPaused, JobCancelled}, maxRetries)
  }

  /** In some run two partitions are claimed while the job is paused or cancelled. */
  ghost predicate CanClaimTwice(s: System, maxRetries: nat) {
    exists events :: IsFlagged(s, events, maxRetries) && Claims(events) == 2
  }

  /** After a failed execution of row `r` row `q` can be retried. */
  predicate IsRetry(rows: seq<Partition>, maxRetries: nat, r: nat, q: nat)
    requires r < |rows| && q < |rows|
  {
    if q == r then rows[r].attempts + 1 < maxRetries
    else rows[q].state == Failed && rows[q].attempts < maxRetries
  }

  ghost predicate HasRetry(rows: seq<Partition>, maxRetries: nat) {
    exists r, q :: IsNextClaim(rows, maxRetries, r) && 0 <= q < |rows| && IsRetry(rows, maxRetries, r, q)
  }

  /** The executor is past both checks of a job now paused. */
  predicate IsPastChecks(s: System) {
    s.l.db.state == JobPaused && s.pc == Claiming
  }

  /** Two more partitions can be claimed exactly if the job was paused between the check for a pause
      and the claim, and a partition can be retried after it: the one claimed next, or one that
      failed before. */
  lemma CanClaimTwiceIff(s: System, maxRetries: nat)
    ensures CanClaimTwice(s, maxRetries) <==> IsPastChecks(s) && HasRetry(s.l.db.rows, maxRetries)
  {
    hide IsFlagged, HasRetry, IsNextClaim;
    if CanClaimTwice(s, maxRetries) {
      var events :| IsFlagged(s, events, maxRetries) && Claims(events) == 2;
      ClaimsSoFar(s, events, maxRetries);
    }
    if IsPastChecks(s) && HasRetry(s.l.db.rows, maxRetries) {
      var events := ClaimTwice(s, maxRetries);
    }
  }

  // ----- Two claims mean a retry -----

  ghost predicate NothingPending(rows: seq<Partition>) {
    forall i :: 0 <= i < |rows| ==> rows[i].state != Pending
  }

  /** Row `r` was claimed, and the other failed rows are as they were. */
  ghost predicate IsClaimed(rows: seq<Partition>, rows': seq<Partition>, r: nat) {
    && r < |rows| == |rows'|
    && rows'[r].attempts == rows[r].attempts + 1
    && forall i :: 0 <= i < |rows| && i != r && rows'[i].state == Failed ==> rows'[i] == rows[i]
  }

  /** After one claim, with another one to come: the job is still paused, or was cancelled between the
      two checks. */
  ghost predicate HasClaimed(start: System, s: System, maxRetries: nat, r: nat) {
    && IsPastChecks(start) && IsNextClaim(start.l.db.rows, maxRetries, r)
    && IsClaimed(start.l.db.rows, s.l.db.rows, r)
    && (s.pc.Executing? ==> s.pc.row == r)
    && (s.l.db.state == JobPaused ==> s.pc != Claiming)
    && (s.l.db.state != JobPaused ==> NothingPending(s.l.db.rows))
  }

  /** What holds after the given number of claims. */
  ghost predicate Claimed(start: System, s: System, maxRetries: nat, claims: nat) {
    var toCome := ClaimsToCome(s.pc, s.l.db.state);
    match claims
    case 0 => s == start || toCome <= 1
    case 1 => toCome == 0 || exists r :: HasClaimed(start, s, maxRetries, r)
    case _ => IsPastChecks(start) && HasRetry(start.l.db.rows, maxRetries)
  }

  predicate StaysFlagged(s: System, s': System) {
    s.l.db.state in {JobPaused, JobCancelled} && s'.l.db.state in {JobPaused, JobCancelled}
  }

  lemma {:induction false} ClaimsSoFar(s: System, events: seq<Event>, maxRetries: nat)
    requires IsFlagged(s, events, maxRetries)
    ensures After(s, events, maxRetries).l.db.state in {JobPaused, JobCancelled}
    ensures Claimed(s, After(s, events, maxRetries), maxRetries, Claims(events))
  {
    if events != [] {
      hide Enabled, Step, Claimed;
      var n := |events| - 1;
      ClaimsSoFar(s, events[..n], maxRetries);
      ClaimStep(s, After(s, events[..n], maxRetries), events[n], maxRetries, Claims(events[..n]));
    } else {
      hide HasRetry, HasClaimed;
    }
  }

  lemma ClaimStep(start: System, s: System, e: Event, maxRetries: nat, claims: nat)
    requires Enabled(s, e, maxRetries) && StaysFlagged(s, Step(s, e, maxRetries))
    requires Claimed(start, s, maxRetries, claims)
    ensures Claimed(start, Step(s, e, maxRetries), maxRetries, claims + if e.Claim? then 1 else 0)
  {
    hide Enabled, Step, HasRetry, IsClaimed, HasClaimed;
    StepSpendsClaims(s, e, maxRetries);
    if claims == 0 && s == start && e.Claim? {
      FirstClaim(s, e, maxRetries);
    } else if claims == 1 && ClaimsToCome(s.pc, s.l.db.state) > 0 {
      var r :| HasClaimed(start, s, maxRetries, r);
      if e.Claim? {
        SecondClaim(start, s, e, maxRetries, r);
      } else {
        StepAfterClaim(start, s, e, maxRetries, r);
      }
    }
  }

  /** A step uses up the claims to come, and leaves one at most. */
  lemma StepSpendsClaims(s: System, e: Event, maxRetries: nat)
    requires Enabled(s, e, maxRetries) && StaysFlagged(s, Step(s, e, maxRetries))
    ensures var s' := Step(s, e, maxRetries);
            && ClaimsToCome(s'.pc, s'.l.db.state) <= 1
            && ClaimsToCome(s'.pc, s'.l.db.state) + (if e.Claim? then 1 else 0) <= ClaimsToCome(s.pc, s.l.db.state)
  {
    hide IsNextClaim, NothingToClaim, LastCompletedKey;
  }

  lemma FirstClaim(s: System, e: Event, maxRetries: nat)
    requires Enabled(s, e, maxRetries) && e.Claim? && StaysFlagged(s, Step(s, e, maxRetries))
    ensures var s' := Step(s, e, maxRetries);
            ClaimsToCome(s'.pc, s'.l.db.state) == 0 || HasClaimed(s, s', maxRetries, e.row)
  {
  }

  /** Whatever is claimed second has failed: the cancellation has skipped the pending rows. */
  lemma SecondClaim(start: System, s: System, e: Event, maxRetries: nat, r: nat)
    requires HasClaimed(start, s, maxRetries, r) && Enabled(s, e, maxRetries) && e.Claim?
    ensures IsPastChecks(start) && HasRetry(start.l.db.rows, maxRetries)
  {
    assert s.l.db.rows[e.row].state == Failed && s.l.db.rows[e.row].attempts < maxRetries;
    assert IsRetry(start.l.db.rows, maxRetries, r, e.row);
  }

  lemma StepAfterClaim(start: System, s: System, e: Event, maxRetries: nat, r: nat)
    requires HasClaimed(start, s, maxRetries, r) && Enabled(s, e, maxRetries) && !e.Claim?
    requires StaysFlagged(s, Step(s, e, maxRetries)) && ClaimsToCome(s.pc, s.l.db.state) > 0
    ensures var s' := Step(s, e, maxRetries);
            ClaimsToCome(s'.pc, s'.l.db.state) == 0 || HasClaimed(start, s', maxRetries, r)
  {
    hide IsNextClaim, NothingToClaim, LastCompletedKey;
  }

  // ----- A retry lets two claims happen -----

  lemma ExtendFlagged(s: System, events: seq<Event>, e: Event, maxRetries: nat) returns (longer: seq<Event>)
    requires IsFlagged(s, events, maxRetries) && Enabled(After(s, events, maxRetries), e, maxRetries)
    requires Step(After(s, events, maxRetries), e, maxRetries).l.db.state in {JobPaused, JobCancelled}
    ensures IsFlagged(s, longer, maxRetries)
    ensures After(s, longer, maxRetries) == Step(After(s, events, maxRetries), e, maxRetries)
    ensures Claims(longer) == Claims(events) + if e.Claim? then 1 else 0
  {
    hide Enabled, Step;
    longer := Extend(s, events, e, maxRetries);
    assert longer[..|longer| - 1] == events;
  }

  /** The row is claimed and fails, and its end is reported: the job is still paused. */
  lemma FailOnce(s: System, maxRetries: nat, r: nat, q: nat) returns (events: seq<Event>)
    requires IsPastChecks(s) && IsNextClaim(s.l.db.rows, maxRetries, r)
    requires q < |s.l.db.rows| && IsRetry(s.l.db.rows, maxRetries, r, q)
    ensures IsFlagged(s, events, maxRetries) && Claims(events) == 1
    ensures var s' := After(s, events, maxRetries);
            && s'.pc == CancelCheck && s'.l.db.state == JobPaused
            && q < |s'.l.db.rows| && s'.l.db.rows[q].state == Failed && s'.l.db.rows[q].attempts < maxRetries
  {
    assert Claims([]) == 0;
    events := ExtendFlagged(s, [], Claim(r), maxRetries);
    events := ExtendFlagged(s, events, Execute(Fails), maxRetries);
    events := ExtendFlagged(s, events, Report, maxRetries);
  }

  lemma CancelBetweenChecks(s: System, events: seq<Event>, maxRetries: nat, q: nat) returns (longer: seq<Event>)
    requires IsFlagged(s, events, maxRetries)
    requires var s' := After(s, events, maxRetries);
             && s'.pc == CancelCheck && s'.l.db.state == JobPaused
             && q < |s'.l.db.rows| && s'.l.db.rows[q].state == Failed
    ensures IsFlagged(s, longer, maxRetries) && Claims(longer) == Claims(events)
    ensures var s', t := After(s, events, maxRetries), After(s, longer, maxRetries);
            && t.pc == Claiming && t.l.db.state == JobCancelled
            && q < |t.l.db.rows| && t.l.db.rows[q] == s'.l.db.rows[q]
  {
    hide IsFlagged;
    longer := ExtendFlagged(s, events, CheckCancelled, maxRetries);
    longer := ExtendFlagged(s, longer, Cancel, maxRetries);
    longer := ExtendFlagged(s, longer, CheckPaused, maxRetries);
  }

  lemma ClaimTwice(s: System, maxRetries: nat) returns (events: seq<Event>)
    requires IsPastChecks(s) && HasRetry(s.l.db.rows, maxRetries)
    ensures IsFlagged(s, events, maxRetries) && Claims(events) == 2
  {
    hide IsRun, After, Stays, ClaimedBefore;
    var r, q :| IsNextClaim(s.l.db.rows, maxRetries, r) && 0 <= q < |s.l.db.rows|
                && IsRetry(s.l.db.rows, maxRetries, r, q);
    events := FailOnce(s, maxRetries, r, q);
    events := CancelBetweenChecks(s, events, maxRetries, q);
    var rows := After(s, events, maxRetries).l.db.rows;
    assert Claimable(rows[q], maxRetries);
    var found := FindNextClaim(rows, maxRetries, |rows|);
    events := ExtendFlagged(s, events, Claim(found.value), maxRetries);
  }

  /** It does happen: a job of one partition, paused after the checks, that may be retried. */
  lemma TwoClaimsExample() returns (db: Db, before: seq<Event>)
    ensures db.state == JobPending && IsRun(Starting(db), before, 3)
    ensures Enabled(After(Starting(db), before, 3), Pause, 3)
    ensures CanClaimTwice(Step(After(Starting(db), before, 3), Pause, 3), 3)
  {
    hide IsRun, After;
    db := Db(JobPending, Progress(0, 0, 0, None, None), [Partition("a", Pending, 0, 0)], 1);
    before := TakeAndCheck(db, 3);
    var paused := Step(After(Starting(db), before, 3), Pause, 3);
    LessIrreflexive("a");
    assert IsNextClaim(paused.l.db.rows, 3, 0) && IsRetry(paused.l.db.rows, 3, 0, 0);
    CanClaimTwiceIff(paused, 3);
  }
}
