/** The executor's loop interleaved with a user who pauses, resumes or cancels the job at any
    moment. A step is one storage statement of `process_job` or of the user
    (servo-runtime/src/backfill_executor.rs, servo-storage/src/postgres.rs). One executor
    works on the job. */
module BackfillProtocol {
  import opened Wrappers
  import opened Eta
  import opened BackfillStorage
  import opened BackfillExecutor

  /** Where the executor is in its loop. */
  datatype Pc = Idle | CancelCheck | PauseCheck | Claiming | Executing(row: nat) | Reporting | Finishing

  datatype System = System(l: Loop, pc: Pc)

  datatype Event =
    | TakeJob | CheckCancelled | CheckPaused | Claim(row: nat) | FindNothing
    | Execute(outcome: Outcome) | Report | Finish
    | Pause | Resume | Cancel

  predicate ByUser(e: Event) {
    e in {Pause, Resume, Cancel}
  }

  ghost predicate Enabled(s: System, e: Event, maxRetries: nat) {
    match e
    case TakeJob => s.pc == Idle && ClaimJob(s.l.db).Ok?
    case CheckCancelled => s.pc == CancelCheck
    case CheckPaused => s.pc == PauseCheck
    case Claim(row) => s.pc == Claiming && IsNextClaim(s.l.db.rows, maxRetries, row)
    case FindNothing => s.pc == Claiming && NothingToClaim(s.l.db.rows, maxRetries)
    case Execute(o) => s.pc.Executing? && s.pc.row < |s.l.db.rows| && AfterExecution(s.l.db, s.pc.row, o).Ok?
    case Report => s.pc == Reporting
    case Finish => s.pc == Finishing
    case Pause => PauseJob(s.l.db).Ok?
    case Resume => ResumeJob(s.l.db).Ok?
    case Cancel => CancelJob(s.l.db).Ok?
  }

  /** The loop after an execution: the row's end state, and the local variables. */
  function Executed(l: Loop, row: nat, o: Outcome, maxRetries: nat): Loop
    requires row < |l.db.rows| && AfterExecution(l.db, row, o).Ok?
  {
    Loop(AfterExecution(l.db, row, o).value,
         Counted(l.counts, o, l.db.rows[row].attempts, maxRetries),
         if ExecutionOk(o) then Some(l.db.rows[row].key) else l.lastCompleted,
         Averaged(l.average, o))
  }

  /** The loop after writing its progress, which takes effect only while the job is running. */
  function Reported(l: Loop): Loop {
    l.(db := SaveProgress(l.db, Progress(l.counts.completed, l.counts.failed, l.db.progress.skipped,
                                         Some(Stored(l.average)), l.lastCompleted)))
  }

  function Step(s: System, e: Event, maxRetries: nat): System
    requires Enabled(s, e, maxRetries)
  {
    match e
    case TakeJob => System(FirstLoop(ClaimJob(s.l.db).value), CancelCheck)
    case CheckCancelled => s.(pc := if s.l.db.state == JobCancelled then Idle else PauseCheck)
    case CheckPaused => s.(pc := if s.l.db.state == JobPaused then Idle else Claiming)
    case Claim(row) => System(s.l.(db := ClaimRow(s.l.db, row)), Executing(row))
    case FindNothing => s.(pc := Finishing)
    case Execute(o) => System(Executed(s.l, s.pc.row, o, maxRetries), Reporting)
    case Report => System(Reported(s.l), CancelCheck)
    case Finish =>
      var finished := FinishJob(s.l.db, FinalState(s.l.counts));
      System(if finished.Ok? then s.l.(db := finished.value) else s.l, Idle)
    case Pause => s.(l := s.l.(db := PauseJob(s.l.db).value))
    case Resume => s.(l := s.l.(db := ResumeJob(s.l.db).value))
    case Cancel => s.(l := s.l.(db := CancelJob(s.l.db).value))
  }

  ghost predicate IsRun(s: System, events: seq<Event>, maxRetries: nat)
    decreases |events|, 0
  {
    events == [] ||
    (var n := |events| - 1;
     IsRun(s, events[..n], maxRetries) && Enabled(After(s, events[..n], maxRetries), events[n], maxRetries))
  }

  ghost function After(s: System, events: seq<Event>, maxRetries: nat): System
    requires IsRun(s, events, maxRetries)
    decreases |events|, 1
  {
    if events == [] then s
    else
      var n := |events| - 1;
      Step(After(s, events[..n], maxRetries), events[n], maxRetries)
  }

  /** A job that nobody works on yet. */
  function Starting(db: Db): System {
    System(FirstLoop(db), Idle)
  }

  lemma NoEvents(s: System, maxRetries: nat)
    ensures IsRun(s, [], maxRetries) && After(s, [], maxRetries) == s
  {
  }

  lemma Extend(s: System, events: seq<Event>, e: Event, maxRetries: nat) returns (longer: seq<Event>)
    requires IsRun(s, events, maxRetries) && Enabled(After(s, events, maxRetries), e, maxRetries)
    ensures longer == events + [e]
    ensures IsRun(s, longer, maxRetries)
    ensures After(s, longer, maxRetries) == Step(After(s, events, maxRetries), e, maxRetries)
  {
    longer := events + [e];
    assert longer[..|longer| - 1] == events;
  }

  /** A pending job is taken, found neither cancelled nor paused, and comes to its first claim. */
  lemma TakeAndCheck(db: Db, maxRetries: nat) returns (events: seq<Event>)
    requires db.state == JobPending
    ensures events == [TakeJob, CheckCancelled, CheckPaused] && IsRun(Starting(db), events, maxRetries)
    ensures After(Starting(db), events, maxRetries) == System(FirstLoop(db.(state := JobRunning)), Claiming)
  {
    hide IsRun, After, InitialAverage;
    var s := Starting(db);
    NoEvents(s, maxRetries);
    events := Extend(s, [], TakeJob, maxRetries);
    events := Extend(s, events, CheckCancelled, maxRetries);
    events := Extend(s, events, CheckPaused, maxRetries);
  }

  /** One run after another. */
  lemma {:induction false} Concat(s: System, events: seq<Event>, more: seq<Event>, maxRetries: nat)
    requires IsRun(s, events, maxRetries) && IsRun(After(s, events, maxRetries), more, maxRetries)
    ensures IsRun(s, events + more, maxRetries)
    ensures After(s, events + more, maxRetries) == After(After(s, events, maxRetries), more, maxRetries)
  {
    if more == [] {
      assert events + more == events;
    } else {
      hide Enabled, Step;
      var n := |more| - 1;
      Concat(s, events, more[..n], maxRetries);
      assert (events + more)[..|events + more| - 1] == events + more[..n];
    }
  }

  /** Left alone, the steps from one claim to the next are a round of the loop. */
  lemma RoundIsThreeSteps(l: Loop, row: nat, o: Outcome, maxRetries: nat)
    requires row < |l.db.rows| && AfterRound(l.db, row, o).Ok?
    ensures Reported(Executed(l.(db := ClaimRow(l.db, row)), row, o, maxRetries))
         == NextLoop(l, Round(row, o), maxRetries)
  {
  }

  // ----- How soon a pause or a cancellation takes effect -----

  /** The job is in one of the states all along the run. */
  ghost predicate Stays(s: System, events: seq<Event>, states: set<JobState>, maxRetries: nat)
    requires IsRun(s, events, maxRetries)
  {
    After(s, events, maxRetries).l.db.state in states
    && (events == [] || Stays(s, events[..|events| - 1], states, maxRetries))
  }

  function Claims(events: seq<Event>): nat {
    if events == [] then 0
    else Claims(events[..|events| - 1]) + if events[|events| - 1].Claim? then 1 else 0
  }

  /** The most steps that the executor still takes with the job paused, or cancelled: the
      cancellation is checked before the pause, and neither between a claim and its report. */
  function StepsLeft(pc: Pc, state: JobState): nat {
    match pc
    case Idle => 0
    case Finishing => 1
    case CancelCheck => if state == JobPaused then 2 else 1
    case PauseCheck => if state == JobPaused then 1 else 5
    case Claiming => if state == JobPaused then 5 else 4
    case Executing(_) => if state == JobPaused then 4 else 3
    case Reporting => if state == JobPaused then 3 else 2
  }

  /** While the job stays paused, or stays cancelled, the executor stops after at most five
      steps, of which at most one claims a partition. */
  lemma {:induction false} ExecutorStops(s: System, events: seq<Event>, state: JobState, maxRetries: nat)
    requires IsRun(s, events, maxRetries) && Stays(s, events, {state}, maxRetries)
    requires state in {JobPaused, JobCancelled}
    ensures After(s, events, maxRetries).l.db.state == state
    ensures |events| + StepsLeft(After(s, events, maxRetries).pc, state) <= StepsLeft(s.pc, state) <= 5
    ensures Claims(events) <=
              if StepsLeft(After(s, events, maxRetries).pc, state) < StepsLeft(Claiming, state) then 1 else 0
  {
    if events != [] {
      hide Enabled, Step, StepsLeft;
      var n := |events| - 1;
      ExecutorStops(s, events[..n], state, maxRetries);
      FlaggedStep(After(s, events[..n], maxRetries), events[n], state, maxRetries);
    }
    StepsLeftIsBounded(s.pc, state);
  }

  lemma FlaggedStep(s: System, e: Event, state: JobState, maxRetries: nat)
    requires Enabled(s, e, maxRetries) && s.l.db.state == state && Step(s, e, maxRetries).l.db.state == state
    requires state in {JobPaused, JobCancelled}
    ensures StepsLeft(Step(s, e, maxRetries).pc, state) < StepsLeft(s.pc, state)
    ensures e.Claim? ==> s.pc == Claiming
  {
  }

  lemma StepsLeftIsBounded(pc: Pc, state: JobState)
    ensures StepsLeft(pc, state) <= 5
  {
  }

  /** How many claims can follow while the job is paused or cancelled, the one perhaps after the other. */
  function ClaimsToCome(pc: Pc, state: JobState): nat {
    if state == JobPaused then
      if pc == Claiming then 2 else if pc in {Idle, Finishing} then 0 else 1
    else if pc in {PauseCheck, Claiming} then 1 else 0
  }

  /** A job paused and then cancelled may see two more claims: the cancellation can come between
      the two checks. There are no more than two. */
  lemma {:induction false} AtMostTwoClaims(s: System, events: seq<Event>, maxRetries: nat)
    requires IsRun(s, events, maxRetries) && Stays(s, events, {JobPaused, JobCancelled}, maxRetries)
    ensures s.l.db.state in {JobPaused, JobCancelled}
    ensures After(s, events, maxRetries).l.db.state in {JobPaused, JobCancelled}
    ensures var s' := After(s, events, maxRetries);
            Claims(events) + ClaimsToCome(s'.pc, s'.l.db.state) <= ClaimsToCome(s.pc, s.l.db.state) <= 2
  {
    if events != [] {
      AtMostTwoClaims(s, events[..|events| - 1], maxRetries);
    }
  }

  // ----- The executor is never stuck -----

  /** The row being executed is marked running. */
  ghost predicate ExecutesRunningRow(s: System) {
    s.pc.Executing? ==> s.pc.row < |s.l.db.rows| && s.l.db.rows[s.pc.row].state == Running
  }

  lemma {:induction false} RunsExecuteRunningRows(s: System, events: seq<Event>, maxRetries: nat)
    requires IsRun(s, events, maxRetries) && ExecutesRunningRow(s)
    ensures ExecutesRunningRow(After(s, events, maxRetries))
  {
    if events != [] {
      RunsExecuteRunningRows(s, events[..|events| - 1], maxRetries);
    }
  }

  /** Until it stops, the executor always has a next step, whatever the user did. */
  lemma ExecutorIsNotStuck(s: System, maxRetries: nat, o: Outcome) returns (e: Event)
    requires s.pc != Idle && ExecutesRunningRow(s)
    ensures !ByUser(e) && e != TakeJob && Enabled(s, e, maxRetries)
    ensures s.pc.Executing? ==> e == Execute(o)
  {
    match s.pc
    case CancelCheck => e := CheckCancelled;
    case PauseCheck => e := CheckPaused;
    case Claiming =>
      var found := FindNextClaim(s.l.db.rows, maxRetries, |s.l.db.rows|);
      e := if found.Some? then Claim(found.value) else FindNothing;
    case Executing(_) => e := Execute(o);
    case Reporting => e := Report;
    case Finishing => e := Finish;
  }
}
