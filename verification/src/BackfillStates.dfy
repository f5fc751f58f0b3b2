/** The states of a backfill job: which commands a state allows and where they lead
    (servo-storage/src/postgres.rs). */
module BackfillStates {
  import opened Wrappers
  import opened BackfillStorage
  import opened BackfillExecutor
  import opened BackfillProtocol
  import opened BackfillCheckpoint

  predicate IsFinal(state: JobState) {
    state in {JobCompleted, JobFailed, JobCancelled}
  }

  /** A job is paused while it runs, resumed while it is paused, taken when it is new or resumed, and cancelled
      until it has ended; anything else is refused and says why. */
  lemma CommandsAreAnswered(db: Db)
    ensures PauseJob(db).Ok? <==> db.state == JobRunning
    ensures ResumeJob(db).Ok? <==> db.state == JobPaused
    ensures ClaimJob(db).Ok? <==> db.state in {JobPending, JobResuming}
    ensures CancelJob(db).Ok? <==> !IsFinal(db.state)
    ensures PauseJob(db).Err? ==> PauseJob(db).error == InvalidTransition
    ensures ResumeJob(db).Err? ==> ResumeJob(db).error == InvalidTransition
    ensures CancelJob(db).Err? ==> CancelJob(db).error == InvalidTransition
    ensures ClaimJob(db).Err? ==> ClaimJob(db).error == NotFound
  {
  }

  /** A job that was paused, resumed and taken again runs as before, but for its checkpoint. */
  lemma PauseIsUndone(db: Db)
    requires db.state == JobRunning
    ensures PauseJob(db).Ok? && PauseJob(db).value.state == JobPaused
    ensures var resumed := ResumeJob(PauseJob(db).value);
            && resumed.Ok? && resumed.value.state == JobResuming
            && ClaimJob(resumed.value)
               == Ok(db.(progress := db.progress.(checkpoint := PauseJob(db).value.progress.checkpoint)))
  {
  }

  /** A job that has ended stays as it ended, whatever the user and the executor do. */
  lemma {:induction false} FinalStatesStay(s: System, events: seq<Event>, maxRetries: nat)
    requires IsRun(s, events, maxRetries) && IsFinal(s.l.db.state)
    ensures After(s, events, maxRetries).l.db.state == s.l.db.state
    ensures After(s, events, maxRetries).l.db.progress == s.l.db.progress
  {
    if events != [] {
      FinalStatesStay(s, events[..|events| - 1], maxRetries);
    }
  }

  /** A step from a state that is not final leads on along these edges only, and along each of them. */
  lemma StateFollows(s: System, e: Event, maxRetries: nat)
    requires Enabled(s, e, maxRetries)
    ensures var state, state' := s.l.db.state, Step(s, e, maxRetries).l.db.state;
            match e
            case TakeJob => state in {JobPending, JobResuming} && state' == JobRunning
            case Pause => state == JobRunning && state' == JobPaused
            case Resume => state == JobPaused && state' == JobResuming
            case Cancel => !IsFinal(state) && state' == JobCancelled
            case Finish => if state == JobRunning then state' in {JobCompleted, JobFailed} else state' == state
            case _ => state' == state
  {
  }
}
