/** A backfill job and the ranges resolved for its upstream assets: the readiness check of
    `execute_partition` against the loop of `process_job`
    (servo-runtime/src/backfill_executor.rs). A child job is created over each of those ranges,
    but without partition rows, so the ranges are completed by other jobs, if at all. */
module BackfillWithUpstream {
  import opened Wrappers
  import opened Assets
  import opened PartitionKeys
  import opened PartitionResolver
  import opened UpstreamReadiness
  import opened BackfillStorage
  import opened BackfillExecutor

  /** A partition is put back exactly when its upstream is not ready. */
  ghost predicate FollowsReadiness(run: Behaviour, config: Option<PartitionConfig>, cache: DependencyCache,
                                   completed: Completed)
  {
    forall key, attempt :: run(key, attempt).NotReady? <==> !IsReady(key, config, cache, completed)
  }

  /** The upstream asset is partitioned by a time that maps to the downstream one, with keys in range. */
  predicate IsMappable(info: UpstreamInfo, down: TimeGranularity, a: int, b: int) {
    && info.partitionConfig.Some? && info.partitionConfig.value.partitionType.Time?
    && var up := info.partitionConfig.value.partitionType.granularity;
       Compatible(up, down) && InKeyRange(up, First(up, down, a)) && InKeyRange(up, First(up, down, b + 1) - 1)
  }

  /** All partitions of the range resolved for the upstream asset are completed, by whatever job. */
  ghost predicate RangeIsDone(info: UpstreamInfo, down: TimeGranularity, a: int, b: int,
                              config: Option<PartitionConfig>, r: Resolver, completed: Completed)
    requires IsMappable(info, down, a, b)
  {
    var (lo, hi) := ResolveUpstreamRange(r, Key(down, a), Key(down, b), info.partitionConfig, config);
    RangeCompleted(info.partitionConfig.value.partitionType.granularity, lo, hi, info.assetId, completed)
  }

  ghost predicate RangesAreDone(cache: DependencyCache, down: TimeGranularity, a: int, b: int,
                                config: Option<PartitionConfig>, r: Resolver, completed: Completed)
    requires forall name :: name in cache ==> IsMappable(cache[name], down, a, b)
  {
    forall name :: name in cache ==> RangeIsDone(cache[name], down, a, b, config, r, completed)
  }

  ghost predicate AllReady(cache: DependencyCache, down: TimeGranularity, a: int, b: int,
                           config: Option<PartitionConfig>, completed: Completed)
  {
    forall n :: a <= n <= b ==> IsReady(Key(down, n), config, cache, completed)
  }

  /** Every partition of a range is ready exactly if the resolved upstream ranges are completed. */
  lemma ReadyIffRangesAreDone(cache: DependencyCache, down: TimeGranularity, a: int, b: int,
                              config: Option<PartitionConfig>, r: Resolver, completed: Completed)
    requires IsTime(config, down) && a <= b && InKeyRange(down, a) && InKeyRange(down, b)
    requires forall name :: name in cache ==> IsMappable(cache[name], down, a, b)
    ensures AllReady(cache, down, a, b, config, completed)
       <==> RangesAreDone(cache, down, a, b, config, r, completed)
  {
    hide Key, InKeyRange, First, RangeCompleted, HasUpstream, ResolveUpstreamRange, Compatible;
    forall name | name in cache
      ensures RangeIsDone(cache[name], down, a, b, config, r, completed)
         <==> AllHaveUpstream(down, a, b, config, cache[name], completed)
    {
      var up := cache[name].partitionConfig.value.partitionType.granularity;
      CompletedRangeMakesReady(up, down, a, b, cache[name], config, r, completed);
    }
    if AllReady(cache, down, a, b, config, completed) {
      forall name, n | name in cache && a <= n <= b ensures HasUpstream(Key(down, n), config, cache[name], completed) {
        assert IsReady(Key(down, n), config, cache, completed);
      }
    }
    if RangesAreDone(cache, down, a, b, config, r, completed) {
      forall n, name | a <= n <= b && name in cache ensures HasUpstream(Key(down, n), config, cache[name], completed) {
        assert AllHaveUpstream(down, a, b, config, cache[name], completed);
      }
    }
  }

  /** The rows are partitions of the range. */
  ghost predicate AreKeysOf(rows: seq<Partition>, down: TimeGranularity, a: int, b: int) {
    forall i :: 0 <= i < |rows| ==> IsKeyOf(rows[i].key, down, a, b)
  }

  ghost predicate IsKeyOf(key: string, down: TimeGranularity, a: int, b: int) {
    exists n :: a <= n <= b && key == Key(down, n)
  }

  /** Once the resolved ranges are completed no partition of the downstream job is put back, and with
      no stale claims and matching counters every row is processed. */
  lemma CompletedRangesLetJobFinish(start: Db, rounds: seq<Round>, run: Behaviour, maxRetries: nat,
                                    cache: DependencyCache, down: TimeGranularity, a: int, b: int,
                                    config: Option<PartitionConfig>, r: Resolver, completed: Completed)
    requires IsTime(config, down) && a <= b && InKeyRange(down, a) && InKeyRange(down, b)
    requires AreKeysOf(start.rows, down, a, b)
    requires forall name :: name in cache ==> IsMappable(cache[name], down, a, b)
    requires RangesAreDone(cache, down, a, b, config, r, completed)
    requires FollowsReadiness(run, config, cache, completed) && AreRounds(start, rounds, run, maxRetries)
    ensures LoopAfter(start, rounds, run, maxRetries).counts.requeues == 0
    ensures |rounds| <= Budget(start.rows, maxRetries, maxRetries)
    ensures var l := LoopAfter(start, rounds, run, maxRetries);
            && Tally(start.rows, maxRetries, InProgress) == 0
            && Discrepancy(start.progress, start.rows, maxRetries) == 0
            && NothingToClaim(l.db.rows, maxRetries)
            ==> l.counts.completed + l.counts.failed + start.progress.skipped == |start.rows|
  {
    hide AreRounds, LoopAfter, Key, IsReady, RangesAreDone, InKeyRange, IsMappable, Tally, Budget, Discrepancy,
         NothingToClaim, LoopInvariant;
    ReadyIffRangesAreDone(cache, down, a, b, config, r, completed);
    forall i, attempt | 0 <= i < |start.rows| && attempt >= 0 ensures !run(start.rows[i].key, attempt).NotReady? {
      assert IsKeyOf(start.rows[i].key, down, a, b);
    }
    assert UpstreamReadyFrom(run, start.rows, 0);
    NoRequeues(start, rounds, run, maxRetries);
    RunsKeepInvariant(start, rounds, run, maxRetries, maxRetries, 0);
    var l := LoopAfter(start, rounds, run, maxRetries);
    InvariantBoundsRounds(start, rounds, l, run, maxRetries, maxRetries);
    if NothingToClaim(l.db.rows, maxRetries) {
      InvariantAtTheEnd(start, rounds, l, run, maxRetries, maxRetries);
    }
  }

  lemma InvariantBoundsRounds(start: Db, rounds: seq<Round>, l: Loop, run: Behaviour, maxRetries: nat, limit: nat)
    requires LoopInvariant(start, rounds, l, run, maxRetries, limit)
    ensures |rounds| <= Budget(start.rows, maxRetries, limit)
  {
  }

  // ----- Without completed ranges -----

  /** A job without partition rows, as child jobs are created, ends completed in no round. */
  lemma {:induction false} EmptyJobCompletes(start: Db, rounds: seq<Round>, run: Behaviour, maxRetries: nat)
    requires start.rows == [] && start.progress.completed == 0 && AreRounds(start, rounds, run, maxRetries)
    ensures rounds == [] && NothingToClaim(LoopAfter(start, rounds, run, maxRetries).db.rows, maxRetries)
    ensures start.progress.failed == 0 ==> FinalState(LoopAfter(start, rounds, run, maxRetries).counts) == JobCompleted
  {
    if rounds != [] {
      EmptyJobCompletes(start, rounds[..|rounds| - 1], run, maxRetries);
    }
  }

  /** A range is not done before some partition of the upstream asset is completed. */
  lemma DoneRangeHasCompletions(info: UpstreamInfo, down: TimeGranularity, a: int, b: int,
                                config: Option<PartitionConfig>, r: Resolver, completed: Completed)
    requires IsTime(config, down) && a <= b && InKeyRange(down, a) && InKeyRange(down, b)
    requires IsMappable(info, down, a, b) && RangeIsDone(info, down, a, b, config, r, completed)
    ensures exists k :: (info.assetId, k) in completed
  {
    hide Key, InKeyRange, First, RangeCompleted, RequiredKeys, ResolveUpstreamRange, Compatible;
    var up := info.partitionConfig.value.partitionType.granularity;
    CompletedRangeMakesReady(up, down, a, b, info, config, r, completed);
    assert HasUpstream(Key(down, a), config, info, completed);
    var k := SomeRequiredKey(up, down, a, b, info.partitionConfig, config);
  }

  lemma SomeRequiredKey(up: TimeGranularity, down: TimeGranularity, a: int, b: int,
                        upConfig: Option<PartitionConfig>, downConfig: Option<PartitionConfig>) returns (k: string)
    requires Compatible(up, down) && IsTime(upConfig, up) && IsTime(downConfig, down)
    requires a <= b && InKeyRange(down, a) && InKeyRange(down, b)
    requires InKeyRange(up, First(up, down, a)) && InKeyRange(up, First(up, down, b + 1) - 1)
    ensures k in RequiredKeys(Key(down, a), upConfig, downConfig)
  {
    hide Key, RequiredKeys;
    RequiredIsInterval(up, down, a, upConfig, downConfig);
    FirstIncreases(up, down, a, a + 1);
    k := RequiredKeys(Key(down, a), upConfig, downConfig)[0];
  }

  /** After the rounds a partition that is never ready can still be claimed. */
  lemma {:induction false} StaysClaimable(start: Db, rounds: seq<Round>, run: Behaviour, maxRetries: nat, i: nat)
    requires AreRounds(start, rounds, run, maxRetries)
    requires i < |start.rows| && Claimable(start.rows[i], maxRetries)
    requires forall attempt: nat :: run(start.rows[i].key, attempt).NotReady?
    ensures var rows := LoopAfter(start, rounds, run, maxRetries).db.rows;
            |rows| == |start.rows| && rows[i].key == start.rows[i].key && Claimable(rows[i], maxRetries)
  {
    if rounds != [] {
      var n := |rounds| - 1;
      StaysClaimable(start, rounds[..n], run, maxRetries, i);
      var l := LoopAfter(start, rounds[..n], run, maxRetries);
      NextLoopRows(l, rounds[n], maxRetries);
      RoundLeavesOthers(l.db, rounds[n].row, rounds[n].outcome);
    }
  }

  lemma RoundLeavesOthers(db: Db, i: nat, o: Outcome)
    requires i < |db.rows|
    ensures AfterRound(db, i, o).Ok?
    ensures var rows := AfterRound(db, i, o).value.rows; rows == db.rows[i := rows[i]]
    ensures o.NotReady? ==> AfterRound(db, i, o).value.rows[i].state == Pending
  {
  }

  /** Then the loop has a run of every length. */
  lemma {:induction false} NeverReadyRunsOn(start: Db, run: Behaviour, maxRetries: nat, i: nat, n: nat)
    returns (rounds: seq<Round>)
    requires i < |start.rows| && Claimable(start.rows[i], maxRetries)
    requires forall attempt: nat :: run(start.rows[i].key, attempt).NotReady?
    ensures |rounds| == n && AreRounds(start, rounds, run, maxRetries)
  {
    rounds := [];
    if n > 0 {
      hide LoopAfter, AfterRound, Claimable;
      rounds := NeverReadyRunsOn(start, run, maxRetries, i, n - 1);
      StaysClaimable(start, rounds, run, maxRetries, i);
      var db := LoopAfter(start, rounds, run, maxRetries).db;
      var found := FindNextClaim(db.rows, maxRetries, |db.rows|);
      var row := found.value;
      var round := Round(row, run(db.rows[row].key, db.rows[row].attempts + 1));
      RoundLeavesOthers(db, row, round.outcome);
      OneMoreRound(start, rounds, run, maxRetries, round);
      rounds := rounds + [round];
    }
  }

  ghost predicate HasRun(start: Db, n: nat, run: Behaviour, maxRetries: nat) {
    exists rounds :: |rounds| == n && AreRounds(start, rounds, run, maxRetries)
  }

  ghost predicate HasRow(rows: seq<Partition>, key: string) {
    exists i :: 0 <= i < |rows| && rows[i].key == key
  }

  /** The rows are the partitions of the range, and every one of them can be claimed. */
  ghost predicate IsJobOver(rows: seq<Partition>, down: TimeGranularity, a: int, b: int, maxRetries: nat) {
    && AreKeysOf(rows, down, a, b)
    && (forall n :: a <= n <= b ==> HasRow(rows, Key(down, n)))
    && (forall i :: 0 <= i < |rows| ==> Claimable(rows[i], maxRetries))
  }

  /** While what is completed upstream stays as it is, the loop of a new job over a range can go on
      for ever exactly if some resolved upstream range is not completed. */
  lemma JobRunsOnIff(start: Db, run: Behaviour, maxRetries: nat, cache: DependencyCache, down: TimeGranularity,
                     a: int, b: int, config: Option<PartitionConfig>, r: Resolver, completed: Completed)
    requires IsTime(config, down) && a <= b && InKeyRange(down, a) && InKeyRange(down, b)
    requires IsJobOver(start.rows, down, a, b, maxRetries)
    requires forall name :: name in cache ==> IsMappable(cache[name], down, a, b)
    requires FollowsReadiness(run, config, cache, completed)
    ensures (forall n: nat :: HasRun(start, n, run, maxRetries))
       <==> !RangesAreDone(cache, down, a, b, config, r, completed)
  {
    hide AreRounds, Key, IsReady, RangesAreDone, InKeyRange, IsMappable, Budget, Claimable;
    ReadyIffRangesAreDone(cache, down, a, b, config, r, completed);
    if RangesAreDone(cache, down, a, b, config, r, completed) {
      var most := Budget(start.rows, maxRetries, maxRetries);
      if HasRun(start, most + 1, run, maxRetries) {
        var rounds :| |rounds| == most + 1 && AreRounds(start, rounds, run, maxRetries);
        CompletedRangesLetJobFinish(start, rounds, run, maxRetries, cache, down, a, b, config, r, completed);
      }
    } else {
      var n :| a <= n <= b && !IsReady(Key(down, n), config, cache, completed);
      assert HasRow(start.rows, Key(down, n));
      var i :| 0 <= i < |start.rows| && start.rows[i].key == Key(down, n);
      forall m: nat ensures HasRun(start, m, run, maxRetries) {
        var rounds := NeverReadyRunsOn(start, run, maxRetries, i, m);
      }
    }
  }
}
