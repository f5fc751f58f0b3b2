# Servo in Dafny

A model of the in-memory logic of Servo, an asset orchestrator, with proofs of what that logic
guarantees. `dafny verify dfyconfig.toml` checks the whole project.

| file | component |
|---|---|
| `src/Compiler.dfy`, `src/Digraphs.dfy` | the workflow compiler: existence check, then Kahn's algorithm over hash maps |
| `src/Lineage.dfy`, `src/Walks.dfy` | the lineage graph and its breadth-first queries, against shortest walks |
| `src/CircuitBreaker.dfy`, `src/BreakerRuns.dfy`, `src/BreakerProbes.dfy`, `src/BreakerGuard.dfy` | the database circuit breaker, and all interleavings of calls through it |
| `src/Calendar.dfy`, `src/ChronoFormat.dfy`, `src/ChronoGrammar.dfy`, `src/Text.dfy` | Gregorian dates and ISO weeks (section 4.1.4 of ISO 8601:2004), how dates are printed and parsed, and strings |
| `src/PartitionKeys.dfy`, `src/PartitionMapping.dfy`, `src/MappingInference.dfy`, `src/PartitionValidator.dfy`, `src/KeyFormats.dfy` | the keys of time partitions, their mapping to upstream keys, and the validation of keys and ranges |
| `src/PartitionResolver.dfy`, `src/UpstreamReadiness.dfy` | resolved upstream ranges against the keys that the readiness check demands |
| `src/Eta.dfy` | the moving average of partition durations |
| `src/BackfillStorage.dfy`, `src/BackfillExecutor.dfy`, `src/BackfillWithUpstream.dfy` | the rows of a backfill job, the statements on them, and the loop that processes the job |
| `src/BackfillProtocol.dfy`, `src/BackfillClaims.dfy`, `src/BackfillCheckpoint.dfy`, `src/BackfillCounters.dfy`, `src/BackfillLosses.dfy`, `src/BackfillAverage.dfy`, `src/BackfillStates.dfy` | that loop interleaved with a user who pauses, resumes and cancels |
| `src/Registry.dfy` | the asset registry and its name index |
| `src/Assets.dfy`, `src/Integers.dfy`, `src/Wrappers.dfy` | shared types |

What the original does step by step is a class whose methods are proved against functions and
predicates on values; the laws are lemmas about those. Iterating a hash map is an arbitrary choice.
A call through the circuit breaker is two atomic steps, and its clock never runs backwards. Time is
a parameter of the steps that read it. What becomes of executing a partition at a given attempt is
a parameter of the backfill loop.

## Where the code differs from its own description

- `register_asset` recognises duplicates by name only; an id registered again replaces the asset (servo-core/src/compiler.rs:45-54).
- A list that names an asset twice is reported as a circular dependency (servo-core/src/compiler.rs:144-146).
- The end of a downstream range is documented as exclusive and treated as inclusive
  (servo-runtime/src/partition_resolver.rs:74, 126-143); `RangeCoversRequiredKeys` has it included.
- A date as a week key is described as the Monday of the week; any day is taken for a Monday
  (servo-core/src/partition_mapping.rs:155, 492-493): `WeekGivenByDate`.
- A range is compared by string. Among keys of which one is padded that is the order in time exactly
  if the other is padded too (`IsInOrderIffPadded`; an hourly key may have minutes), though months,
  days and hours without padding and hours with a `T` pass the format check
  (servo-core/src/partition_validator.rs:141-226). So do dates for weeks, which are in order
  exactly before the first week of their year: `DateIsInOrderIff`.
- A week key is described as an ISO week or the date of its Monday
  (servo-core/src/partition_validator.rs:153-157); its number is not looked at, so that `2024-W99`
  passes: `WeekDenotesIff`.
- The factor of an aggregation is not used (servo-core/src/partition_mapping.rs:148); the inferred
  one of 30 is right for months of thirty days only: `FactorIsCount`.
- The guard of the half-open breaker is there to prevent concurrent probes
  (servo-storage/src/circuit_breaker.rs:112). It does exactly as long as it is set and no other call
  is in flight: `CanBeJoinedIff`. A probe whose future is dropped keeps the guard, and with nothing in
  flight the breaker is open for good: `IsStuckIff`.
- An asset id added to the lineage graph again moves the index to a new node, and the old one keeps its
  edges (servo-lineage/src/graph.rs:38-43). Ancestors and descendants then no longer
  correspond, exactly if one of those edges is not a loop: `NewNodeKeepsDualityIff`.
- Child jobs for upstream assets are created without partition rows
  (servo-storage/src/postgres.rs:4132-4169, servo-storage/migrations/007_add_backfill_tables.sql:16;
  the rows of other jobs come from servo-cli/src/commands/backfill.rs:250 and :427). Such a job ends
  completed with 0 of 0 partitions (`EmptyJobCompletes`) and completes nothing upstream, and the
  waiting parent goes on (servo-storage/src/postgres.rs:3958-3995). If no other job completes the
  ranges, the parent's loop can go on for ever: `JobRunsOnIff`.
- The executor looks for a pause or a cancellation before each partition
  (servo-runtime/src/backfill_executor.rs:268-336). Two more can be claimed all the same, exactly if
  the pause comes after both looks and, when the first has failed, something can be retried:
  `CanClaimTwiceIff`.
- A pause is described as keeping the last completed partition as the checkpoint
  (servo-storage/src/postgres.rs:3088-3092). Progress is written only to running jobs, so what
  completes after the pause is left out, and its count is lost: `CheckpointIsCurrentIff`,
  `CountersAgreeIffHeard`. Paused and resumed between two looks of the executor, a whole job can be
  completed uncounted: `WholeJobUnheard`. A lost completion can turn the job's result into failed;
  if it does not, the job can take the branch described as not happening
  (servo-runtime/src/backfill_executor.rs:484-495): `FinishedJob`.
- A partition put back because its upstream is not ready is counted as completed, becomes the
  checkpoint and enters the average (servo-runtime/src/backfill_executor.rs:911-932, 365-381):
  `SessionNamesCompletedIff`, and the last term of `ProcessJob`.
- A cancellation marks rows as skipped without counting them: `CancelledSkipsAreNotCounted`.
- An average below half a millisecond is stored as zero and forgotten on resuming: `DriftIsBoundedIff`.
- Windows and offsets going back from a leap second at the end of an hour start one hour later:
  `OffsetRoundTrip`.

## Model

| member | source | states |
|---|---|---|
| Compiler.WorkflowCompiler.Compile | servo-core/src/compiler.rs:57-65 | succeeds exactly on workflows whose assets are all registered, whose dependencies are all registered and listed, whose list has no repeats and whose dependency graph has no cycle; the plan is a permutation of the list with every upstream asset before its dependents; a missing asset is reported before a dangling dependency, and that before a circular one |
| Compiler.WorkflowCompiler.TopologicalSort | servo-core/src/compiler.rs:78-149 | the same for registered assets: in a closed workflow the only error is the circular one, otherwise the first dangling dependency in list order is named |
| Compiler.WorkflowCompiler.ValidateAssetsExist | servo-core/src/compiler.rs:68-75 | passes exactly if every listed asset is registered, and otherwise names the first that is not |
| Compiler.WorkflowCompiler.BuildTables | servo-core/src/compiler.rs:82-118 | the tables hold, per node, its children edge by edge and the number of edges into it; it fails exactly when some dependency is not registered or not listed, and names the first |
| Compiler.WorkflowCompiler.AddDependencies | servo-core/src/compiler.rs:98-117 | the inner loop: adds the edges of one asset up to its first unresolved dependency |
| Compiler.WorkflowCompiler.InitialReady | servo-core/src/compiler.rs:121-124 | the queue starts with exactly the nodes of in-degree zero, each once, in whatever order the hash map is iterated |
| Compiler.WorkflowCompiler.OrderByInDegree | servo-core/src/compiler.rs:121-142 | for every such order the loop ends and leaves the invariant with an empty queue; no decrement underflows |
| Compiler.WorkflowCompiler.ReleaseChildren | servo-core/src/compiler.rs:131-141 | the inner loop releases one edge per child entry and keeps the invariant |
| Compiler.PopKeepsInvariant | servo-core/src/compiler.rs:128-131 | popping keeps each in-degree equal to the edges from nodes not yet processed, queued nodes distinct and upstream first |
| Compiler.ReleaseKeepsInvariant | servo-core/src/compiler.rs:132-140 | releasing an edge finds a positive in-degree and queues the child exactly when it was the last one |
| Compiler.PendingDone | servo-core/src/compiler.rs:115-139 | the edges that finishing a node releases are exactly the entries of its child list, parallel edges counted |
| Compiler.LeftOverIsStuck | servo-core/src/compiler.rs:144-146 | with the queue empty every unordered node waits for another unordered node |
| Compiler.ExhaustedRun | servo-core/src/compiler.rs:128-146 | an exhausted run has ordered every node exactly if the graph is acyclic; otherwise the unordered nodes contain a cycle |
| Compiler.FullOrderIsExecutionOrder | servo-core/src/compiler.rs:144-148 | a full upstream-first order of a repeat-free list is an execution order of the workflow |
| Compiler.WorkflowCompiler.RegisterAsset | servo-core/src/compiler.rs:45-54 | refuses exactly a known name; an id registered again under a new name replaces the entry of that id |
| Compiler.WorkflowCompiler.constructor | servo-core/src/compiler.rs:37-42 | an empty, valid compiler |
| Lineage.LineageGraph.AddNode | servo-lineage/src/graph.rs:38-43 | appends a node and makes it the indexed one of its asset; ids stay unique if the asset was unknown |
| Lineage.LineageGraph.AddEdge | servo-lineage/src/graph.rs:46-63 | appends one edge between the indexed nodes, or names the first unknown asset and changes nothing |
| Lineage.LineageQuery.Path | servo-lineage/src/queries.rs:106-144 | an answer exactly if both assets are known and a walk leads from one to the other; it labels an edge-by-edge walk from source to target and no walk is shorter |
| Lineage.LineageQuery.ReconstructPath | servo-lineage/src/queries.rs:123-131 | following parent links ends at the source with a walk as long as the target is distant |
| Lineage.LineageQuery.VisitNeighbors | servo-lineage/src/queries.rs:134-140 | the inner loop keeps the state of the search |
| Lineage.LineageQuery.Distance | servo-lineage/src/queries.rs:202-204 | the length of a shortest walk, or nothing exactly if there is no walk |
| Lineage.LineageQuery.IsReachable | servo-lineage/src/queries.rs:147-149 | true exactly if some walk leads there |
| Lineage.LineageQuery.TraverseWithDepth | servo-lineage/src/queries.rs:207-255 | lists each node exactly once per its shortest nonempty walk within the limit, a direct neighbor once per parallel edge, in order of depth |
| Lineage.LineageQuery.EnqueueNeighbors | servo-lineage/src/queries.rs:225-228 | queues the target of every edge out of the start, and does not mark the start |
| Lineage.LineageQuery.EnqueueUnvisited | servo-lineage/src/queries.rs:241-249 | the inner loop keeps the state of the traversal |
| Lineage.AnswersAreExact | servo-lineage/src/queries.rs:207-255 | as a set the answer is exactly the assets whose shortest nonempty walk is within the limit, each with its length |
| Lineage.LimitCutsAnswers | servo-lineage/src/queries.rs:230-249 | a limit keeps exactly the answers of the unlimited query of depth one up to the limit |
| Lineage.SortIsIdentity | servo-lineage/src/queries.rs:252-253 | sorting by depth changes nothing in a list already in that order |
| Lineage.LineageQuery.AncestorsWithDepth | servo-lineage/src/queries.rs:57-67 | exactly the assets from which the asset is reached within the limit, at their distances |
| Lineage.LineageQuery.DescendantsWithDepth | servo-lineage/src/queries.rs:73-79 | exactly the assets reached within the limit, at their distances |
| Lineage.LineageQuery.CommonAncestors | servo-lineage/src/queries.rs:154-168 | exactly the assets that are ancestors of both, each once |
| Lineage.LineageQuery.CommonDescendants | servo-lineage/src/queries.rs:173-187 | exactly the assets that are descendants of both, each once |
| Lineage.LineageQuery.FullLineage | servo-lineage/src/queries.rs:84-100 | both unlimited traversals with their sizes and greatest depths |
| Lineage.AncestorsAndDescendantsAreDual | servo-lineage/src/queries.rs:57-79 | when no edge joins an indexed node and a replaced one, for all assets, limits and depths: a is an ancestor of b at depth d exactly if b is a descendant of a at depth d |
| Lineage.UniqueIdsAreIndexed | servo-lineage/src/graph.rs:38-63 | with no two nodes for one asset there is no such edge |
| Lineage.NewNodeMixesEdgesIff | servo-lineage/src/graph.rs:38-43 | adding a node makes such an edge exactly if the node it replaces in the index has an edge that is not a loop |
| Lineage.NewNodeKeepsDualityIff | servo-lineage/src/graph.rs:38-43 | from a graph without such an edge, adding a node keeps the duality for all pairs exactly if its asset is new or the node it replaces has no edges but loops |
| Lineage.WalksStayIndexed | servo-lineage/src/graph.rs:38-63 | without such an edge a walk from an indexed node visits only indexed nodes |
| Lineage.DistanceIsDescendantDepth | servo-lineage/src/queries.rs:199-255 | for distinct assets, without such an edge, the distance is d exactly if the unlimited descendants have the entry with depth d |
| Lineage.EndNodesReachNothing | servo-lineage/src/graph.rs:115-140 | a node is an end node exactly if its traversal in that direction is empty |
| Lineage.EndNodesIncrease | servo-lineage/src/graph.rs:115-140 | end nodes are listed in index order, each once |
| Lineage.RootsAndLeavesAreEnds | servo-lineage/src/graph.rs:115-140 | the roots (the leaves) are exactly the assets of nodes from which no walk leads towards ancestors (descendants) |
| Walks.FlipDistance | servo-lineage/src/queries.rs:57-79 | shortest nonempty walks have the same length against the edges |
| BreadthFirst.ShortWalksAreFound | servo-lineage/src/queries.rs:121-141 | whatever a walk shorter than the queue reaches has been discovered, no later than the walk |
| BreadthFirst.FoundAtDistance | servo-lineage/src/queries.rs:121-141 | a node next in the queue carries its distance |
| CircuitBreaker.DatabaseCircuitBreaker.constructor | servo-storage/src/circuit_breaker.rs:133-154 | a closed breaker with nothing recorded |
| CircuitBreaker.DatabaseCircuitBreaker.Arrive | servo-storage/src/circuit_breaker.rs:175-213 | the decision about an arriving call, and the guard set exactly for a probe |
| CircuitBreaker.DatabaseCircuitBreaker.Succeed | servo-storage/src/circuit_breaker.rs:219-251 | any success resets the breaker, a straggler's too |
| CircuitBreaker.DatabaseCircuitBreaker.Fail | servo-storage/src/circuit_breaker.rs:252-307 | counts the failure, moves its time, opens at the threshold and clears the guard if it is that of a probe; what that means over runs is `GuardIsSetIff` |
| CircuitBreaker.DatabaseCircuitBreaker.IsOpen | servo-storage/src/circuit_breaker.rs:311-318 | reports open only while every call is rejected; a rejection it does not report is due to the guard |
| BreakerRuns.FailureCountTheorem | servo-storage/src/circuit_breaker.rs:219-308 | after any interleaving the counter is the length of the trailing run of failures in the completion log (modulo 2^32), the breaker is open exactly if that run has reached the threshold, the gauge agrees and the failure time is that of the last failure |
| BreakerRuns.RejectionTheorem | servo-storage/src/circuit_breaker.rs:174-213 | a call is rejected exactly if the log has tripped the breaker and the last failure is too recent or the guard is set |
| BreakerRuns.GuardTheorem | servo-storage/src/circuit_breaker.rs:177-268 | a set guard implies an open breaker with a failure time, and the probe that set it is in flight or was dropped |
| BreakerGuard.GuardIsSetIff | servo-storage/src/circuit_breaker.rs:174-268 | for every interleaving: the guard is set exactly if a probe was let through, and since then no call has succeeded and no probe has failed |
| BreakerGuard.StragglersKeepGuard | servo-storage/src/circuit_breaker.rs:191-268 | while the guard is set, any number of failures of calls that were no probes leave it set and the breaker open, and nobody is let through |
| BreakerRuns.QuietBreakerProbes | servo-storage/src/circuit_breaker.rs:177-213 | an open breaker with nothing in flight, past the timeout, admits the next call as a probe exactly if the guard is clear; it is clear unless a probe was dropped |
| BreakerRuns.DroppedProbeSticks | servo-storage/src/circuit_breaker.rs:177-268 | a dropped probe whose guard nothing in flight can clear makes every later call be rejected, for good |
| BreakerRuns.DroppedProbeExample | servo-storage/src/circuit_breaker.rs:177-217 | such a state is reached |
| BreakerRuns.ProbesAreSpaced | servo-storage/src/circuit_breaker.rs:174-213 | in one unbroken open spell the k-th call let through arrives at least k timeouts after the spell began, for every interleaving with stragglers |
| BreakerRuns.SpellInvariant | servo-storage/src/circuit_breaker.rs:174-294 | what every prefix of an open spell keeps: the next call let through is a timeout later than the bound so far |
| BreakerRuns.TwoProbesAtOnce | servo-storage/src/circuit_breaker.rs:219-268 | a run with two probes in flight |
| BreakerProbes.NobodyJoins | servo-storage/src/circuit_breaker.rs:174-213 | with only the probe in flight no other call is admitted until it leaves |
| BreakerProbes.SecondProbe | servo-storage/src/circuit_breaker.rs:219-268 | any other call in flight can let a second probe join the first |
| BreakerProbes.GuardIsClear | servo-storage/src/circuit_breaker.rs:174-213 | with the guard clear a second probe can join one in flight |
| BreakerProbes.CanBeJoinedIff | servo-storage/src/circuit_breaker.rs:168-308 | a second probe can be in flight with any given one in some continuation exactly if the guard is clear or another call is in flight |
| BreakerProbes.IsStuckIff | servo-storage/src/circuit_breaker.rs:174-268 | the breaker rejects every call for good, in all continuations, exactly if its guard is set and nothing is in flight |
| Calendar.DayNumberIsOrderIsomorphism | servo-core/src/partition_mapping.rs:509-526 | dates and day numbers correspond one to one and in the same order |
| Calendar.YearLength | servo-core/src/partition_mapping.rs:524-526 | a year has 365 or 366 days by the leap-year rule |
| Calendar.MonthsFillYear | servo-core/src/partition_mapping.rs:509-522 | the month lengths of a year add up to the year |
| Calendar.MonthStarts | servo-core/src/partition_mapping.rs:509-522 | each month starts where the 153-day rule puts it, after 31 days of January and 28 or 29 of February |
| Calendar.CalendarRepeats | servo-core/src/partition_mapping.rs:524-526 | 400 years have 97 leap days and are whole weeks |
| Calendar.KnownDays | servo-core/src/partition_mapping.rs:509-526 | 1 January 1970 is day 719162, a Thursday; 1900 has no leap day and 2000 has one |
| Calendar.IsoWeekIsFound | servo-core/src/partition_mapping.rs:482-494 | every week is the numbered week of the ISO year of its Thursday, and that number leads back to its Monday |
| Calendar.WeeksInYearIs52Or53 | servo-core/src/partition_mapping.rs:482-494 | ISO years have 52 or 53 weeks and start within three days of 1 January |
| Calendar.AnchorOfTheWeek | servo-core/src/partition_mapping.rs:155-158 | 15 January 2024 is a Monday, in week 3 |
| ChronoFormat.ParseOfDate | servo-core/src/partition_mapping.rs:471-473 | a printed date of any representable year is parsed to its day number |
| ChronoFormat.ParseOfMoment | servo-core/src/partition_mapping.rs:475-480 | a printed date and time of two-digit fields is parsed by the format with its separator to its moment, or refused exactly if it is no date or no time of day, and never parsed by the other format |
| ChronoFormat.PaddedDate | servo-core/src/partition_mapping.rs:471-473 | a text of padded fields is what is printed for the date it is parsed to |
| ChronoGrammar.DateIsParsedIff | servo-core/src/partition_mapping.rs:471-473 | a text is parsed as a date exactly if it has the form of one, with white space before its numbers and one or two digits, that exists; then as that date |
| ChronoGrammar.HourIsParsedIff | servo-core/src/partition_mapping.rs:475-480 | a text is parsed as an hourly key exactly if it has the form of a date and a time, apart by white space or a T, that exist; then as that moment |
| Text.IntegerIsParsedIff | servo-core/src/partition_mapping.rs:484-507 | an integer field is parsed exactly if it is digits after at most one sign, in range, and a week or month number without a minus |
| Text.PrefixIsLess | servo-core/src/partition_validator.rs:208-226 | a proper prefix of a key compares as before it |
| PartitionKeys.DayKeyRoundTrip | servo-core/src/partition_mapping.rs:471-473 | printing a day and parsing it gives it back, for all representable days |
| PartitionKeys.HourKeyRoundTrip | servo-core/src/partition_mapping.rs:475-480 | the same for the full hours of all representable days |
| PartitionKeys.WeekKeyRoundTrip | servo-core/src/partition_mapping.rs:482-494 | the same for ISO weeks, giving the Monday |
| PartitionKeys.MonthKeyRoundTrip | servo-core/src/partition_mapping.rs:496-507 | the same for months |
| PartitionKeys.YearKeyRoundTrip | servo-core/src/partition_mapping.rs:190-193 | the same for years |
| PartitionKeys.DateAsWeekKey | servo-core/src/partition_mapping.rs:492-493 | a date given as a week key is taken for the Monday whatever day it is |
| PartitionKeys.IsoWeekIsUnique | servo-core/src/partition_mapping.rs:482-494 | a week has only one number |
| PartitionKeys.KeyOrder | servo-core/src/partition_validator.rs:208-226 | canonical keys of one granularity compare as strings as their partitions compare in time |
| PartitionMapping.AggregationIsInterval | servo-core/src/partition_mapping.rs:145-203 | an aggregated key maps to exactly the upstream keys from its start to the start of the next key |
| MappingInference.AggregationOfAnyKey | servo-core/src/partition_mapping.rs:145-203 | any key that parses, canonical or not, maps to the interval of its partition, or for weeks to the seven days from its first; any other key, and any other pair of granularities, to the key itself |
| MappingInference.InferredIff | servo-core/src/partition_mapping.rs:387-468 | a mapping is inferred exactly between equal or aggregating granularities, two range types and two custom types, and is the identity unless the granularities differ |
| MappingInference.FactorIsCount | servo-core/src/partition_mapping.rs:387-468 | the inferred factor is the number of upstream keys of every key, except that a month has as many exactly if it has thirty days |
| PartitionMapping.AggregationTiles | servo-core/src/partition_mapping.rs:145-203 | over consecutive downstream keys the upstream keys follow one another without gap or overlap |
| PartitionMapping.YearMapsToItsDays | servo-core/src/partition_mapping.rs:145-203 | year to months to days lists every day of the year once and in order, 365 or 366 of them |
| PartitionMapping.WeekGivenByDate | servo-core/src/partition_mapping.rs:154-159 | a week given by a date gets the seven days from that date, its ISO week's days exactly if the date is a Monday |
| PartitionMapping.WindowKeys | servo-core/src/partition_mapping.rs:206-241 | a window lists the canonical keys of the partition and those before it, latest first, going back from a leap second at the end of an hour starting one hour later; a key that does not parse only itself |
| PartitionMapping.OffsetKey | servo-core/src/partition_mapping.rs:244-269 | an offset gives the canonical key that many periods away, with the same exception |
| PartitionMapping.HourBySeconds | servo-core/src/partition_mapping.rs:219-263 | moving by hours is adding seconds and cutting off to the hour; a leap second counts only on the way back |
| PartitionMapping.WindowIsOffsets | servo-core/src/partition_mapping.rs:206-269 | for every key, element i of a window of any size is the offset by -i |
| PartitionMapping.OffsetRoundTrip | servo-core/src/partition_mapping.rs:244-269 | offset n and then -n returns the canonical key of the partition, exactly unless it goes back from a leap second at the end of an hour; hence the key itself exactly if it is canonical |
| PartitionMapping.DailyKeyIsCanonicalIff | servo-core/src/partition_mapping.rs:471-473 | a daily key that parses is canonical exactly if its fields are padded |
| PartitionMapping.HourlyKeyIsCanonicalIff | servo-core/src/partition_mapping.rs:475-480 | an hourly key that parses is canonical exactly if its fields are padded, it has one space and it is on the hour |
| PartitionMapping.MomentTextIffPadded | servo-core/src/partition_mapping.rs:475-480 | an hourly key that parses is the printed text of its moment exactly if its fields are padded and it has one space |
| PartitionValidator.CanonicalKeyIsValid | servo-core/src/partition_validator.rs:141-182 | canonical keys pass the format check of their granularity; what fails it is `KeyFormats.AcceptedKeysDenote` |
| KeyFormats.AcceptedKeysDenote | servo-core/src/partition_validator.rs:141-182 | a key of hours, days, months or years is accepted exactly if it stands for a partition, in two fields for a month and in four bytes for a year; a refused key is named with its type |
| KeyFormats.DayIsAcceptedIff | servo-core/src/partition_validator.rs:149-152 | a daily key is accepted exactly if it has the form of a date that exists |
| KeyFormats.PrintedIsAcceptedIff | servo-core/src/partition_validator.rs:149-152 | a printed date is accepted exactly if it exists and its year is between -262143 and 262142 |
| KeyFormats.HourIsAcceptedIff | servo-core/src/partition_validator.rs:143-148 | an hourly key is accepted exactly if it has the form of a date and a time that exist |
| KeyFormats.PaddedIsAcceptedIff | servo-core/src/partition_validator.rs:141-182 | a text of padded fields is accepted exactly if its month, day and time exist; a week always |
| KeyFormats.WeekDenotesIff | servo-core/src/partition_validator.rs:153-157 | a padded week key is always accepted, and stands for a week exactly if its year has one of that number |
| KeyFormats.WeekIsAcceptedIff | servo-core/src/partition_validator.rs:153-157 | a year and a week in digits pass exactly if they have five digits or more together |
| KeyFormats.RefusedAndAccepted | servo-core/src/partition_validator.rs:141-182 | 2024-13-45 and a word are refused as days, 2024-13 as a month, and 2024-W99 is accepted as a week that no year has |
| KeyFormats.RangeErrors | servo-core/src/partition_validator.rs:208-226 | a range is accepted exactly if both keys are and the start compares as before the end; the error names the start, or else the end, if it is malformed, and otherwise both |
| KeyFormats.RangeKeys | servo-core/src/partition_validator.rs:188-205 | range keys are accepted exactly within the bounds, the lower included, and their backfill ranges lie within them |
| KeyFormats.CustomKeys | servo-core/src/partition_validator.rs:129-134 | custom keys are never refused, only put in order |
| PartitionValidator.CanonicalRangeIsChronological | servo-core/src/partition_validator.rs:208-226 | a canonical range is accepted exactly if it starts before it ends in time |
| PartitionValidator.IsInOrderIffPadded | servo-core/src/partition_validator.rs:208-226 | hourly keys with their minutes and seconds, days, months and years: an accepted key compares with all padded keys in the order of time, as start and as end, exactly if it is padded |
| PartitionValidator.CanonicalIffPadded | servo-core/src/partition_validator.rs:141-182 | in every granularity a key is canonical exactly if it is padded and, if hourly, on the hour |
| PartitionValidator.WeekIsInOrderIff | servo-core/src/partition_validator.rs:208-226 | week keys: exactly if it is padded, or stands for seven days that are no week and compares as between the weeks that they overlap |
| PartitionValidator.DateIsInOrderIff | servo-core/src/partition_validator.rs:208-226 | for a date given as a week key that is exactly if the date is before the first week of its year |
| PartitionValidator.PaddedKeysAreInOrder | servo-core/src/partition_validator.rs:208-226 | a range between two padded keys is accepted exactly if it starts before it ends in time |
| PartitionValidator.MomentTextOrder | servo-core/src/partition_validator.rs:208-226 | printed moments compare as strings as they compare in time, leap seconds included |
| PartitionValidator.YearKeysArePadded | servo-core/src/partition_validator.rs:168-171 | accepted year keys of a year in range always are |
| PartitionValidator.UnpaddedMonthsCompareWrongly | servo-core/src/partition_validator.rs:208-226 | month keys: a range running backwards is accepted and the right one refused |
| PartitionValidator.UnpaddedDaysCompareWrongly | servo-core/src/partition_validator.rs:208-226 | day keys: every padded day of January counts as before an unpadded one |
| PartitionValidator.SeparatorsCompareWrongly | servo-core/src/partition_validator.rs:208-226 | hour keys: one with a T counts as after every canonical hour of its day |
| PartitionValidator.DatesComeBeforeWeeks | servo-core/src/partition_validator.rs:208-226 | week keys: a date counts as before every numbered week of its year |
| PartitionResolver.SameMapping | servo-runtime/src/backfill_executor.rs:1179-1214 | range view and key view choose the same mapping exactly if one is inferred or the default leaves the key alone; the executor's default does |
| MappingInference.DefaultIsNeverCustom | servo-runtime/src/partition_resolver.rs:52-65 | a custom default gives way to the identity, which maps every key alike |
| MappingInference.UnmappedRange | servo-runtime/src/partition_resolver.rs:80-184 | without an inferred mapping the default is used, and an identity or custom mapping leaves the range as it is |
| PartitionResolver.RequiredIsInterval | servo-runtime/src/backfill_executor.rs:1179-1214 | a downstream key needs exactly the upstream keys of its interval |
| PartitionResolver.ResolvedRange | servo-runtime/src/partition_resolver.rs:80-184 | the range runs from the first key needed by the start to the last needed by the end |
| PartitionResolver.RangeCoversRequiredKeys | servo-runtime/src/partition_resolver.rs:80-184 | an upstream key lies in the resolved range, as a string, exactly if some downstream key from start to end, the end included, needs it |
| PartitionResolver.WindowDefaultRange | servo-runtime/src/partition_resolver.rs:145-155 | a window default starts at the earliest partition of the start's window |
| PartitionResolver.WindowRangeCoversWindows | servo-runtime/src/partition_resolver.rs:145-155 | its range holds exactly the windows of the partitions from start to end |
| PartitionResolver.OffsetDefaultRange | servo-runtime/src/partition_resolver.rs:157-172 | an offset default shifts both ends |
| PartitionResolver.OffsetRangeCoversOffsets | servo-runtime/src/partition_resolver.rs:157-172 | its range holds exactly the shifted partitions from start to end |
| UpstreamReadiness.ResolveUpstreamPartitions | servo-runtime/src/backfill_executor.rs:1179-1217 | one entry per upstream asset, holding the keys it must provide |
| UpstreamReadiness.CheckUpstreamReady | servo-runtime/src/backfill_executor.rs:1224-1264 | true exactly if every required partition of every upstream asset is completed |
| UpstreamReadiness.CompletedRangeMakesReady | servo-runtime/src/backfill_executor.rs:1224-1264 | all partitions of the resolved upstream range are completed, by whatever job, exactly if every downstream partition from start to end finds its upstream completed |
| Eta.EtaCalculator.constructor | servo-runtime/src/eta.rs:36-42 | nothing observed, the smoothing factor clamped |
| Eta.EtaCalculator.WithInitialAvg | servo-runtime/src/eta.rs:47-53 | a stored average counts as one observation exactly if it is positive |
| Eta.EtaCalculator.Update | servo-runtime/src/eta.rs:59-72 | the first observation is taken as it is, later ones are blended in |
| Eta.EtaCalculator.AvgDurationMs | servo-runtime/src/eta.rs:75-77 | the average rounded to the nearest millisecond |
| Eta.EtaCalculator.EstimateRemaining | servo-runtime/src/eta.rs:87-94 | nothing exactly before the first observation; otherwise within half a millisecond of the product |
| Eta.AverageStaysInRange | servo-runtime/src/eta.rs:59-72 | the average stays between any bounds of the observations and of a positive initial average |
| Eta.DifferenceDecays | servo-runtime/src/eta.rs:59-72 | n identical updates shrink the difference of two averages by (1 - alpha)^n |
| Eta.ResumedDriftDecays | servo-runtime/src/eta.rs:36-77 | resuming from a positive stored average drifts by at most half a millisecond times (1 - alpha)^n |
| Eta.DriftIsBoundedIff | servo-runtime/src/eta.rs:36-77 | that bound holds for all further durations exactly if the stored average is positive, or nothing was observed, or alpha is 1 |
| Eta.ForgottenAverage | servo-runtime/src/eta.rs:47-53 | an average that rounds to zero is forgotten on resuming |
| BackfillStorage.FirstOfMore | servo-storage/src/postgres.rs:2382-2397 | the order in which the claim query puts rows can be decided one row after the other |
| BackfillStorage.NextClaimIff | servo-storage/src/postgres.rs:2382-2397 | the claim query takes a pending row if there is one, otherwise a failed one with a retry left, and of those the one with the least key |
| BackfillStorage.FindNextClaim | servo-storage/src/postgres.rs:2382-2397 | there is a row to claim exactly if a row is pending or failed with a retry left |
| BackfillStorage.LastCompleted | servo-storage/src/postgres.rs:3128-3140 | the completed row with the latest completion |
| BackfillStorage.TallyAfterUpdate | servo-storage/src/postgres.rs:2400-2415 | changing a row moves it from one class to another |
| BackfillStorage.TalliesFillTheTable | servo-storage/src/postgres.rs:2371-2442 | every row is to do, in progress, done, given up or skipped |
| BackfillStorage.NothingToClaimTally | servo-storage/src/postgres.rs:2382-2397 | nothing can be claimed exactly if no row is to do |
| BackfillExecutor.Storage.ClaimPendingPartition | servo-storage/src/postgres.rs:2371-2442 | selects the first claimable row by state and key, marks it running and counts the attempt; returns nothing exactly if there is none |
| BackfillExecutor.Storage.ExecutePartition | servo-runtime/src/backfill_executor.rs:888-984 | completes, fails or puts back the row; putting back is reported as success |
| BackfillExecutor.Storage.SaveProgress | servo-storage/src/postgres.rs:3333-3373 | writes the progress only while the job is running |
| BackfillExecutor.Storage.Finish | servo-storage/src/postgres.rs:2881-2947 | moves the running job to its final state |
| BackfillExecutor.Executor.ProcessJob | servo-runtime/src/backfill_executor.rs:249-519 | the loop ends within the attempts left; its counters then add up to the rows that no stale claim holds, plus what they were off by before, plus one per partition put back; the job fails exactly if some partition failed and none is counted as completed, and has unprocessed partitions exactly if it does not fail and the sum is below the total |
| BackfillAverage.AverageOfRounds | servo-runtime/src/backfill_executor.rs:365-473 | after any rounds the average is that of the durations of all executions that returned Ok, in order, on top of the stored one if that is positive; after one round at least it is what is stored |
| BackfillAverage.SessionStartsFromStored | servo-runtime/src/backfill_executor.rs:271-275 | a session starts from the stored average, with the smoothing factor 0.3 |
| BackfillAverage.AverageOfSession | servo-runtime/src/backfill_executor.rs:365-473 | in a session with pauses and cancellations the average is that of the durations of the executions that returned Ok, and while the job keeps running it is what is stored, except between an execution and its report |
| BackfillExecutor.RoundKeepsCounts | servo-runtime/src/backfill_executor.rs:336-477 | a round keeps the counters in step with the rows and spends a claim of the budget |
| BackfillExecutor.CountsAddUp | servo-runtime/src/backfill_executor.rs:479-495 | with nothing left to claim, completed, failed and skipped add up as stated |
| BackfillExecutor.RunsKeepInvariant | servo-runtime/src/backfill_executor.rs:265-477 | every run of the loop keeps the invariant |
| BackfillExecutor.NoRequeues | servo-runtime/src/backfill_executor.rs:911-932 | with upstream always ready no partition is put back |
| BackfillExecutor.UndisturbedJobIsFullyProcessed | servo-runtime/src/backfill_executor.rs:265-495 | with upstream ready, no stale claims and matching counters there are at most as many rounds as attempts left, and the branch for unprocessed partitions is never reached |
| BackfillWithUpstream.ReadyIffRangesAreDone | servo-runtime/src/backfill_executor.rs:1224-1264 | every partition of a range is ready exactly if the ranges resolved for all upstream assets are completed, by whatever job |
| BackfillWithUpstream.CompletedRangesLetJobFinish | servo-runtime/src/backfill_executor.rs:905-932 | then no partition is put back, rounds are at most the attempts left, and every row is processed |
| BackfillWithUpstream.EmptyJobCompletes | servo-runtime/src/backfill_executor.rs:328-519 | a job without partition rows, as child jobs are created, ends completed in no round |
| BackfillWithUpstream.DoneRangeHasCompletions | servo-runtime/src/backfill_executor.rs:1224-1264 | a resolved range is not completed before some partition of the upstream asset is, so a finished child job alone does not complete it |
| BackfillWithUpstream.NeverReadyRunsOn | servo-runtime/src/backfill_executor.rs:905-932 | with a claimable partition that is never ready the loop has a run of every length |
| BackfillWithUpstream.JobRunsOnIff | servo-runtime/src/backfill_executor.rs:265-477 | while what is completed upstream stays as it is, a new job over a range has loop runs of every length exactly if some resolved upstream range is not completed |
| BackfillProtocol.RoundIsThreeSteps | servo-runtime/src/backfill_executor.rs:336-477 | left alone, claim, execution and report are one round of the loop |
| BackfillProtocol.ExecutorStops | servo-runtime/src/backfill_executor.rs:268-336 | while the job stays paused, or stays cancelled, the executor stops within five steps, at most one of them a claim |
| BackfillProtocol.AtMostTwoClaims | servo-runtime/src/backfill_executor.rs:268-336 | paused and then cancelled there are at most two further claims |
| BackfillClaims.CanClaimTwiceIff | servo-runtime/src/backfill_executor.rs:268-336 | two more partitions can be claimed in some run along which the job is paused or cancelled exactly if it is paused with both checks passed, and after the next claim fails some partition can be retried: the one claimed, with a further attempt left, or one that failed before |
| BackfillClaims.ClaimsSoFar | servo-runtime/src/backfill_executor.rs:268-336 | along every such run: after one claim, if another can still come, the row claimed has one attempt more, the other failed rows are as they were, and a cancellation has left no pending row; after a second claim the stated condition held |
| BackfillClaims.TwoClaimsExample | servo-runtime/src/backfill_executor.rs:268-336 | a job of one partition comes to such a pause |
| BackfillProtocol.RunsExecuteRunningRows | servo-runtime/src/backfill_executor.rs:330-356 | the row being executed is marked running whatever the user does |
| BackfillProtocol.ExecutorIsNotStuck | servo-runtime/src/backfill_executor.rs:267-477 | until it stops the executor always has a next step |
| BackfillStates.FinalStatesStay | servo-storage/src/postgres.rs:2881-3040 | a completed, failed or cancelled job stays so, with its progress, whatever the user and the executor do |
| BackfillStates.PauseIsUndone | servo-storage/src/postgres.rs:3103-3240 | a job paused, resumed and taken again runs as before, except for its checkpoint |
| BackfillStates.StateFollows | servo-runtime/src/backfill_executor.rs:249-519 | every step leads along the stated edges between the states, or leaves the state as it is |
| BackfillStates.CommandsAreAnswered | servo-storage/src/postgres.rs:2253-3240 | which states allow pausing, resuming, cancelling and taking a job, and the error otherwise |
| BackfillCheckpoint.CompletionIsLast | servo-storage/src/postgres.rs:3450-3490 | completing a row makes it the one completed last |
| BackfillCheckpoint.FrozenRun | servo-storage/src/postgres.rs:3344-3354 | from a moment when the job is not running until it is taken again its progress is frozen, and the partition completed last changes exactly if an execution succeeds |
| BackfillCheckpoint.CheckpointIsCurrentIff | servo-storage/src/postgres.rs:3103-3168 | until the job is taken again, whatever the user does, the persisted checkpoint is the partition completed last exactly if none succeeded after the pause, or nothing was completed before it and the checkpoint already named the one that then succeeded last |
| BackfillCheckpoint.CheckpointAfterPause | servo-runtime/src/backfill_executor.rs:312-326 | the same for every run of a new job |
| BackfillCheckpoint.SessionNamesCompletedIff | servo-runtime/src/backfill_executor.rs:356-381 | over a session the executor's checkpoint names only completed partitions exactly if the last execution that returned Ok was not put back; before the first, exactly if it did from the start |
| BackfillCheckpoint.RunsReportCheckpoint | servo-runtime/src/backfill_executor.rs:465-473 | while the job is running its checkpoint is the executor's, but between an execution and its report |
| BackfillCheckpoint.PersistedNamesCompletedIff | servo-runtime/src/backfill_executor.rs:465-473 | so the same holds of the checkpoint in the job row |
| BackfillCheckpoint.PauseNamesCompletedIff | servo-storage/src/postgres.rs:3127-3161 | pausing a new job leaves a checkpoint that names only completed partitions exactly if some partition is completed or there was no checkpoint; otherwise a partition has been put back |
| BackfillCheckpoint.PauseKeepsExecutorsIff | servo-storage/src/postgres.rs:3127-3161 | from a pause until the job is taken again the persisted checkpoint is the partition whose execution returned Ok last, as the executor has it, exactly in the stated cases: it is overwritten whenever some partition is completed and the last Ok was a put-back, or came after the pause |
| BackfillCheckpoint.SessionCheckpoint | servo-runtime/src/backfill_executor.rs:356-381 | while the job keeps running: once an execution has succeeded and none was put back since, the executor's checkpoint is the partition completed last; before the first Ok both checkpoints stay as they were |
| BackfillCheckpoint.RunsNameOnlyCompleted | servo-runtime/src/backfill_executor.rs:380-381 | over any number of sessions, if no partition is put back no checkpoint names an unfinished one |
| BackfillCheckpoint.CompletionAfterPauseIsLost | servo-runtime/src/backfill_executor.rs:312-381 | a partition that completes after the pause is missing from the persisted checkpoint |
| BackfillCheckpoint.PutBackIsRecorded | servo-runtime/src/backfill_executor.rs:911-932 | a run in which a partition put back is the checkpoint and counted as completed while it is pending |
| BackfillCounters.RunsAreAccounted | servo-runtime/src/backfill_executor.rs:265-495 | for every run with any pauses, resumptions, cancellations and put-backs: each counter of the executor and of the job row equals the rows, less what was lost when sessions were cut and what is unreported, plus the put-backs |
| BackfillCounters.GapOfRun | servo-runtime/src/backfill_executor.rs:265-495 | the same as the total discrepancy of the job row and of the executor |
| BackfillCounters.CountersAgreeIff | servo-runtime/src/backfill_executor.rs:465-473 | each counter of the job row agrees with the rows exactly if as many completions are missing as were put back, no failure is missing, and nothing was skipped |
| BackfillCounters.MissingIsIgnored | servo-storage/src/postgres.rs:3344-3354 | what is missing is what reports said that found the job not running, and what is in hand |
| BackfillCounters.CountersAgreeIffHeard | servo-storage/src/postgres.rs:3344-3354 | without put-backs and cancellations the counters agree with the rows exactly if no report with something to say found the job not running and nothing is in hand |
| BackfillCounters.FrozenRunLosesCounts | servo-storage/src/postgres.rs:3344-3354 | while the job is not running every partition that ends is missing from its counters |
| BackfillCounters.PausedRunLosesAtMostOne | servo-runtime/src/backfill_executor.rs:268-336 | if the job stays paused that is at most one |
| BackfillCounters.RunsHaveOneInProgress | servo-storage/src/postgres.rs:2371-2442 | rows marked running are those being executed |
| BackfillCounters.FinishedJob | servo-runtime/src/backfill_executor.rs:479-519 | however often a new job was paused and resumed, it ends with counters that miss its rows by what was lost and exceed them by the put-backs; it fails exactly if more failed than was lost and every completion and put-back was lost; it has unprocessed partitions exactly if it does not fail and more was lost than put back |
| BackfillLosses.WholeJobUnheard | servo-runtime/src/backfill_executor.rs:268-326 | every new job can be completed without one partition being counted, if it is paused and resumed between two looks of the executor |
| BackfillLosses.LostCompletionFailsJob | servo-runtime/src/backfill_executor.rs:484-485 | a job can end as failed with a completed partition whose count was lost |
| BackfillCounters.CancelledSkipsAreNotCounted | servo-storage/src/postgres.rs:2963-3040 | a cancellation skips every pending row and counts none of them as skipped |
| Registry.AssetRegistry.constructor | servo-core/src/registry.rs:42-46 | an empty registry |
| Registry.AssetRegistry.RegisterAsset | servo-core/src/registry.rs:52-67 | inserts into both maps or reports the clash, id first, and keeps the maps inverse |
| Registry.AssetRegistry.RegisterBatch | servo-core/src/registry.rs:70-98 | succeeds exactly if registering one by one would, with the same result; otherwise it changes nothing and reports the first conflict |
| Registry.AssetRegistry.CheckBatch | servo-core/src/registry.rs:73-89 | passes exactly if no asset repeats an earlier one or a registered one |
| Registry.AssetRegistry.UpdateAsset | servo-core/src/registry.rs:101-123 | replaces the asset and moves its name, as `UpdateStores` has it, or changes nothing |
| Registry.AssetRegistry.GetByName | servo-core/src/registry.rs:132-138 | the registered asset of that name, or nothing exactly if no asset has it |
| Registry.AssetRegistry.RemoveAsset | servo-core/src/registry.rs:171-180 | removes the asset with its name |
| Registry.AssetRegistry.Clear | servo-core/src/registry.rs:183-188 | empties both maps |
| Registry.RegisterIsConsistent | servo-core/src/registry.rs:52-67 | registering succeeds exactly if no asset has the id or the name, and keeps the maps inverse |
| Registry.UpdateIsConsistent | servo-core/src/registry.rs:101-123 | updating succeeds exactly if the id is known and no other asset has the name, and keeps the maps inverse |
| Registry.RemoveIsConsistent | servo-core/src/registry.rs:171-180 | removing keeps the maps inverse |
| Registry.RegisterStores | servo-core/src/registry.rs:52-67 | a registered asset is found by its id and its name and everything else as before; otherwise the error names the id in use, or else the name in use |
| Registry.UpdateStores | servo-core/src/registry.rs:101-123 | an updated asset is found under its new name, under a changed old name nothing is, everything else as before; otherwise the error names the unknown id, or the name of another asset |
| Registry.RemoveForgets | servo-core/src/registry.rs:171-180 | a removed asset is found neither by id nor by name, everything else as before; removing an unknown id changes nothing |
| Registry.BatchStores | servo-core/src/registry.rs:70-98 | after a batch its assets are stored besides the ones that were there |
| Registry.ConflictErrorNames | servo-core/src/registry.rs:73-89 | of two conflicts of an asset the one within the batch is reported first, and a name before an id |
| Registry.NameLookupIsSearch | servo-core/src/registry.rs:132-138 | looking a name up is searching all assets for it |
| Registry.RemoveUndoesRegister | servo-core/src/registry.rs:52-180 | removing what was just registered restores the registry |
| Registry.UpdateUndoesUpdate | servo-core/src/registry.rs:101-123 | updating back restores the registry, renamed or not |
| Registry.BatchIsInTurn | servo-core/src/registry.rs:70-98 | the batch check passes exactly if registering one by one succeeds |

## Left out

- BackfillExecutor.Executor.ProcessJob: assumes that from some attempt on the upstream of every row's partition is ready, since otherwise a partition can be put back for ever; and no storage error. An error in the loop's own statements ends it early; one inside the execution of a partition counts as a failed attempt and leaves its row running while the loop goes on.
- BackfillExecutor.Storage.Finish: only for a running job; the error of the transition from another state is the `Finish` step of `BackfillProtocol.Step`.
- PartitionMapping.OffsetRoundTrip: assumes that the partition reached has a date that chrono represents, since the original panics otherwise; and not the least `i32`, whose negation overflows.
- PartitionMapping.DailyKeyIsCanonicalIff: for years 0 to 9999, which are printed without a sign.
- PartitionValidator.IsInOrderIffPadded: for partitions of years 0 to 9999, and 1000 to 9999 for months and years; other years are printed with a sign or in another width, and do not compare in order.
- Lineage.AncestorsAndDescendantsAreDual: once there is an edge between an indexed node and a replaced one the duality can fail or hold, depending on whether other nodes of the same assets have matching edges; when it is lost is `NewNodeKeepsDualityIff`.
- PartitionResolver.RangeCoversRequiredKeys: for canonical keys of years 0 to 9999, and 1000 to 9999 for months and years, whose keys are not padded.
- PartitionMapping.YearMapsToItsDays: years 1000 to 9999; other year keys do not have four digits.
- Eta.AverageStaysInRange: over the reals; floating-point rounding is not modelled.
- BreakerRuns.FailureCountTheorem: the `u32` counter wraps around as in a release build; a debug build panics there.
- Dates outside chrono's range, where the original panics on an overflowing date or an invalid year. The parser is that of chrono 0.4, whose source is not part of this repository.
- Several executors on one job: `SKIP LOCKED`, heartbeats and the reclaiming of jobs with a stale one; an executor that fails between two steps.
- `include_upstream` jobs and the `waiting_upstream` state: discovering upstream assets, the statements that create child jobs and wake the parent; ranges over more than one hop.
- Partition execution itself, delays, the estimated completion time and its cast of a negative remainder to `u32`, metrics other than the breaker's gauge, and logs.
- Range and custom keys beyond comparison with the bounds and the identity, and the dependency validation between partition types.
- `has_cycles`, `get_upstream`, `get_downstream` and the other accessors of the lineage graph, which are library calls or projections of what is modelled.
- Asset metadata other than the partition configuration, and `list`, `count` and the other projections of the registry.
- Poisoned locks of the registry, configuration from the environment, and everything behind HTTP, Postgres and the cloud services.
