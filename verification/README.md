# DevLake framework model

A Dafny model of the parts of DevLake that schedule pipelines, collect and extract data, and migrate
the database, with proofs about them. `dafny verify dfyconfig.toml` checks everything.

| file | what it models |
|---|---|
| `Paging.dfy`, `ApiCollector.dfy` | a remote listing cut into pages, the stop rule on creation dates, and the three paging strategies of the API collector |
| `CollectorState.dfy` | full and incremental runs decided by the saved state, over whole histories of runs |
| `Tables.dfy`, `BatchSave.dfy`, `Extractor.dfy` | tables as maps from primary key to row, the slot buffer in front of the upsert, one batch per type with its one-time delete, and the extraction loop |
| `Queue.dfy` | the linked queue with its counter, and the protocol by which workers find out that all work is done |
| `PipelinePlan.dfy`, `TaskGrid.dfy`, `RunPipeline.dfy` | merging plans, plans as task rows and back, stages run one after the other with the tasks of a stage in any interleaving |
| `PipelineStatus.dfy`, `PipelineLife.dfy` | the newest task of every cell and the pipeline status, when a run can write a false one, and whole lives of a pipeline: runs, reruns, cancellations, restarts |
| `Dispatcher.dfy`, `DispatchLoop.dfy`, `SliceRemove.dfy` | the dispatcher as a state machine and as an object in memory: the cap, label exclusion, and the in-place removal of labels |
| `MigrationHelper.dfy`, `TransformTable.dfy`, `TransformColumns.dfy` | column and table migrations with their deferred compensations, and the transforms that run through a batch |
| `Migrator.dfy` | the migration script runner over restarts |
| `RemoteScopes.dfy` | the page-token walk over groups and then scopes |
| `Sorting.dfy`, `Sequences.dfy`, `Wrappers.dfy` | sorting by key with ties in any order; sequences without duplicates; `Option` |

Where things can happen in any order (jobs of the asynchronous client, goroutines of a stage, batches
of a map, steps of the dispatcher) the model chooses arbitrarily, so every result holds for every
order. A failing database statement is an input (`dbOk`, `Outcomes`), a dying process is a budget of
steps, and what a plugin does is a function or an outcome given from outside. The tables are in
memory and each statement on them is atomic. In the dispatcher a user who cancels or reruns reads in one
step and saves in another, and only what needs the lock of the pipeline table waits in between.

## What turned out to be false

For each of these there is a concrete counterexample or an exact condition.

- **A failed full run keeps what was collected before.** It deletes first, and the saved state still
  claims the window: `CollectorState.FailedFullRunLosesRecord`. `CollectorState.FailedRunCoversIff`
  says exactly when coverage survives a failure.
- **Batching equals upserting one by one.** Composite keys with colons in their fields can share a
  key string, and then a row is lost: `BatchSaves.CompositeKeysCollide`, `BatchSaves.CollisionLosesRow`.
  `BatchSaves.BatchingRefinesIff` is the exact condition.
- **A failed column change is undone.** It is as long as no temporary column was dropped, the migrate
  left nothing behind and the change was confined to the given columns; `DropColumns` drops one column
  at a time, so a failure in the middle of it loses data although the compensations succeed. See
  `MigrationHelper.TableSchema.ChangeColumnsType`.
- **A successful table transform has copied every row.** The last flush happens in a deferred call
  whose error is ignored, and the old table is dropped all the same: `TransformTables.KeptIff` and
  `TransformTables.NothingLostIff`.
- **Every migration script runs exactly once.** It does exactly when no call of Execute meets a
  script whose `Up` succeeds while its history row is not written; `Migrators.Interruptions` counts
  these calls from the given outcomes, and `Migrators.Live` is the equivalence.
  `Migrators.ScriptRunsTwice` is a concrete run.
- **A successful column transform has transformed every row.** The same deferred flush: the rows after
  the last full batch may stay as they were, and the columns with the old data are dropped all the
  same. `ColumnTransforms.AllTransformedIff` is the exact condition.
- **An extraction leaves no outdated row of its origin.** Rows are deleted on the first use of their
  type, so a type of which nothing is yielded any more keeps all its old rows, and without a table or
  params nothing is deleted at all: `Extractor.StaleStaysIff`.
- **A pipeline that is worked on is RUNNING, and nobody else works on it.** The loop marks the pipeline
  it has selected without the lock. A user who has read it before and saves it after that
  overwrites RUNNING, and the pipeline can be rerun and selected again while it is worked on:
  `Dispatcher.TwoAtWork` is a concrete run with two goroutines on one pipeline, and
  `Dispatcher.StraddleDoubles` extends any such mark to one if the pipeline has no parallel label. The
  statuses are right throughout a schedule exactly when no user saves a pipeline that is in somebody's
  hands (`Dispatcher.StatusAlwaysIff`), and a mark is safe exactly when it is not of a pipeline that a
  user has read and not saved yet (`Dispatcher.MarkIsSafeIff`). The cap and the exclusion of labels
  hold in every schedule, so two goroutines never work on a pipeline with a parallel label
  (`Dispatcher.Exclusion`). If such a user is cancelling and updates the tasks after the run has written
  its status, that makes a COMPLETED false: `PipelineLives.LateCancelFoolsIff`.
- **The remote walk returns every scope.** The first page of scopes is shortened by the groups it
  shares the request with, but the next page starts at 100: `RemoteScopes.ReturnsAllIff`. Without a
  callback for scopes the walk never ends: `RemoteScopes.WalkEndsIff`.
- **COMPLETED means that every cell is completed.** Rerunning an older task of a cell while another
  one of the cell still waits can make it false: `PipelineLives.OldRerunFoolsStatus`. The exact
  condition is on the state a run starts from: some results make it write a status that is not true
  if and only if SkipOnFail is not set, no newest task is failed or cancelled, and a waiting task that
  is not the newest of its cell stands in an earlier row than a waiting newest one
  (`PipelineStatuses.DeceivedIff`). `PipelineStatuses.RerunDeceivesIff` says which reruns of a resting
  pipeline lead there.

The comment on `ComputePipelineStatus` (backend/server/services/pipeline_runner.go:147-150) says that
failed tasks with SkipOnFail give PARTIAL; the code gives FAILED when none succeeded, and the model
follows the code.

## Model

| member | source | states |
|---|---|---|
| Paging.WantedIsPrefix | backend/helpers/pluginhelper/api/api_collector_with_state.go:193-211 | in a listing in descending created order the records not before `createdAfter` are exactly a prefix |
| Paging.ContinuesIff | backend/helpers/pluginhelper/api/api_collector_with_state.go:184-213 | the handler goes on after a page exactly when the whole page lies within the wanted prefix |
| Paging.SavedRowsAre | backend/helpers/pluginhelper/api/api_collector_with_state.go:189-212 | a page is saved as a whole or not at all, by its first record |
| Paging.StopRuleIsTight | backend/helpers/pluginhelper/api/api_collector_with_state.go:193-211 | no wanted record is missed, fewer than a page of older ones is saved, and whole pages are saved |
| Paging.SavedPagesAre | backend/helpers/pluginhelper/api/api_collector_with_state.go:195-209 | what is saved are exactly the pages whose first record is not before `createdAfter` |
| ApiCollector.Advanced | backend/helpers/pluginhelper/api/api_collector.go:343-344 | advancing by any number of pages keeps Skip == Size * (Page - 1) |
| ApiCollector.FetchAsync | backend/helpers/pluginhelper/api/api_collector.go:424-463 | a request saves the rows of its page, and goes on exactly up to the last page that lies wholly in the wanted prefix |
| ApiCollector.IssueKeeps | backend/helpers/pluginhelper/api/api_collector.go:337-351 | a stride that issues a request asks for a page nobody has asked for, and the invariant of the strides holds again |
| ApiCollector.AnswerKeeps | backend/helpers/pluginhelper/api/api_collector.go:338-347 | a response answers a page not answered before, and the invariant of the strides holds again |
| ApiCollector.RequestedBound | backend/helpers/pluginhelper/api/api_collector.go:338-346 | no page beyond the last full one plus the number of strides is ever requested |
| ApiCollector.AllStopped | backend/helpers/pluginhelper/api/api_collector.go:326-352 | when all strides have stopped, the pages answered are exactly the first ones up to that bound |
| ApiCollector.NextTick | backend/helpers/pluginhelper/api/api_collector.go:342-346 | one job of a stride advances its pager and requests a new page, in any reachable state |
| ApiCollector.HandleResponse | backend/helpers/pluginhelper/api/api_collector.go:338-347 | one response saves the rows of a page not handled before, in any reachable state |
| ApiCollector.FetchPagesUndetermined | backend/helpers/pluginhelper/api/api_collector.go:304-353 | for any page size, concurrency and order the saved rows are, as a multiset, the listing cut by the stop rule, each once, with exactly floor(wanted / size) + concurrency requests |
| ApiCollector.FetchPagesSequentially | backend/helpers/pluginhelper/api/api_collector.go:250-273 | the saved rows are the listing cut by the stop rule or by the hook's last page, in order, and no page is requested beyond the first that ends the paging |
| ApiCollector.FetchPagesDetermined | backend/helpers/pluginhelper/api/api_collector.go:276-301 | the same rows as a multiset up to the number of pages the first response tells, whatever the order of responses; only the first page is requested when it is empty or ends in an unwanted record |
| ApiCollector.ReachesAllIff | backend/helpers/pluginhelper/api/api_collector.go:276-301 | a given number of pages loses nothing exactly when it covers what is to be saved |
| ApiCollector.CeilingCovers | backend/helpers/pluginhelper/api/api_collector.go:279-296 | without a filter the whole listing is saved, and ceil(T / size) pages cover it |
| ApiCollector.Exec | backend/helpers/pluginhelper/api/api_collector.go:222-247 | the hooks choose the strategy; what is saved is, up to order, `Gathered`; how many requests a single fetch and the strided strategy make, with the default number of strides |
| ApiCollector.StrategiesAgree | backend/helpers/pluginhelper/api/api_collector.go:234-246 | two collections of the same listing by any two strategies that page far enough save the same multiset of rows |
| ApiCollector.CompleteGathersWanted | backend/helpers/pluginhelper/api/api_collector.go:222-247 | a strategy that pages far enough saves every wanted record |
| ApiCollector.GathersFewUnwanted | backend/helpers/pluginhelper/api/api_collector.go:222-247 | whatever the hooks, the rows are the start of the listing, with fewer than a page of unwanted ones; a single request saves all or nothing |
| ApiCollector.FirstPageGoesOn | backend/helpers/pluginhelper/api/api_collector.go:424-463 | the first page leads to others unless it is empty or its last record is unwanted |
| CollectorState.ApiCollectorStateManager.Execute | backend/helpers/pluginhelper/api/api_collector_with_state.go:110-122 | a run deletes first unless incremental, adds the rows of the list and the detail collector, and writes the state only on success; a failure may strike before the delete or after any part of the rows |
| CollectorState.AfterIs | backend/helpers/pluginhelper/api/api_collector_with_state.go:110-122 | rows and state after a run, by its outcome and by whether it is incremental |
| CollectorState.IncrementalIff | backend/helpers/pluginhelper/api/api_collector_with_state.go:73-87 | a run is incremental exactly when a run has succeeded before and the range it is to collect lies within the range of that run |
| CollectorState.CollectsFewAgain | backend/helpers/pluginhelper/api/api_collector_with_state.go:139-163 | an incremental run collects less than a page of records from before the last successful start, a full one less than a page from before its TimeAfter |
| CollectorState.SuccessCovers | backend/helpers/pluginhelper/api/api_collector_with_state.go:156-163 | after a successful run every listed record created in [TimeAfter, LatestSuccessStart) is in the raw table |
| CollectorState.FailedIncrementalCovers | backend/helpers/pluginhelper/api/api_collector_with_state.go:110-116 | a failed incremental run keeps that coverage |
| CollectorState.FailedRunCoversIff | backend/helpers/pluginhelper/api/api_collector.go:151-157 | whatever a failed run saved, coverage survives exactly when the run was incremental or the window holds no listed record |
| CollectorState.UntouchedCovers | backend/helpers/pluginhelper/api/api_collector.go:145-156 | a run that fails before or at its delete keeps the coverage |
| CollectorState.SyncCoverage | backend/helpers/pluginhelper/api/api_collector_with_state.go:73-122 | coverage over any history of runs on a remote that only grows, where a full run may fail midway only while nothing of the listing is claimed |
| CollectorState.SyncCoverageFromScratch | backend/helpers/pluginhelper/api/api_collector_with_state.go:45-122 | the same from an empty database, whether or not the first runs fail |
| CollectorState.FailedFullRunLosesRecord | backend/helpers/pluginhelper/api/api_collector.go:151-157 | a failed full run followed by a successful incremental one loses a record for good |
| BatchSaves.JoinInjective | backend/helpers/pluginhelper/api/batch_save.go:136-150 | joined key strings are different for different lists of non-empty fields without colons |
| BatchSaves.PlainKeysDetermine | backend/helpers/pluginhelper/api/batch_save.go:136-150 | key strings determine primary keys with such fields |
| BatchSaves.SingleKeyDetermines | backend/helpers/pluginhelper/api/batch_save.go:136-150 | the key string of a single key column determines it |
| BatchSaves.EmptyFieldsCollide | backend/helpers/pluginhelper/api/batch_save.go:142-149 | empty key fields are left out of the key string |
| BatchSaves.StripCounts | backend/helpers/pluginhelper/api/batch_save.go:152-160 | zero bytes are taken out, every other character stays as often as it was |
| BatchSaves.StripJoins | backend/helpers/pluginhelper/api/batch_save.go:152-160 | and in its order |
| BatchSaves.StrippedIs | backend/helpers/pluginhelper/api/batch_save.go:152-160 | a row without zero bytes is saved as it is; any row keeps its origin and loses only zero bytes from its key and payload |
| BatchSaves.AddRefines | backend/helpers/pluginhelper/api/batch_save.go:88-106 | one Add has the effect of one upsert on what the table will be after closing |
| BatchSaves.AddAllRefines | backend/helpers/pluginhelper/api/batch_save.go:78-134 | any number of Adds and a close equal upserting the records one by one, and fewer than `size` slots stay in use |
| BatchSaves.BatchingRefinesIff | backend/helpers/pluginhelper/api/batch_save.go:88-106 | that holds for all records from a set exactly when key strings determine primary keys in it |
| BatchSaves.CollisionLosesRow | backend/helpers/pluginhelper/api/batch_save.go:90-96 | two records with different keys but one key string: the first is lost |
| BatchSaves.CompositeKeysCollide | backend/helpers/pluginhelper/api/batch_save.go:149-149 | two such records exist |
| BatchSaves.WritesIgnoreTable | backend/helpers/pluginhelper/api/batch_save.go:110-126 | what a batch writes does not depend on what the table holds |
| BatchSaves.BatchSave.IndexFinds | backend/helpers/pluginhelper/api/batch_save.go:90-97 | the key index finds exactly the slot that holds the key |
| BatchSaves.BatchSave.Add | backend/helpers/pluginhelper/api/batch_save.go:78-107 | between calls the index points every key at its slot and `current < size`; a failed flush keeps all rows cached |
| BatchSaves.BatchSave.Flush | backend/helpers/pluginhelper/api/batch_save.go:110-126 | the cached rows are upserted in order and the cache emptied, or nothing changes |
| BatchSaves.BatchSave.Close | backend/helpers/pluginhelper/api/batch_save.go:129-134 | the last rows are upserted |
| BatchSaves.SaveAll | backend/helpers/pluginhelper/api/batch_save.go:78-134 | a whole batch in memory equals upserting its records one by one, as they are given when they hold no zero byte |
| Extractor.BatchSaveDivider.ForType | backend/helpers/pluginhelper/api/batch_save_divider.go:58-91 | a batch is made on first use, after deleting the outdated rows of its type; a second use deletes nothing; the error cases |
| Extractor.ClearedIs | backend/helpers/pluginhelper/api/batch_save_divider.go:79-88 | what goes are exactly the rows of this table and params, when both are given; every other row stays as it is |
| Extractor.BatchSaveDivider.Put | backend/helpers/pluginhelper/api/api_extractor.go:109-130 | one product changes only its own type, by one Add |
| Extractor.BatchSaveDivider.Close | backend/helpers/pluginhelper/api/batch_save_divider.go:94-102 | whatever the order of the batches, each table ends as its own batch leaves it |
| Extractor.ApiExtractor.Execute | backend/helpers/pluginhelper/api/api_extractor.go:94-135 | after a successful run every table is `Final` of what it was: a row that is not yielded stays as it was exactly when nothing of its type is yielded, no origin is given or it is of another table or params, no other row comes, and of rows yielded with a key the last one is there if key strings determine keys; each type in use was deleted from exactly once and before its first save, and no other table was touched; without failures the run succeeds |
| Extractor.YieldOne | backend/helpers/pluginhelper/api/api_extractor.go:103-125 | a raw row yields its products in order, changed in their origin only: one without an origin gets the raw table, params and id |
| Extractor.YieldJoins | backend/helpers/pluginhelper/api/api_extractor.go:94-131 | raw rows yield one after the other |
| Extractor.OfKindJoins | backend/helpers/pluginhelper/api/batch_save_divider.go:58-63 | the rows of a type keep their order |
| Extractor.YieldedIsOutdated | backend/helpers/pluginhelper/api/api_extractor.go:116-125 | a product that came without an origin is deleted by the next run on the same table and params |
| Extractor.LastYieldedStays | backend/helpers/pluginhelper/api/batch_save.go:88-106 | of the rows yielded with a key the last one is what the table holds |
| Extractor.ExtractTwice | backend/helpers/pluginhelper/api/api_extractor.go:94-135 | extracting the same rows again leaves the table unchanged, whatever it held at first |
| Extractor.FinalIsUpsert | backend/helpers/pluginhelper/api/api_extractor.go:94-135 | when key strings determine keys, a run is: delete the outdated rows, upsert the new ones in order |
| Extractor.StaleStaysIff | backend/helpers/pluginhelper/api/batch_save_divider.go:63-89 | a row that is not yielded stays as it was exactly when nothing of its type is yielded, no origin is given, or its own origin is another table or other params |
| BatchSaves.WritesOnlyRows | backend/helpers/pluginhelper/api/batch_save.go:88-126 | a batch writes nothing but the rows that were added |
| Extractor.RunTwice | backend/helpers/pluginhelper/api/api_extractor.go:63-135 | running the extractor twice leaves every table as one run does, and succeeds when the rows extract and the database works |
| Queues.Queue.Push | backend/helpers/pluginhelper/api/queue.go:93-103 | appends the data; count is the length of the chain and tail its last node |
| Queues.Queue.PullWithOutLock | backend/helpers/pluginhelper/api/queue.go:106-124 | takes the first node, detached, or returns nil exactly when the queue is empty |
| Queues.Queue.TryPullWithWorkingBlock | backend/helpers/pluginhelper/api/queue.go:74-88 | one look at the queue: take and count as working, wait, or return nil |
| Queues.Queue.Finish | backend/helpers/pluginhelper/api/queue.go:42-47 | only the working count goes down |
| Queues.Queue.Clean | backend/helpers/pluginhelper/api/queue.go:127-139 | empties the queue and leaves the working count |
| Queues.Queue.GetCount | backend/helpers/pluginhelper/api/queue.go:142-152 | the counter is the number of queued items |
| Queues.Drive | backend/helpers/pluginhelper/api/queue.go:93-131 | under any sequence of pushes, pulls and cleans the linked queue behaves as a list |
| Queues.FirstInFirstOut | backend/helpers/pluginhelper/api/queue.go:93-124 | without cleans, what was pulled followed by what is left is what was pushed, in order |
| Queues.ActionKeepsInv | backend/helpers/pluginhelper/api/queue.go:42-124 | every step keeps: working counts the items in hand, and pushed items are queued, in hand or finished |
| Queues.NilIsFinal | backend/helpers/pluginhelper/api/queue.go:70-90 | once a pull returns nil, everything ever pushed is finished, and from then on every step is a pull that returns nil |
| Queues.WaitingHasAReason | backend/helpers/pluginhelper/api/queue.go:80-85 | a pull waits only while some worker is busy |
| PipelinePlans.ParallelizePipelinePlans | backend/server/services/blueprint.go:344-358 | merged stage i is every plan's stage i one after the other, and the length is the maximum |
| PipelinePlans.ParallelAppend | backend/server/services/blueprint.go:344-358 | merging is associative |
| PipelinePlans.ParallelUnit | backend/server/services/blueprint.go:344-358 | the empty plan is its unit |
| PipelinePlans.ParallelConserves | backend/server/services/blueprint.go:344-358 | merging neither loses nor invents a task |
| PipelinePlans.ParallelPlaces | backend/server/services/blueprint.go:349-355 | where a task of a plan ends up in the merged plan |
| PipelinePlans.SequencializePipelinePlans | backend/server/services/blueprint.go:362-369 | the stages of all plans one after the other |
| PipelinePlans.SequentialPlaces | backend/server/services/blueprint.go:362-369 | stage i of a plan comes after all stages of the plans before it |
| PipelinePlans.MakePlan | backend/server/services/blueprint_makeplan_v200.go:124-141 | mapping, then all data sources in parallel, then all metrics in parallel, between the wrapping plans of blueprint.go:322-340; every task of every part is there, and no other |
| PipelinePlans.SourcePlace | backend/server/services/blueprint_makeplan_v200.go:137-141 | where a task of a data source ends up in the blueprint's plan, and that this is before every metric stage |
| PipelinePlans.MetricPlace | backend/server/services/blueprint_makeplan_v200.go:137-141 | the same for a metric |
| PipelinePlans.PlanConserves | backend/server/services/blueprint_makeplan_v200.go:137-141 | no task of any part is lost, and none is invented |
| PipelinePlans.PartPlace | backend/server/services/blueprint.go:322-340 | where a task of the before plan, the mapping, a data source, a metric or the after plan ends up |
| PipelinePlans.PartOrder | backend/server/services/blueprint.go:322-340 | in this order, stage by stage |
| TaskGrids.FlattenAt | backend/server/services/pipeline_helper.go:103-121 | the task at stage i and position j has row i + 1 and column j + 1 |
| TaskGrids.FlattenSorted | backend/server/services/pipeline_helper.go:103-121 | ids ascend with (row, column), and both count from 1 |
| TaskGrids.FlattenWorks | backend/server/services/pipeline_helper.go:103-121 | one task row for each task of the plan, in order |
| TaskGrids.Regroup | backend/core/runner/run_pipeline.go:46-52 | the grid holds in each row the ids of that row, in order |
| TaskGrids.RoundTrip | backend/core/runner/run_pipeline.go:38-52 | writing a plan as task rows and loading them again gives the plan, up to empty stages at its end |
| Pipelines.Pipeline.CreateTasks | backend/server/services/pipeline_helper.go:102-129 | one task per entry of the plan, or an error when there is none |
| Pipelines.Pipeline.StartTask | backend/core/runner/run_task.go:122-131 | the task is marked running |
| Pipelines.Pipeline.FinishTask | backend/core/runner/run_task.go:63-120 | the task is completed or failed; with SkipOnFail no error is returned |
| Pipelines.FinalIs | backend/core/runner/run_task.go:75-105 | a task that succeeded is completed, any other failed |
| Pipelines.Pipeline.RunTasksStandalone | backend/server/services/task.go:177-219 | in any interleaving every task of the stage starts once and reports before the stage returns; the error is a cancellation exactly when some task was cancelled, and there is none exactly when all succeeded, SkipOnFail aside |
| Pipelines.Pipeline.LoadGrid | backend/core/runner/run_pipeline.go:37-52 | the tasks to run, by row and then column, as a grid |
| Pipelines.GridIsOk | backend/core/runner/run_pipeline.go:37-52 | each row of the grid holds exactly the tasks to run of that row, each once |
| Pipelines.Pipeline.RunPipelineTasks | backend/core/runner/run_pipeline.go:73-94 | no task starts before all of the earlier rows have reported; the run stops after the first row with an error unless SkipOnFail is set; rows not reached are untouched |
| Pipelines.Pipeline.RunPipeline | backend/core/runner/run_pipeline.go:30-54 | the same from the task table, wherever the process dies; without an error every task that was to run has its result |
| Pipelines.LaterStagesRunLater | backend/core/runner/run_pipeline.go:73-92 | a task of a later stage of the plan starts only after every task of an earlier one has reported |
| Pipelines.BlueprintIsOrdered | backend/server/services/blueprint_makeplan_v200.go:137-141 | the before plan runs first, then the mapping, the data sources in parallel, the metrics in parallel, and the after plan, each stage by stage |
| Pipelines.RunBlueprint | backend/server/services/blueprint_makeplan_v200.go:54-141 | end to end: the tasks created are exactly those of all parts, they run in that order, and a run that ends without an error has run them all |
| PipelineStatuses.GetLatestTasksOfPipeline | backend/server/services/pipeline_runner.go:185-214 | the newest task of every cell, latest first |
| PipelineStatuses.GetTasksWithLastStatus | backend/server/services/task.go:125-150 | deduplicating by the arithmetic key gives the same list when columns count from 1 |
| PipelineStatuses.KeyTellsCells | backend/server/services/task.go:144-144 | row * maxCol + col is equal exactly for equal cells, for columns in 1..maxCol |
| PipelineStatuses.ColumnZeroCollides | backend/server/services/task.go:144-144 | with a column 0 it is not |
| PipelineStatuses.ComputePipelineStatus | backend/server/services/pipeline_runner.go:151-182 | in terms of the statuses of the newest tasks: when it is the error of being called at a wrong time, and otherwise COMPLETED, PARTIAL or FAILED |
| PipelineStatuses.StatusIsComputed | backend/server/services/pipeline_runner.go:170-172 | at the end of a run that error never occurs |
| PipelineStatuses.DeceivedIff | backend/server/services/pipeline_runner.go:100-145 | some results make a run from a settled state write a status that is not what the newest tasks say exactly when SkipOnFail is not set, no newest task is failed or cancelled, and an outdated waiting task stands in an earlier row than a waiting newest one |
| PipelineStatuses.StatusIsSound | backend/server/services/pipeline_runner.go:100-145 | from every other state COMPLETED is written exactly when every newest task is completed, PARTIAL exactly when SkipOnFail is set and some succeeded and some failed |
| PipelineStatuses.RunSettles | backend/core/runner/run_pipeline.go:73-94 | after a run nothing is running; if what waited was the newest of its cell, so is what waits now |
| PipelineStatuses.RestartSettles | backend/server/services/pipeline.go:79-103 | the same for a run that dies at any point, once the restart has marked what was running as failed |
| PipelineStatuses.RestartedIs | backend/server/services/pipeline.go:89-99 | a task that was running is failed, and every other one is as it was |
| PipelineStatuses.DiedIs | backend/server/services/pipeline.go:89-99 | after a run that died only tasks that have succeeded are completed |
| PipelineStatuses.RerunAllMakes | backend/server/services/pipeline.go:482-514 | the tasks rerun are failed, each has a successor with the same work in the same cell, and the others are as they were |
| PipelineStatuses.RerunDeceivesIff | backend/server/services/pipeline.go:457-514 | which reruns of one task of a resting pipeline make the next run deceivable |
| PipelineStatuses.RerunRestsIff | backend/server/services/pipeline.go:484-514 | rerunning one task keeps a pipeline at rest (what waits is the newest of its cell) exactly when no other task of the cell waits |
| PipelineStatuses.NewestIsHarmless | backend/server/services/pipeline.go:457-461 | the newest task of a cell of a resting pipeline can always be rerun |
| PipelineStatuses.RerunPipelineSettles | backend/server/services/pipeline.go:462-514 | after a rerun of the pipeline every cell is completed or has its newest task to run |
| PipelineLives.RerunPipeline | backend/server/services/pipeline.go:436-523 | when it is refused, and otherwise which tasks are failed and which are created |
| PipelineLives.CancelPipeline | backend/server/services/pipeline.go:377-404 | a waiting pipeline is cancelled with all its tasks |
| PipelineLives.Restart | backend/server/services/pipeline.go:79-103 | running pipelines and tasks are failed when the service starts, nothing else changes, and a rerun of the pipeline takes up what was interrupted |
| PipelineLives.NothingLostByDying | backend/server/services/pipeline.go:79-103 | after a run that died and the restart every newest task is completed, having succeeded, or taken up by a rerun of the pipeline |
| PipelineLives.RunPipelineOnce | backend/server/services/pipeline_runner.go:100-145 | one run ends and writes the computed status, or dies when its steps are used up |
| PipelineLives.ActionIsFaithful | backend/server/services/pipeline.go:170-523 | selecting, running (to the end or until the process dies) from a state that is not deceivable, cancelling, rerunning and restarting each keep the written status true |
| PipelineLives.RunDeceives | backend/server/services/pipeline.go:170-254 | that guard cannot be spared: from a deceivable state some run ends as COMPLETED with a newest task that waits |
| PipelineLives.LifeIsFaithful | backend/server/services/pipeline.go:170-523 | at any time of any life in which no run starts deceivable and no cancellation or rerun straddles the mark, COMPLETED and PARTIAL are true of the newest tasks |
| PipelineLives.LateCancelFoolsIff | backend/server/services/pipeline.go:387-400 | a cancellation that read the pipeline before the mark and updates the tasks after the final save makes the status false exactly when it was COMPLETED or PARTIAL and there are tasks |
| PipelineLives.SkippingIsFaithful | backend/server/services/pipeline.go:170-523 | with SkipOnFail no life has to be excluded for its reruns |
| PipelineLives.OneRowIsFaithful | backend/server/services/pipeline.go:170-523 | nor for a pipeline of one row |
| PipelineLives.HarmlessLifeRests | backend/server/services/pipeline.go:170-523 | a life in which only harmless tasks are rerun is never deceivable |
| PipelineLives.Act | backend/server/services/pipeline.go:170-523 | the operations in memory are the actions of such a life |
| PipelineLives.FreshIsFaithful | backend/server/services/pipeline_helper.go:64-72 | a new pipeline starts such a life, at rest |
| PipelineLives.OldRerunFoolsStatus | backend/server/services/pipeline.go:457-461 | a history of reruns that ends in COMPLETED with a task that never ran |
| Slices.SliceRemove | backend/core/utils/slice.go:21-37 | the slice is compacted in place to the values that are not removed, in order |
| Slices.WithoutCounts | backend/core/utils/slice.go:21-37 | every occurrence of a removed value goes, and nothing else |
| Slices.WithoutJoins | backend/core/utils/slice.go:21-37 | what is kept stays in order |
| Dispatcher.ParallelCounts | backend/server/services/pipeline.go:230-234 | the labels selected are exactly those that start with `parallel/`, as often as they are there |
| Dispatcher.PermitsKept | backend/server/services/pipeline.go:171-180 | one permit for each goroutine and one for the loop once it has it, never more than the cap |
| Dispatcher.StatusBreaksIff | backend/server/services/pipeline.go:205-251 | that a pipeline that is worked on is RUNNING and nobody else works on it is undone by a step exactly when a user saves a pipeline in somebody's hands |
| Dispatcher.StatusKeptIff | backend/server/services/pipeline.go:215-220 | together with: what a user has read and not saved is not RUNNING, it is kept by every step but a mark of that very pipeline, and by no such mark |
| Dispatcher.MarkIsSafeIff | backend/server/services/pipeline.go:215-220 | after a mark the statuses are right whatever comes next exactly when no user has read that pipeline and not saved it |
| Dispatcher.UserUndisturbed | backend/server/services/pipeline.go:379-392 | without such a mark nobody touches or takes in hand a pipeline between a user's read and save, so the two count as one step |
| Dispatcher.LabelsKept | backend/server/services/pipeline.go:224-246 | a running label has one holder, and runs as often as the holder has it |
| Dispatcher.OwnLabelsKept | backend/server/services/pipeline.go:225-251 | what a goroutine holds are the parallel labels of its pipeline |
| Dispatcher.InvAlways | backend/server/services/pipeline.go:170-254 | permits and labels are right in every reachable state, with select, mark and append as separate steps, and users creating, reading and saving in between |
| Dispatcher.StatusAlways | backend/server/services/pipeline.go:170-254 | so are the statuses, in every schedule in which no mark falls between a user's read and save of that pipeline |
| Dispatcher.StatusAlwaysIff | backend/server/services/pipeline.go:170-254 | they are right throughout a schedule exactly when no user saves a pipeline in somebody's hands |
| Dispatcher.Exclusion | backend/server/services/pipeline.go:170-254 | at most the cap of goroutines; no label that starts with `parallel/` belongs to the pipelines of two goroutines that have not removed theirs; the running labels are exactly those of the pipelines in hand; two work on one pipeline only if it has no such label and some mark fell between a user's read and save |
| Dispatcher.StraddleDoubles | backend/server/services/pipeline.go:184-251 | how a mark between a user's read and save of a pipeline without parallel labels leads to two goroutines on it |
| Dispatcher.TwoAtWork | backend/server/services/pipeline.go:377-392 | a concrete schedule with two goroutines on one pipeline |
| Dispatcher.RemovalFreesOwn | backend/server/services/pipeline.go:240-244 | removing all occurrences of its labels takes out exactly what the goroutine had put in |
| DispatchLoop.Service.SelectNext | backend/server/services/pipeline.go:184-213 | the waiting pipeline with the lowest id none of whose labels that start with `parallel/` is running, or none if there is no such |
| DispatchLoop.Service.MarkSelected | backend/server/services/pipeline.go:215-223 | the step of the state machine, whatever happened to the pipeline since it was selected |
| DispatchLoop.Service.AppendSelected | backend/server/services/pipeline.go:225-238 | the parallel labels of the pipeline are appended |
| DispatchLoop.Service.StartStageOf | backend/core/runner/run_pipeline.go:75-79 | the mark at the start of each stage is the step of the state machine |
| DispatchLoop.Service.BeginCancel | backend/server/services/pipeline.go:379-387 | a user reads with the lock taken, and goes on only if the pipeline is waiting |
| DispatchLoop.Service.BeginRerun | backend/server/services/pipeline.go:438-453 | the same, and only if it is neither running nor waiting |
| DispatchLoop.Service.Save | backend/server/services/pipeline.go:387-391 | the status is overwritten whatever happened since the read; a rerun does so at pipeline.go:517-520 |
| DispatchLoop.Service.FinishRun | backend/server/services/pipeline_runner.go:134-142 | the status written by a goroutine is the step of the state machine |
| DispatchLoop.Service.ReleasePermit | backend/server/services/pipeline.go:240-240 | so is giving back the permit |
| DispatchLoop.Service.CreatePipeline | backend/server/services/pipeline_helper.go:62-101 | a new waiting pipeline with its labels, under a new id |
| DispatchLoop.Service.DropLabels | backend/server/services/pipeline.go:242-247 | the in-place removal is the step of the state machine |
| DispatchLoop.TurnExcludes | backend/server/services/pipeline.go:184-238 | no label that starts with `parallel/` of what the loop starts next belongs to the pipeline of a goroutine that still holds it |
| DispatchLoop.NothingToStart | backend/server/services/pipeline.go:184-213 | when nothing is found, every waiting pipeline shares such a label with one whose goroutine holds it |
| DispatchLoop.Turn | backend/server/services/pipeline.go:174-251 | one turn of the loop in memory: a permit, the first waiting pipeline without a label in use, marked, its labels appended, its goroutine started; if there is none, every waiting pipeline shares a label in use |
| MigrationHelper.RenamedAllMoves | backend/helpers/migrationhelper/migrationhelper.go:57-62 | after the renames a column is gone and its data is under the temporary name |
| MigrationHelper.RenamedBackRestores | backend/helpers/migrationhelper/migrationhelper.go:64-71 | undoing the renames last to first restores names and data exactly, beside columns added since |
| MigrationHelper.RenamedBackReturns | backend/helpers/migrationhelper/migrationhelper.go:64-71 | undoing the renames brings back every column whose data is under its temporary name |
| MigrationHelper.TmpNameIs | backend/helpers/migrationhelper/migrationhelper.go:57-57 | a temporary name is the name, an underscore and the hash of the script |
| MigrationHelper.MigratedIs | backend/impls/dalgorm/dalgorm.go:143-150 | a migrate adds the missing columns of the struct, a failing one some of them, and changes none that is there |
| MigrationHelper.PartialRestoresIff | backend/helpers/migrationhelper/migrationhelper.go:74-77 | after a failed migrate the table is restored exactly when the migrate added nothing |
| MigrationHelper.RollbackRestoresIff | backend/helpers/migrationhelper/migrationhelper.go:79-86 | after a failed update it is restored exactly when the change was confined to the given columns |
| MigrationHelper.RollbackLoses | backend/helpers/migrationhelper/migrationhelper.go:112-115 | a column whose temporary column was dropped is lost in the rollback |
| MigrationHelper.RollbackKeeps | backend/helpers/migrationhelper/migrationhelper.go:112-115 | only such columns are lost: the others to change are back with their data, and the rest is as it was if the change was confined |
| MigrationHelper.UpdatedIs | backend/helpers/migrationhelper/migrationhelper.go:88-101 | an update writes to the columns it names that are there, and to no other |
| MigrationHelper.OnlyStatementsFail | backend/helpers/migrationhelper/migrationhelper.go:88-115 | with well-put names only a failing statement stops the change after the renames |
| MigrationHelper.ConvertedColumns | backend/helpers/migrationhelper/migrationhelper.go:88-101 | on success each column has its new type and its old data, and the others are as they were |
| MigrationHelper.TableSchema.DropColumns | backend/impls/dalgorm/dalgorm.go:279-293 | one column after the other; those before the first failure stay dropped |
| MigrationHelper.TableSchema.ChangeColumnsType | backend/helpers/migrationhelper/migrationhelper.go:48-118 | for every step that may fail: what the table is after the compensations, with exactly the columns lost whose temporary columns were dropped; on success, that no temporary column is left |
| TransformTables.SlotsLeft | backend/helpers/migrationhelper/migrationhelper.go:266-270 | before the last flush the rows of full batches are in the table and the others in the slots |
| TransformTables.FullIs | backend/helpers/migrationhelper/migrationhelper.go:267-267 | a batch is full with 200 rows |
| TransformTables.NothingLostIff | backend/helpers/migrationhelper/migrationhelper.go:270-270 | whether the last flush succeeds makes no difference exactly when the table already holds what is in the slots, for any transformed rows |
| TransformTables.KeptIff | backend/helpers/migrationhelper/migrationhelper.go:254-292 | when key strings differ, every row of the old table is in the new one exactly when the last flush succeeds or the rows fill whole batches |
| TransformTables.CopyTableColumns | backend/helpers/migrationhelper/migrationhelper.go:254-292 | what is in the new table when the copy succeeds, and when that is every row of the source table; no other table is touched |
| TransformTables.TransformTable | backend/helpers/migrationhelper/migrationhelper.go:181-251 | a failed transform leaves all tables as they were unless a failing migrate left a table behind; what a reported success means, and when rows of the old table are lost |
| ColumnTransforms.TransformRows | backend/helpers/migrationhelper/migrationhelper.go:131-175 | how many rows have reached the table when the update ends, and when it reports success |
| ColumnTransforms.AllTransformedIff | backend/helpers/migrationhelper/migrationhelper.go:155-174 | after a change that is done every row is transformed exactly when the last flush succeeds or the rows after the last full batch come out as they were found |
| ColumnTransforms.ColumnKind | backend/helpers/migrationhelper/migrationhelper.go:74-115 | a column of the struct is what the update made of it, any other stays as it was |
| ColumnTransforms.HandedOnIsConfined | backend/helpers/migrationhelper/migrationhelper.go:156-173 | an update that hands on the other columns is confined to those it was asked to change |
| ColumnTransforms.TransformColumns | backend/helpers/migrationhelper/migrationhelper.go:121-178 | what a reported success means, the types of the columns, that the old data is gone then, and that a failed update that hands on the other columns is undone |
| Migrators.Migrator.Register | backend/core/migration/migrator.go:66-82 | executed and pending partition the registered scripts |
| Migrators.Migrator.Execute | backend/core/migration/migrator.go:85-111 | the pending scripts succeed by ascending version up to the first failure, exactly those are recorded, and the rest stays pending |
| Migrators.RecordedOnce | backend/core/migration/migrator.go:96-107 | a recorded script succeeded exactly once unless a run of it is an orphan, without its history row |
| Migrators.TogetherNeverInterrupts | backend/core/migration/migrator.go:96-107 | where Up and its history row succeed or fail together, no call is interrupted |
| Migrators.CallOnce | backend/core/migration/migrator.go:85-111 | how one call advances the number of pending scripts and of orphans, computed from its outcomes |
| Migrators.Live | backend/core/migration/migrator.go:44-130 | over any number of processes and calls: from the outcomes given, when the last call succeeds, that all scripts are then recorded, and that each ran exactly once exactly when no call was interrupted |
| Migrators.ScriptRunsTwice | backend/core/migration/migrator.go:96-107 | a script whose history row is not written the first time runs twice |
| Sorting.SortByKey | backend/core/migration/migrator.go:87-89 | a sorted permutation, equal keys in any order |
| Sorting.SortedIsUnique | backend/core/runner/run_pipeline.go:41-41 | rows with distinct keys can be sorted in one way only |
| RemoteScopes.GetScopesFromRemote | backend/helpers/pluginhelper/api/remote_api_helper.go:167-245 | one request: groups, then scopes in what is left of the page, and the next token |
| RemoteScopes.ChildrenAre | backend/helpers/pluginhelper/api/remote_api_helper.go:180-226 | groups are returned as groups and scopes as scopes |
| RemoteScopes.Walked | backend/helpers/pluginhelper/api/remote_api_helper.go:170-243 | where the walk is and what it has returned after any number of requests |
| RemoteScopes.WalkEndsIff | backend/helpers/pluginhelper/api/remote_api_helper.go:203-238 | the walk ends exactly when there is a callback for scopes |
| RemoteScopes.WalkReturns | backend/helpers/pluginhelper/api/remote_api_helper.go:170-243 | it returns every group once, and every scope once but those with index in [100 - g, 100), g being the number of groups mod 100 |
| RemoteScopes.ReturnsAllIff | backend/helpers/pluginhelper/api/remote_api_helper.go:194-235 | nothing is missing exactly when g is 0 or there are at most 100 - g scopes |

## Left out

- Temporal mode and `watchTemporalPipelines`: they depend on a service that is not part of this model; only the standalone mode is modelled.
- HTTP, URL templates, JSON, GORM and SQL text: pages, tables and columns are abstract; type conversion in SQL keeps the cells of a column as they are.
- The inside of the asynchronous API client and its scheduler: each job and each response handler runs once, in any order; retries and API errors end a run as a failure.
- The collector with an input iterator: one listing per run is modelled. Of the detail collector of finalizable entities only the rows it saves are, as an input, without its per-record requests.
- GraphQL collector, plugins, config-ui, encryption, metrics queries, notifications, loggers: they would add no property of this kind.
- Temporary effects of cancelling a running pipeline: cancellation of running tasks is modelled only through the outcomes of the tasks.
- BatchSaves.BatchSave.Add: the slots are a sequence of fixed length in a field, not an array, and hold copies; that the source keeps pointers, so that a caller may change a cached record, is not modelled. A record is its key, one text payload and its origin, and an Add on a full buffer, which only a failed flush leaves behind and which panics in the source, is excluded.
- Auto-generated primary keys: a row always comes with its key.
- Extractor.ApiExtractor.Execute: the raw rows are given in the order of their ids; reading them with a cursor and cancelling the context between rows is not modelled.
- PipelineLives.LifeIsFaithful: no cancellation or rerun straddles the mark, that is, reads the pipeline before it is marked and writes after that; `Dispatcher.UserUndisturbed` shows that nothing else comes between, and `LateCancelFoolsIff` what can happen otherwise. Lives with a run that starts in a deceivable state are excluded, and only these; `RunDeceives` shows why. Database operations succeed and RunTask gets past its initial loads.
- PipelineLives.Act: a run, a cancellation and a rerun are one action each. This assumes that none straddles the mark: a rerun that reads during a run is refused, and a cancellation then shows only in the outcomes of the tasks; but the writes of one that has read before the mark may land during the run or after its final save.
- Dispatcher.StatusAlwaysIff: of what a user writes only the status of the pipeline is followed, not the tasks and not the other columns that saving the whole row sets back.
- ColumnTransforms.TransformRows: rows are counted, not held in slots: each keeps its key, and the keys differ, for which `TransformTables.SlotsLeft` shows that full batches are in the table and the rest in the slots.
- Pipelines.Pipeline.CreateTasks: the check for another pending pipeline of the same blueprint and the encoding of options are not modelled.
- PipelineStatuses.GetTasksWithLastStatus: the key is an unbounded integer, not an int64.
- Dispatcher: goroutines and users are steps of a state machine on values; updates of the shared slice are atomic, and labels are compared by prefix as the Go code does, not by a database collation. The status written at the end of a run is any that is not waiting.
- MigrationHelper.TableSchema.AutoMigrate: it only adds missing columns; changing the type of an existing column of the struct is not modelled. The compensations are assumed to succeed where the contracts say `UndoSucceeds`; the source asks for manual repair otherwise.
- TransformTables.TransformTable: the cursor yields the rows of the old table in an order given from outside, and the log of database writes is not followed.
- Migrators.Migrator.Execute: what a script does to the database is only whether Up succeeds; loading the history always succeeds.
- RemoteScopes.GetScopesFromRemote: the encoding of tokens in base64 and JSON, and errors of the remote, are not modelled.
