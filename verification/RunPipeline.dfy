/** Running a pipeline: its stages one after the other, the tasks of a stage in any interleaving. */
module Pipelines {
  import opened Sequences
  import opened Sorting
  import opened PipelinePlans
  import opened TaskGrids

  /** How the plugin's part of a task ends. */
  datatype Outcome = Succeeds | Fails | Canceled

  type Results = nat -> Outcome

  function Final(outcome: Outcome): Status {
    if outcome == Succeeds then TaskCompleted else TaskFailed
  }

  datatype RunError = NoError | TaskError | CanceledError

  datatype Event = Started(id: nat) | Finished(id: nat)

  // ---------------------------------------------------------------------------------------------
  // One stage

  /** The tasks of a stage: those waiting are untouched, those running are marked, the others have their result. */
  ghost predicate Progress(before: seq<Task>, after: seq<Task>, ids: set<nat>, waiting: set<nat>, running: set<nat>, results: Results) {
    && |after| == |before|
    && forall id: nat | id < |before| ::
         after[id] == if id !in ids || id in waiting then before[id]
                      else if id in running then before[id].(status := TaskRunning)
                      else before[id].(status := Final(results(id)))
  }

  /** What a stage has added to the trace: each task starts once, and finishes at most once, after its start. */
  ghost predicate StageTrace(seg: seq<Event>, ids: set<nat>, waiting: set<nat>, running: set<nat>) {
    && (forall id :: Started(id) in seg <==> id in ids && id !in waiting)
    && (forall id :: Finished(id) in seg <==> id in ids && id !in waiting && id !in running)
    && (forall i, j | 0 <= i < j < |seg| :: seg[i] != seg[j])
    && (forall k | 0 <= k < |seg| && seg[k].Finished? :: Started(seg[k].id) in seg[..k])
  }

  /** What the database says of a task that has reported. */
  lemma FinalIs(outcome: Outcome)
    ensures outcome == Succeeds ==> Final(outcome) == TaskCompleted
    ensures outcome != Succeeds ==> Final(outcome) == TaskFailed
  {
  }

  lemma TraceStarts(seg: seq<Event>, ids: set<nat>, waiting: set<nat>, running: set<nat>, id: nat)
    requires StageTrace(seg, ids, waiting, running) && id in waiting && id in ids && id !in running
    ensures StageTrace(seg + [Started(id)], ids, waiting - {id}, running + {id})
  {
    TraceGrows(seg, Started(id));
  }

  lemma TraceFinishes(seg: seq<Event>, ids: set<nat>, waiting: set<nat>, running: set<nat>, id: nat)
    requires StageTrace(seg, ids, waiting, running) && id in running && id in ids && id !in waiting
    ensures StageTrace(seg + [Finished(id)], ids, waiting, running - {id})
  {
    TraceGrows(seg, Finished(id));
  }

  lemma TraceGrows(seg: seq<Event>, e: Event)
    requires forall k | 0 <= k < |seg| && seg[k].Finished? :: Started(seg[k].id) in seg[..k]
    ensures forall k | 0 <= k < |seg| && (seg + [e])[k].Finished? :: Started((seg + [e])[k].id) in (seg + [e])[..k]
    ensures (seg + [e])[..|seg|] == seg
    ensures forall x :: x in seg + [e] <==> x in seg || x == e
  {
    forall k | 0 <= k < |seg| ensures (seg + [e])[..k] == seg[..k] {
    }
  }

  lemma ProgressStarts(before: seq<Task>, now: seq<Task>, ids: set<nat>, waiting: set<nat>, running: set<nat>,
                       results: Results, id: nat)
    requires Progress(before, now, ids, waiting, running, results) && id < |before| && id in waiting && id in ids
    ensures |now| == |before|
    ensures Progress(before, now[id := now[id].(status := TaskRunning)], ids, waiting - {id}, running + {id}, results)
  {
  }

  lemma ProgressFinishes(before: seq<Task>, now: seq<Task>, ids: set<nat>, waiting: set<nat>, running: set<nat>,
                         results: Results, id: nat)
    requires Progress(before, now, ids, waiting, running, results) && id < |before| && id in running && id in ids && id !in waiting
    ensures |now| == |before|
    ensures Progress(before, now[id := now[id].(status := Final(results(id)))], ids, waiting, running - {id}, results)
  {
  }

  /** The errors reported so far come from finished tasks, and every failed one has reported unless errors are dropped. */
  ghost predicate Reported(errs: seq<Outcome>, dropped: bool, ids: set<nat>, unfinished: set<nat>, results: Results) {
    && (forall e | e in errs :: e != Succeeds && exists id :: id in ids && results(id) == e)
    && (errs == [] <==> dropped || forall id | id in ids && id !in unfinished :: results(id) == Succeeds)
    && (!dropped ==> forall id | id in ids && id !in unfinished && results(id) != Succeeds :: results(id) in errs)
  }

  lemma Reports(errs: seq<Outcome>, dropped: bool, ids: set<nat>, unfinished: set<nat>, results: Results, id: nat)
    requires Reported(errs, dropped, ids, unfinished, results) && id in ids && id in unfinished
    ensures var e := if dropped then Succeeds else results(id);
            Reported(if e == Succeeds then errs else errs + [e], dropped, ids, unfinished - {id}, results)
  {
  }

  function SetOf(ids: seq<nat>): set<nat> {
    set id | id in ids
  }

  /** The error a stage returns for the errors its tasks reported, in order of arrival. */
  function ErrorOf(errs: seq<Outcome>): RunError {
    if Canceled in errs then CanceledError else if errs != [] then TaskError else NoError
  }

  class Pipeline {
    /** The task table; the id of a task is its index. */
    var tasks: seq<Task>
    var status: Status
    const skipOnFail: bool
    /** What happened since the pipeline was created. */
    ghost var trace: seq<Event>

    constructor (skipOnFail: bool)
      ensures tasks == [] && status == TaskCreated && trace == [] && this.skipOnFail == skipOnFail
    {
      this.skipOnFail := skipOnFail;
      tasks, status, trace := [], TaskCreated, [];
    }

    /** One task per entry of the plan. Without any there is an error, but the pipeline is there all the same. */
    method CreateTasks(plan: Plan) returns (ok: bool)
      requires tasks == []
      modifies this`tasks
      ensures tasks == Flatten(plan) && (ok <==> tasks != [])
      ensures WorkOf(tasks) == Tasks(plan)
    {
      FlattenWorks(plan);
      assert plan[..0] == [];
      for i := 0 to |plan|
        invariant tasks == Flatten(plan[..i])
      {
        assert plan[..i + 1][..i] == plan[..i];
        ghost var before := tasks;
        for j := 0 to |plan[i]|
          invariant tasks == before + RowTasks(plan[i][..j], i + 1)
        {
          tasks := tasks + [Task(plan[i][j], i + 1, j + 1, TaskCreated)];
        }
        assert plan[i][..|plan[i]|] == plan[i];
      }
      assert plan[..|plan|] == plan;
      ok := tasks != [];
    }

    /** The first half of RunTask: mark the task running. */
    method StartTask(id: nat)
      requires id < |tasks|
      modifies this`tasks, this`trace
      ensures |tasks| == |old(tasks)| && tasks == old(tasks)[id := old(tasks)[id].(status := TaskRunning)]
      ensures trace == old(trace) + [Started(id)]
    {
      tasks := tasks[id := tasks[id].(status := TaskRunning)];
      trace := trace + [Started(id)];
    }

    /** The deferred half of RunTask: write the result; with SkipOnFail no error is returned. */
    method FinishTask(id: nat, outcome: Outcome) returns (err: Outcome)
      requires id < |tasks|
      modifies this`tasks, this`trace
      ensures |tasks| == |old(tasks)| && tasks == old(tasks)[id := old(tasks)[id].(status := Final(outcome))]
      ensures tasks[id].status == if outcome == Succeeds then TaskCompleted else TaskFailed
      ensures trace == old(trace) + [Finished(id)]
      ensures err == if skipOnFail then Succeeds else outcome
    {
      tasks := tasks[id := tasks[id].(status := if outcome == Succeeds then TaskCompleted else TaskFailed)];
      trace := trace + [Finished(id)];
      err := if skipOnFail then Succeeds else outcome;
    }

    /** Start a waiting task of a stage. */
    method StartOne(id: nat, results: Results, ghost before: seq<Task>, ghost base: seq<Event>, ghost seg: seq<Event>,
                    ghost all: set<nat>, ghost todo: set<nat>, ghost busy: set<nat>)
      requires id < |before| && id in todo
      requires Underway(before, tasks, base, trace, seg, all, todo, busy, results)
      modifies this`tasks, this`trace
      ensures Underway(before, tasks, base, trace, seg + [Started(id)], all, todo - {id}, busy + {id}, results)
    {
      hide Progress;
      hide StageTrace;
      SetMoves(todo, busy, id);
      ProgressStarts(before, tasks, all, todo, busy, results, id);
      TraceStarts(seg, all, todo, busy, id);
      Associates(base, seg, Started(id));
      StartTask(id);
    }

    /** Finish a running task of a stage. */
    method FinishOne(id: nat, results: Results, ghost before: seq<Task>, ghost base: seq<Event>, ghost seg: seq<Event>,
                     ghost all: set<nat>, ghost todo: set<nat>, ghost busy: set<nat>)
      returns (err: Outcome)
      requires id < |before| && id in busy
      requires Underway(before, tasks, base, trace, seg, all, todo, busy, results)
      modifies this`tasks, this`trace
      ensures Underway(before, tasks, base, trace, seg + [Finished(id)], all, todo, busy - {id}, results)
      ensures err == if skipOnFail then Succeeds else results(id)
    {
      hide Progress;
      hide StageTrace;
      SetDrops(todo, busy, id);
      ProgressFinishes(before, tasks, all, todo, busy, results, id);
      TraceFinishes(seg, all, todo, busy, id);
      Associates(base, seg, Finished(id));
      err := FinishTask(id, results(id));
    }

    /**
      Run the tasks of a stage: one goroutine each, in any interleaving, and wait for all of them.
      The process dies when `budget` steps have been made.
     */
    method RunTasksStandalone(ids: seq<nat>, results: Results, budget: nat)
      returns (err: RunError, alive: bool, left: nat, ghost waiting: set<nat>, ghost running: set<nat>)
      requires Known(ids, tasks) && Distinct(ids)
      modifies this`tasks, this`trace
      ensures Progress(old(tasks), tasks, SetOf(ids), waiting, running, results)
      ensures old(trace) <= trace && StageTrace(trace[|old(trace)|..], SetOf(ids), waiting, running)
      ensures alive ==> waiting == {} && running == {}
      ensures left <= budget && |trace| == |old(trace)| + budget - left && (!alive ==> left == 0)
      ensures alive ==> (err == NoError <==> skipOnFail || forall id | id in ids :: results(id) == Succeeds)
      ensures alive ==> (err == CanceledError <==> !skipOnFail && exists id :: id in ids && results(id) == Canceled)
    {
      hide Progress;
      hide StageTrace;
      hide Underway;
      hide Reported;
      hide SetOf;
      hide Known;
      hide Distinct;
      hide ErrorOf;
      hide Final;
      var todo, busy := SetOf(ids), {};
      var errs: seq<Outcome> := [];
      left := budget;
      ghost var all, seg := SetOf(ids), [];
      Begin(tasks, trace, all, results, skipOnFail);
      while todo != {} || busy != {}
        invariant Underway(old(tasks), tasks, old(trace), trace, seg, all, todo, busy, results)
        invariant left + |seg| == budget
        invariant Reported(errs, skipOnFail, all, todo + busy, results)
        decreases 2 * |todo| + |busy|
      {
        StageSoFar(old(tasks), tasks, old(trace), trace, seg, all, todo, busy, results);
        if left == 0 {
          return NoError, false, 0, todo, busy;
        }
        left := left - 1;
        if
        case todo != {} =>
          var id :| id in todo;
          KnownId(ids, old(tasks), id);
          StartOne(id, results, old(tasks), old(trace), seg, all, todo, busy);
          seg := seg + [Started(id)];
          SetMoves(todo, busy, id);
          todo, busy := todo - {id}, busy + {id};
        case busy != {} =>
          var id :| id in busy;
          KnownId(ids, old(tasks), id);
          Reports(errs, skipOnFail, all, todo + busy, results, id);
          var e := FinishOne(id, results, old(tasks), old(trace), seg, all, todo, busy);
          seg := seg + [Finished(id)];
          SetDrops(todo, busy, id);
          busy := busy - {id};
          errs := if e == Succeeds then errs else errs + [e];
      }
      StageSoFar(old(tasks), tasks, old(trace), trace, seg, all, todo, busy, results);
      alive, waiting, running := true, {}, {};
      err := ErrorOf(errs);
      Verdict(errs, skipOnFail, ids, todo + busy, results);
    }

    /** The ids of the tasks that are to run, sorted by row and column, and the grid of them. */
    method LoadGrid() returns (order: seq<nat>, grid: seq<seq<nat>>)
      requires RowsFromOne(tasks)
      ensures multiset(order) == multiset(PendingIds(tasks, |tasks|)) && Sorted(order, RowCol(tasks))
      ensures Known(order, tasks) && grid == GridOf(order, tasks)
      ensures forall i, j | 0 <= i < j < |order| ::
                var a, b := tasks[order[i]], tasks[order[j]];
                a.row < b.row || (a.row == b.row && a.col <= b.col)
    {
      var ids: seq<nat> := [];
      for id := 0 to |tasks|
        invariant ids == PendingIds(tasks, id)
      {
        if IsPending(tasks[id]) {
          ids := ids + [id];
        }
      }
      order := SortByKey(ids, RowCol(tasks));
      OrderKnown(order, tasks);
      ByRowAndColumn(order, tasks);
      grid := Regroup(order, tasks);
    }

    lemma ByRowAndColumn(order: seq<nat>, tasks: seq<Task>)
      requires Known(order, tasks) && Sorted(order, RowCol(tasks))
      ensures forall i, j | 0 <= i < j < |order| ::
                var a, b := tasks[order[i]], tasks[order[j]];
                a.row < b.row || (a.row == b.row && a.col <= b.col)
    {
      forall i, j | 0 <= i < j < |order|
        ensures var a, b := tasks[order[i]], tasks[order[j]]; a.row < b.row || (a.row == b.row && a.col <= b.col)
      {
        assert Leq(RowCol(tasks)(order[i]), RowCol(tasks)(order[j]));
      }
    }

    /** Run one stage of a run that has finished the `r` before it. */
    method RunStage(grid: seq<seq<nat>>, r: nat, results: Results, budget: nat,
                    ghost before: seq<Task>, ghost base: seq<Event>, ghost run: seq<Event>)
      returns (err: RunError, alive: bool, left: nat, ghost run': seq<Event>)
      requires GridOk(grid, before) && r < |grid| && |tasks| == |before| && StagesDone(before, tasks, r, results)
      requires trace == base + run && RunTrace(run, before, r) && Clean(before, r, results, skipOnFail)
      modifies this`tasks, this`trace, this`status
      ensures |tasks| == |before| && PartlyRan(before, tasks, results) && status == TaskRunning
      ensures trace == base + run' && Barrier(run', before)
      ensures left + |run'| == budget + |run| && (!alive ==> left == 0)
      ensures alive ==> StagesDone(before, tasks, r + 1, results) && RunTrace(run', before, r + 1)
      ensures alive && err == NoError ==> Clean(before, r + 1, results, skipOnFail)
      ensures alive && err != NoError ==> ErrorFits(before, r + 1, results, skipOnFail, err)
    {
      hide Progress;
      hide StageTrace;
      hide GridOk;
      hide StagesDone;
      hide RunTrace;
      hide Barrier;
      hide PartlyRan;
      hide SetOf;
      hide IsRow;
      hide ErrorFits;
      hide Clean;
      hide Known;
      hide Distinct;
      status := TaskRunning;
      GridRow(grid, before, r);
      KnownStill(grid[r], before, tasks);
      ghost var waiting, running;
      ghost var mid, log := tasks, trace;
      err, alive, left, waiting, running := RunTasksStandalone(grid[r], results, budget);
      StageRan(before, mid, tasks, r, grid[r], waiting, running, results);
      ghost var seg := trace[|log|..];
      RunGrows(run, seg, before, r, grid[r], waiting, running);
      Extends(base, run, trace);
      run' := run + seg;
      if alive {
        StageVerdict(before, r, grid[r], results, skipOnFail, err);
      }
    }

    /** Run the stages in order; an error ends the run unless SkipOnFail is set and it is no cancellation. */
    method RunPipelineTasks(grid: seq<seq<nat>>, results: Results, budget: nat)
      returns (err: RunError, alive: bool, ghost reached: nat)
      requires GridOk(grid, tasks)
      modifies this`tasks, this`trace, this`status
      ensures old(trace) <= trace && Barrier(trace[|old(trace)|..], old(tasks))
      ensures !alive ==> |trace| == |old(trace)| + budget
      ensures PartlyRan(old(tasks), tasks, results)
      ensures alive ==> StagesDone(old(tasks), tasks, reached, results)
      ensures alive ==> ErrorFits(old(tasks), reached, results, skipOnFail, err)
      ensures status == old(status) || status == TaskRunning
      ensures alive && err != NoError ==> reached >= 1 && Clean(old(tasks), reached - 1, results, skipOnFail)
    {
      hide GridOk;
      hide StagesDone;
      hide RunTrace;
      hide Barrier;
      hide PartlyRan;
      hide ErrorFits;
      hide Clean;
      ghost var run: seq<Event> := [];
      err, alive, reached := NoError, true, 0;
      var left: nat := budget;
      RunBegins(grid, tasks, results, skipOnFail);
      for r := 0 to |grid|
        invariant alive && StagesDone(old(tasks), tasks, r, results) && |tasks| == |old(tasks)|
        invariant trace == old(trace) + run && RunTrace(run, old(tasks), r)
        invariant err == NoError && reached == r && left + |run| == budget
        invariant Clean(old(tasks), r, results, skipOnFail)
        invariant status == old(status) || status == TaskRunning
      {
        err, alive, left, run := RunStage(grid, r, results, left, old(tasks), old(trace), run);
        assert trace[|old(trace)|..] == run;
        if !alive {
          return;
        }
        reached := r + 1;
        if err == CanceledError || !skipOnFail {
          if err != NoError {
            return;
          }
        }
        ErrorNeedsStop(old(tasks), r + 1, results, skipOnFail, err);
      }
      assert trace[|old(trace)|..] == run;
      RunOrdered(run, old(tasks), |grid|);
      StagesPartly(old(tasks), tasks, |grid|, results);
      AllReached(grid, old(tasks), results, skipOnFail);
    }

    /** Load the tasks to run and run them. */
    method RunPipeline(results: Results, budget: nat) returns (err: RunError, alive: bool, ghost reached: nat)
      requires RowsFromOne(tasks)
      modifies this`tasks, this`trace, this`status
      ensures old(trace) <= trace && Barrier(trace[|old(trace)|..], old(tasks))
      ensures !alive ==> |trace| == |old(trace)| + budget
      ensures PartlyRan(old(tasks), tasks, results)
      ensures alive ==> StagesDone(old(tasks), tasks, reached, results)
      ensures alive ==> ErrorFits(old(tasks), reached, results, skipOnFail, err)
      ensures status == old(status) || status == TaskRunning
      ensures alive && err != NoError ==> reached >= 1 && Clean(old(tasks), reached - 1, results, skipOnFail)
      ensures alive && err == NoError ==> AllRan(old(tasks), tasks, results)
    {
      var order, grid := LoadGrid();
      GridIsOk(order, tasks);
      err, alive, reached := RunPipelineTasks(grid, results, budget);
      if alive && err == NoError {
        CleanRunsAll(old(tasks), tasks, reached, results, skipOnFail);
      }
    }
  }

  // ---------------------------------------------------------------------------------------------
  // All stages

  ghost predicate RowsFromOne(tasks: seq<Task>) {
    forall id: nat | id < |tasks| :: tasks[id].row >= 1
  }

  lemma PendingDistinct(tasks: seq<Task>)
    ensures Distinct(PendingIds(tasks, |tasks|))
  {
    PendingIdsAre(tasks, |tasks|);
  }

  lemma OrderKnown(order: seq<nat>, tasks: seq<Task>)
    requires multiset(order) == multiset(PendingIds(tasks, |tasks|))
    ensures Known(order, tasks) && forall id: nat :: id in order <==> id < |tasks| && IsPending(tasks[id])
    ensures Distinct(order)
  {
    PendingIdsAre(tasks, |tasks|);
    PendingDistinct(tasks);
    hide PendingIds;
    hide Distinct;
    var ids := PendingIds(tasks, |tasks|);
    forall id: nat ensures id in order <==> id in ids {
      PermutationKeepsMembers(order, ids, id);
    }
    PermutationKeepsDistinct(ids, order);
    forall i | 0 <= i < |order| ensures order[i] < |tasks| {
      assert order[i] in order;
    }
  }

  ghost predicate RowOk(ids: seq<nat>, tasks: seq<Task>, row: nat) {
    && Known(ids, tasks) && Distinct(ids)
    && forall id: nat :: id in ids <==> id < |tasks| && IsPending(tasks[id]) && tasks[id].row == row
  }

  /** Row `r` of the grid holds exactly the tasks to run whose row is `r + 1`. */
  ghost predicate GridOk(grid: seq<seq<nat>>, tasks: seq<Task>) {
    && (forall r | 0 <= r < |grid| :: RowOk(grid[r], tasks, r + 1))
    && (forall id: nat | id < |tasks| && IsPending(tasks[id]) :: 1 <= tasks[id].row <= |grid|)
  }

  lemma GridIsOk(order: seq<nat>, tasks: seq<Task>)
    requires multiset(order) == multiset(PendingIds(tasks, |tasks|)) && RowsFromOne(tasks)
    ensures Known(order, tasks) && GridOk(GridOf(order, tasks), tasks)
  {
    OrderKnown(order, tasks);
    hide *;
    GridRows(order, tasks);
  }

  lemma GridRows(order: seq<nat>, tasks: seq<Task>)
    requires Known(order, tasks) && Distinct(order) && RowsFromOne(tasks)
    requires forall id: nat :: id in order <==> id < |tasks| && IsPending(tasks[id])
    ensures GridOk(GridOf(order, tasks), tasks)
  {
    hide Distinct;
    hide OfRow;
    hide RowOk;
    hide MaxRow;
    var grid := GridOf(order, tasks);
    forall r | 0 <= r < |grid| ensures RowOk(grid[r], tasks, r + 1) {
      RowIsOk(order, tasks, r + 1);
    }
    forall id: nat | id < |tasks| && IsPending(tasks[id]) ensures 1 <= tasks[id].row <= |grid| {
      InMaxRow(order, tasks, id);
    }
  }

  lemma InMaxRow(order: seq<nat>, tasks: seq<Task>, id: nat)
    requires Known(order, tasks) && id in order && id < |tasks|
    ensures tasks[id].row <= MaxRow(order, tasks)
  {
    hide OfRow;
    OfRowIs(order, tasks, tasks[id].row);
  }

  lemma RowIsOk(order: seq<nat>, tasks: seq<Task>, row: nat)
    requires Known(order, tasks) && Distinct(order)
    requires forall id: nat :: id in order <==> id < |tasks| && IsPending(tasks[id])
    ensures RowOk(OfRow(order, tasks, row), tasks, row)
  {
    OfRowIs(order, tasks, row);
    OfRowDistinct(order, tasks, row);
    hide OfRow;
    var ids := OfRow(order, tasks, row);
    assert forall i | 0 <= i < |ids| :: ids[i] in ids;
  }

  lemma GridRow(grid: seq<seq<nat>>, tasks: seq<Task>, r: nat)
    requires GridOk(grid, tasks) && r < |grid|
    ensures Known(grid[r], tasks) && Distinct(grid[r]) && IsRow(grid[r], tasks, r)
  {
  }

  ghost predicate IsRow(ids: seq<nat>, tasks: seq<Task>, r: nat) {
    forall id: nat :: id in SetOf(ids) <==> id < |tasks| && IsPending(tasks[id]) && tasks[id].row == r + 1
  }

  lemma KnownStill(ids: seq<nat>, before: seq<Task>, after: seq<Task>)
    requires Known(ids, before) && |after| == |before|
    ensures Known(ids, after)
  {
  }

  lemma Extends(base: seq<Event>, run: seq<Event>, trace: seq<Event>)
    requires base + run <= trace
    ensures trace == base + (run + trace[|base + run|..])
  {
  }

  /** With SkipOnFail no stage ends in an error. */
  lemma ErrorNeedsStop(before: seq<Task>, reached: nat, results: Results, skipOnFail: bool, err: RunError)
    requires err == NoError || ErrorFits(before, reached, results, skipOnFail, err)
    ensures skipOnFail ==> err == NoError
  {
  }

  lemma AllReached(grid: seq<seq<nat>>, tasks: seq<Task>, results: Results, skipOnFail: bool)
    requires GridOk(grid, tasks) && Clean(tasks, |grid|, results, skipOnFail)
    ensures ErrorFits(tasks, |grid|, results, skipOnFail, NoError)
  {
  }

  /** The tasks to run in the first `r` rows have their results; nothing else has changed. */
  ghost predicate StagesDone(before: seq<Task>, after: seq<Task>, r: nat, results: Results) {
    && |after| == |before|
    && forall id: nat | id < |before| ::
         after[id] == if IsPending(before[id]) && before[id].row <= r then before[id].(status := Final(results(id))) else before[id]
  }

  /** Every task that was to run has its result; the others are as they were. */
  ghost predicate AllRan(before: seq<Task>, after: seq<Task>, results: Results) {
    && |after| == |before|
    && forall id: nat | id < |before| ::
         after[id] == if before[id].status == TaskCreated || before[id].status == TaskRerun
                      then before[id].(status := if results(id) == Succeeds then TaskCompleted else TaskFailed)
                      else before[id]
  }

  lemma CleanRunsAll(before: seq<Task>, after: seq<Task>, reached: nat, results: Results, skipOnFail: bool)
    requires StagesDone(before, after, reached, results) && ErrorFits(before, reached, results, skipOnFail, NoError)
    ensures AllRan(before, after, results)
  {
  }

  /** Wherever a run stops, a task to run is untouched, running or has its result; others have not changed. */
  ghost predicate PartlyRan(before: seq<Task>, after: seq<Task>, results: Results) {
    && |after| == |before|
    && forall id: nat | id < |before| ::
         after[id] == before[id]
         || (IsPending(before[id]) && (after[id] == before[id].(status := TaskRunning)
                                       || after[id] == before[id].(status := Final(results(id)))))
  }

  /** What the returned error says about the rows that were reached. */
  ghost predicate ErrorFits(before: seq<Task>, reached: nat, results: Results, skipOnFail: bool, err: RunError) {
    if err == NoError then
      forall id: nat | id < |before| && IsPending(before[id]) ::
        before[id].row <= reached && (skipOnFail || results(id) == Succeeds)
    else
      && !skipOnFail
      && (exists id: nat :: id < |before| && IsPending(before[id]) && before[id].row <= reached && results(id) != Succeeds)
      && (err == CanceledError <==>
            exists id: nat :: id < |before| && IsPending(before[id]) && before[id].row <= reached && results(id) == Canceled)
  }

  /** No task starts before every task to run in an earlier row has reported. */
  ghost predicate Barrier(run: seq<Event>, tasks: seq<Task>) {
    forall q, a: nat | 0 <= q < |run| && run[q].Started? && a < |tasks| && run[q].id < |tasks|
                       && IsPending(tasks[a]) && tasks[a].row < tasks[run[q].id].row ::
      Finished(a) in run[..q]
  }

  /** The trace of a run that has finished the first `r` rows. */
  ghost predicate RunTrace(run: seq<Event>, tasks: seq<Task>, r: nat) {
    && Barrier(run, tasks)
    && (forall e | e in run :: e.id < |tasks| && IsPending(tasks[e.id]) && tasks[e.id].row <= r)
    && (forall id: nat | id < |tasks| && IsPending(tasks[id]) && tasks[id].row <= r :: Finished(id) in run)
  }

  lemma RunOrdered(run: seq<Event>, tasks: seq<Task>, r: nat)
    requires RunTrace(run, tasks, r)
    ensures Barrier(run, tasks)
  {
  }

  lemma RunBegins(grid: seq<seq<nat>>, tasks: seq<Task>, results: Results, skipOnFail: bool)
    requires GridOk(grid, tasks)
    ensures StagesDone(tasks, tasks, 0, results) && RunTrace([], tasks, 0) && Clean(tasks, 0, results, skipOnFail)
  {
  }

  /** No error has come out of the first `r` rows. */
  ghost predicate Clean(before: seq<Task>, r: nat, results: Results, skipOnFail: bool) {
    skipOnFail || forall id: nat | id < |before| && IsPending(before[id]) && before[id].row <= r :: results(id) == Succeeds
  }

  lemma StageVerdict(before: seq<Task>, r: nat, ids: seq<nat>, results: Results, skipOnFail: bool, err: RunError)
    requires Clean(before, r, results, skipOnFail) && IsRow(ids, before, r)
    requires err == NoError <==> skipOnFail || forall id | id in ids :: results(id) == Succeeds
    requires err == CanceledError <==> !skipOnFail && exists id :: id in ids && results(id) == Canceled
    ensures if err == NoError then Clean(before, r + 1, results, skipOnFail)
            else ErrorFits(before, r + 1, results, skipOnFail, err)
  {
    assert forall id | id in ids :: id in SetOf(ids);
    if err == NoError && !skipOnFail {
      forall id: nat | id < |before| && IsPending(before[id]) && before[id].row <= r + 1 ensures results(id) == Succeeds {
        assert before[id].row == r + 1 ==> id in SetOf(ids) && id in ids;
      }
    }
  }

  lemma StageRan(before: seq<Task>, mid: seq<Task>, after: seq<Task>, r: nat, ids: seq<nat>,
                 waiting: set<nat>, running: set<nat>, results: Results)
    requires StagesDone(before, mid, r, results) && IsRow(ids, before, r)
    requires Progress(mid, after, SetOf(ids), waiting, running, results)
    ensures PartlyRan(before, after, results) && |after| == |before|
    ensures waiting == {} && running == {} ==> StagesDone(before, after, r + 1, results)
  {
  }

  lemma StagesPartly(before: seq<Task>, after: seq<Task>, r: nat, results: Results)
    requires StagesDone(before, after, r, results)
    ensures PartlyRan(before, after, results)
  {
  }

  lemma RunGrows(run: seq<Event>, seg: seq<Event>, tasks: seq<Task>, r: nat, ids: seq<nat>, waiting: set<nat>, running: set<nat>)
    requires RunTrace(run, tasks, r) && IsRow(ids, tasks, r) && StageTrace(seg, SetOf(ids), waiting, running)
    ensures Barrier(run + seg, tasks)
    ensures waiting == {} && running == {} ==> RunTrace(run + seg, tasks, r + 1)
  {
    var all := run + seg;
    forall q, a: nat | 0 <= q < |all| && all[q].Started? && a < |tasks| && all[q].id < |tasks|
                       && IsPending(tasks[a]) && tasks[a].row < tasks[all[q].id].row
      ensures Finished(a) in all[..q]
    {
      if q < |run| {
        assert all[..q] == run[..q];
      } else {
        assert all[q] == seg[q - |run|] && all[q] in seg;
        assert Finished(a) in run && all[..q] == run + seg[..q - |run|];
      }
    }
    forall e | e in seg ensures e.id in SetOf(ids) {
      assert e == Started(e.id) || e == Finished(e.id);
    }
  }

  lemma SetMoves(todo: set<nat>, busy: set<nat>, id: nat)
    requires todo !! busy && id in todo
    ensures (todo - {id}) + (busy + {id}) == todo + busy && (todo - {id}) !! (busy + {id})
    ensures |todo - {id}| == |todo| - 1 && |busy + {id}| == |busy| + 1
  {
  }

  lemma SetDrops(todo: set<nat>, busy: set<nat>, id: nat)
    requires todo !! busy && id in busy
    ensures todo + (busy - {id}) == todo + busy - {id} && |busy - {id}| == |busy| - 1
  {
  }

  lemma Associates(a: seq<Event>, b: seq<Event>, e: Event)
    ensures a + b + [e] == a + (b + [e])
  {
  }

  lemma Begin(tasks: seq<Task>, trace: seq<Event>, ids: set<nat>, results: Results, dropped: bool)
    ensures Underway(tasks, tasks, trace, trace, [], ids, ids, {}, results)
    ensures Reported([], dropped, ids, ids + {}, results)
  {
    assert trace + [] == trace;
  }

  /** A stage on its way: what it has made of the tasks and added to the trace. */
  ghost predicate Underway(before: seq<Task>, now: seq<Task>, base: seq<Event>, trace: seq<Event>, seg: seq<Event>,
                           all: set<nat>, todo: set<nat>, busy: set<nat>, results: Results)
  {
    && todo !! busy && todo <= all && busy <= all
    && Progress(before, now, all, todo, busy, results)
    && trace == base + seg && StageTrace(seg, all, todo, busy)
  }

  lemma StageSoFar(before: seq<Task>, now: seq<Task>, base: seq<Event>, trace: seq<Event>, seg: seq<Event>,
                   all: set<nat>, todo: set<nat>, busy: set<nat>, results: Results)
    requires Underway(before, now, base, trace, seg, all, todo, busy, results)
    ensures todo !! busy && todo <= all && busy <= all
    ensures Progress(before, now, all, todo, busy, results)
    ensures base <= trace && trace[|base|..] == seg && StageTrace(seg, all, todo, busy)
  {
  }

  lemma KnownId(ids: seq<nat>, tasks: seq<Task>, id: nat)
    requires Known(ids, tasks) && id in SetOf(ids)
    ensures id < |tasks|
  {
  }

  lemma Verdict(errs: seq<Outcome>, dropped: bool, ids: seq<nat>, unfinished: set<nat>, results: Results)
    requires Reported(errs, dropped, SetOf(ids), unfinished, results) && unfinished == {}
    ensures ErrorOf(errs) == NoError <==> dropped || forall id | id in ids :: results(id) == Succeeds
    ensures ErrorOf(errs) == CanceledError <==> !dropped && exists id :: id in ids && results(id) == Canceled
  {
    if errs != [] {
      assert errs[0] in errs;
    }
    if ErrorOf(errs) == CanceledError {
      var id :| id in SetOf(ids) && results(id) == Canceled;
      assert id in ids;
    }
    if id :| !dropped && id in ids && results(id) == Canceled {
      assert id in SetOf(ids) && results(id) in errs;
    }
  }

  // ---------------------------------------------------------------------------------------------
  // The order of a blueprint's tasks

  /** In this run, the second task starts only after the first has reported. */
  ghost predicate RunsAfter(run: seq<Event>, first: nat, second: nat) {
    forall q | 0 <= q < |run| && run[q] == Started(second) :: Finished(first) in run[..q]
  }

  /** A task of a later stage of the plan runs after every task of an earlier one. */
  lemma LaterStagesRunLater(plan: Plan, run: seq<Event>, i: nat, j: nat, i': nat, j': nat)
    requires Barrier(run, Flatten(plan))
    requires i < i' < |plan| && j < |plan[i]| && j' < |plan[i']|
    ensures RunsAfter(run, IdOf(plan, i, j), IdOf(plan, i', j'))
  {
    FlattenAt(plan, i, j);
    FlattenAt(plan, i', j');
  }

  /** The id of task `j` of stage `i` of a part of the blueprint's plan. */
  function PartId(parts: Parts, section: Section, i: nat, j: nat): (id: nat)
    requires InPart(parts, section, i, j)
    ensures id < |Flatten(BlueprintPlan(parts))|
    ensures Flatten(BlueprintPlan(parts))[id].work == SectionPlan(parts, section)[i][j]
  {
    PartPlace(parts, section, i, j);
    FlattenAt(BlueprintPlan(parts), PartStage(parts, section, i), PartColumn(parts, section, i, j));
    IdOf(BlueprintPlan(parts), PartStage(parts, section, i), PartColumn(parts, section, i, j))
  }

  /**
    The before plan runs first, then the mapping, then the data sources in parallel, then the metrics in
    parallel, then the after plan; and each part runs stage by stage.
   */
  ghost predicate BlueprintOrder(parts: Parts, run: seq<Event>) {
    forall a, i, j, b, i', j' |
      InPart(parts, a, i, j) && InPart(parts, b, i', j') && (Rank(a) < Rank(b) || (a == b && i < i')) ::
        RunsAfter(run, PartId(parts, a, i, j), PartId(parts, b, i', j'))
  }

  lemma BlueprintIsOrdered(parts: Parts, run: seq<Event>)
    requires Barrier(run, Flatten(BlueprintPlan(parts)))
    ensures BlueprintOrder(parts, run)
  {
    hide Barrier;
    hide RunsAfter;
    hide BlueprintPlan;
    hide PartStage;
    hide PartColumn;
    hide IdOf;
    hide Rank;
    forall a, i, j, b, i', j' |
      InPart(parts, a, i, j) && InPart(parts, b, i', j') && (Rank(a) < Rank(b) || (a == b && i < i'))
      ensures RunsAfter(run, PartId(parts, a, i, j), PartId(parts, b, i', j'))
    {
      PartPlace(parts, a, i, j);
      PartPlace(parts, b, i', j');
      PartOrder(parts, a, i, j, b, i', j');
      LaterStagesRunLater(BlueprintPlan(parts), run, PartStage(parts, a, i), PartColumn(parts, a, i, j),
                          PartStage(parts, b, i'), PartColumn(parts, b, i', j'));
    }
  }

  /**
    From the plugins' plans to the run: merge, create the tasks, load them again and run them. A run
    that ends without an error has run every task.
   */
  method RunBlueprint(parts: Parts, skipOnFail: bool, results: Results, budget: nat)
    returns (pipeline: Pipeline, ok: bool, err: RunError, alive: bool)
    ensures fresh(pipeline) && pipeline.skipOnFail == skipOnFail
    ensures multiset(WorkOf(pipeline.tasks)) == AllTasks(parts) && (ok <==> pipeline.tasks != [])
    ensures |pipeline.tasks| == |Flatten(BlueprintPlan(parts))|
    ensures ok ==> PartlyRan(Flatten(BlueprintPlan(parts)), pipeline.tasks, results)
    ensures ok ==> BlueprintOrder(parts, pipeline.trace)
    ensures !alive ==> |pipeline.trace| == budget
    ensures ok && alive && err == NoError ==>
              forall id: nat | id < |pipeline.tasks| ::
                pipeline.tasks[id].status == if results(id) == Succeeds then TaskCompleted else TaskFailed
    ensures ok && alive && err == NoError ==>
              forall id: nat | id < |pipeline.tasks| :: skipOnFail || results(id) == Succeeds
    ensures ok && alive && err != NoError ==>
              !skipOnFail && exists id: nat :: id < |pipeline.tasks| && results(id) != Succeeds
  {
    hide BlueprintOrder;
    var plan := MakePlan(parts);
    pipeline := new Pipeline(skipOnFail);
    ok := pipeline.CreateTasks(plan);
    err, alive := NoError, true;
    if ok {
      FlattenSorted(plan);
      ghost var before, reached := pipeline.tasks, 0;
      err, alive, reached := pipeline.RunPipeline(results, budget);
      assert pipeline.trace[0..] == pipeline.trace;
      BlueprintIsOrdered(parts, pipeline.trace);
      SameWork(before, pipeline.tasks, results);
    }
  }

  /** A run leaves what the tasks are to do as it was. */
  lemma SameWork(before: seq<Task>, after: seq<Task>, results: Results)
    requires PartlyRan(before, after, results)
    ensures WorkOf(after) == WorkOf(before)
  {
  }
}
