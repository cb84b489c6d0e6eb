/** The status of a pipeline over any number of runs, reruns, cancellations and restarts. */
module PipelineStatuses {
  import opened Wrappers
  import opened Sequences
  import opened PipelinePlans
  import opened TaskGrids
  import opened Pipelines

  // ---------------------------------------------------------------------------------------------
  // The newest task of every cell

  predicate SameCell(a: Task, b: Task) {
    a.row == b.row && a.col == b.col
  }

  ghost predicate Newest(tasks: seq<Task>, id: nat) {
    id < |tasks| && forall k: nat | id < k < |tasks| :: !SameCell(tasks[k], tasks[id])
  }

  /** The newest tasks among those from `n` on, latest first. */
  ghost function LatestFrom(tasks: seq<Task>, n: nat): seq<nat>
    requires n <= |tasks|
    decreases |tasks| - n
  {
    if n == |tasks| then [] else LatestFrom(tasks, n + 1) + if Newest(tasks, n) then [n] else []
  }

  lemma {:induction false} LatestFromIs(tasks: seq<Task>, n: nat)
    requires n <= |tasks|
    ensures forall id: nat :: id in LatestFrom(tasks, n) <==> n <= id && Newest(tasks, id)
    decreases |tasks| - n
  {
    if n < |tasks| {
      LatestFromIs(tasks, n + 1);
    }
  }

  /** Latest first. */
  lemma {:induction false} LatestDescends(tasks: seq<Task>, n: nat)
    requires n <= |tasks|
    ensures var ids := LatestFrom(tasks, n);
            forall i, j | 0 <= i < j < |ids| :: ids[i] > ids[j]
    decreases |tasks| - n
  {
    if n < |tasks| {
      LatestDescends(tasks, n + 1);
      LatestFromIs(tasks, n + 1);
      var ids := LatestFrom(tasks, n + 1);
      hide Newest;
      forall i | 0 <= i < |ids| ensures ids[i] > n {
        assert ids[i] in LatestFrom(tasks, n + 1);
      }
      var all := LatestFrom(tasks, n);
      assert all == ids + [n] || all == ids + [];
      hide LatestFrom;
      forall i, j | 0 <= i < j < |all| ensures all[i] > all[j] {
        assert all[i] == ids[i];
      }
    }
  }

  /** Deduplicate by (row, col), latest first. */
  method GetLatestTasksOfPipeline(tasks: seq<Task>) returns (ids: seq<nat>)
    ensures ids == LatestFrom(tasks, 0)
    ensures (forall id: nat :: id in ids <==> Newest(tasks, id)) && forall i, j | 0 <= i < j < |ids| :: ids[i] > ids[j]
  {
    ids := [];
    var memorized: set<(nat, nat)> := {};
    for n := |tasks| downto 0
      invariant ids == LatestFrom(tasks, n)
      invariant forall row, col :: (row, col) in memorized <==> exists k: nat :: n <= k < |tasks| && tasks[k].row == row && tasks[k].col == col
    {
      var key := (tasks[n].row, tasks[n].col);
      assert Newest(tasks, n) <==> key !in memorized by {
        assert forall k: nat | n < k < |tasks| :: SameCell(tasks[k], tasks[n]) <==> tasks[k].row == key.0 && tasks[k].col == key.1;
      }
      if key !in memorized {
        memorized := memorized + {key};
        ids := ids + [n];
      }
    }
    hide Newest;
    LatestFromIs(tasks, 0);
    LatestDescends(tasks, 0);
  }

  function MaxCol(tasks: seq<Task>, n: nat): (m: nat)
    requires n <= |tasks|
    ensures forall k: nat | k < n :: tasks[k].col <= m
  {
    if n == 0 then 0 else if tasks[n - 1].col > MaxCol(tasks, n - 1) then tasks[n - 1].col else MaxCol(tasks, n - 1)
  }

  function CellKey(task: Task, maxCol: nat): nat {
    task.row * maxCol + task.col
  }

  /** The arithmetic key tells cells apart when columns count from 1. */
  lemma KeyTellsCells(a: Task, b: Task, maxCol: nat)
    requires 1 <= a.col <= maxCol && 1 <= b.col <= maxCol
    ensures CellKey(a, maxCol) == CellKey(b, maxCol) <==> SameCell(a, b)
  {
    if a.row < b.row {
      KeyGrows(a.row, b.row, maxCol);
    } else if b.row < a.row {
      KeyGrows(b.row, a.row, maxCol);
    }
  }

  lemma KeyGrows(r: nat, s: nat, maxCol: nat)
    requires r < s
    ensures r * maxCol + maxCol <= s * maxCol
  {
    var d := s - r - 1;
    assert s * maxCol == (r + 1 + d) * maxCol;
    assert (r + 1 + d) * maxCol == r * maxCol + maxCol + d * maxCol;
  }

  /** With a column 0, two different cells share a key. */
  lemma ColumnZeroCollides(a: Task, b: Task, maxCol: nat)
    requires a.row == b.row + 1 && a.col == 0 && b.col == maxCol
    ensures CellKey(a, maxCol) == CellKey(b, maxCol) && !SameCell(a, b)
  {
    assert (b.row + 1) * maxCol == b.row * maxCol + maxCol;
  }

  /** Deduplicate by `row * maxCol + col`, latest first: the same list as deduplicating by (row, col). */
  method GetTasksWithLastStatus(tasks: seq<Task>) returns (ids: seq<nat>)
    requires forall k: nat | k < |tasks| :: tasks[k].col >= 1
    ensures ids == LatestFrom(tasks, 0)
    ensures (forall id: nat :: id in ids <==> Newest(tasks, id)) && forall i, j | 0 <= i < j < |ids| :: ids[i] > ids[j]
  {
    var maxCol := 0;
    for n := 0 to |tasks|
      invariant maxCol == MaxCol(tasks, n)
    {
      if tasks[n].col > maxCol {
        maxCol := tasks[n].col;
      }
    }
    ids := [];
    var taskIds: set<nat> := {};
    for n := |tasks| downto 0
      invariant ids == LatestFrom(tasks, n)
      invariant forall key :: key in taskIds <==> exists k: nat :: n <= k < |tasks| && CellKey(tasks[k], maxCol) == key
    {
      var index := CellKey(tasks[n], maxCol);
      forall k: nat | n < k < |tasks| ensures SameCell(tasks[k], tasks[n]) <==> CellKey(tasks[k], maxCol) == index {
        KeyTellsCells(tasks[k], tasks[n], maxCol);
      }
      assert Newest(tasks, n) <==> index !in taskIds;
      if index !in taskIds {
        taskIds := taskIds + {index};
        ids := ids + [n];
      }
    }
    hide Newest;
    hide CellKey;
    LatestFromIs(tasks, 0);
    LatestDescends(tasks, 0);
  }

  // ---------------------------------------------------------------------------------------------
  // The status of a pipeline from those of its newest tasks

  predicate IsRunning(status: Status) {
    status == TaskRunning
  }

  predicate IsCompleted(status: Status) {
    status == TaskCompleted
  }

  predicate IsFailed(status: Status) {
    status == TaskFailed || status == TaskCancelled
  }

  predicate IsUnfinished(status: Status) {
    status != TaskCompleted && !IsFailed(status) && status != TaskRunning
  }

  ghost predicate SomeNewest(tasks: seq<Task>, p: Status -> bool) {
    exists id: nat :: Newest(tasks, id) && p(tasks[id].status)
  }

  ghost predicate Unexpected(tasks: seq<Task>, skipOnFail: bool, isCancelled: bool) {
    SomeNewest(tasks, IsRunning) || (!isCancelled && skipOnFail && SomeNewest(tasks, IsUnfinished))
  }

  /** None stands for the error of being called at a wrong time. */
  ghost function StatusOf(tasks: seq<Task>, skipOnFail: bool, isCancelled: bool): Option<Status> {
    if Unexpected(tasks, skipOnFail, isCancelled) then None
    else if !SomeNewest(tasks, IsFailed) then Some(TaskCompleted)
    else if skipOnFail && SomeNewest(tasks, IsCompleted) then Some(TaskPartial)
    else Some(TaskFailed)
  }

  /** How many of the ids have such a status. */
  ghost function Count(tasks: seq<Task>, ids: seq<nat>, p: Status -> bool): nat
    requires Known(ids, tasks)
  {
    if |ids| == 0 then 0
    else Count(tasks, ids[..|ids| - 1], p) + if p(tasks[ids[|ids| - 1]].status) then 1 else 0
  }

  lemma {:induction false} CountIs(tasks: seq<Task>, ids: seq<nat>, p: Status -> bool)
    requires Known(ids, tasks)
    ensures Count(tasks, ids, p) > 0 <==> exists i :: 0 <= i < |ids| && p(tasks[ids[i]].status)
  {
    if |ids| > 0 {
      var init := ids[..|ids| - 1];
      CountIs(tasks, init, p);
      assert forall i | 0 <= i < |init| :: init[i] == ids[i];
    }
  }

  lemma CountNewest(tasks: seq<Task>, ids: seq<nat>, p: Status -> bool)
    requires ids == LatestFrom(tasks, 0)
    ensures Known(ids, tasks) && (Count(tasks, ids, p) > 0 <==> SomeNewest(tasks, p))
  {
    LatestFromIs(tasks, 0);
    assert forall i | 0 <= i < |ids| :: ids[i] in ids;
    CountIs(tasks, ids, p);
    hide LatestFrom;
    hide Newest;
  }

  method CountStatuses(tasks: seq<Task>, ids: seq<nat>) returns (succeeded: nat, failed: nat, pending: nat, running: nat)
    requires Known(ids, tasks)
    ensures succeeded == Count(tasks, ids, IsCompleted) && failed == Count(tasks, ids, IsFailed)
    ensures pending == Count(tasks, ids, IsUnfinished) && running == Count(tasks, ids, IsRunning)
  {
    succeeded, failed, pending, running := 0, 0, 0, 0;
    for n := 0 to |ids|
      invariant Known(ids[..n], tasks)
      invariant succeeded == Count(tasks, ids[..n], IsCompleted) && failed == Count(tasks, ids[..n], IsFailed)
      invariant pending == Count(tasks, ids[..n], IsUnfinished) && running == Count(tasks, ids[..n], IsRunning)
    {
      assert ids[..n + 1][..n] == ids[..n];
      var s := tasks[ids[n]].status;
      if s == TaskCompleted {
        succeeded := succeeded + 1;
      } else if s == TaskFailed || s == TaskCancelled {
        failed := failed + 1;
      } else if s == TaskRunning {
        running := running + 1;
      } else {
        pending := pending + 1;
      }
    }
    assert ids[..|ids|] == ids;
  }

  /** A newest task has one of these statuses. */
  ghost predicate NewestIn(tasks: seq<Task>, statuses: set<Status>) {
    exists id: nat :: Newest(tasks, id) && tasks[id].status in statuses
  }

  lemma NewestKinds(tasks: seq<Task>)
    ensures SomeNewest(tasks, IsRunning) <==> NewestIn(tasks, {TaskRunning})
    ensures SomeNewest(tasks, IsCompleted) <==> NewestIn(tasks, {TaskCompleted})
    ensures SomeNewest(tasks, IsFailed) <==> NewestIn(tasks, {TaskFailed, TaskCancelled})
    ensures SomeNewest(tasks, IsUnfinished) <==> NewestIn(tasks, {TaskCreated, TaskRerun, TaskPartial})
  {
    hide Newest;
  }

  method ComputePipelineStatus(tasks: seq<Task>, skipOnFail: bool, isCancelled: bool) returns (status: Option<Status>)
    ensures status == StatusOf(tasks, skipOnFail, isCancelled)
    ensures status.None? <==>
              || NewestIn(tasks, {TaskRunning})
              || (!isCancelled && skipOnFail && NewestIn(tasks, {TaskCreated, TaskRerun, TaskPartial}))
    ensures status.Some? ==>
              status.value == if !NewestIn(tasks, {TaskFailed, TaskCancelled}) then TaskCompleted
                              else if skipOnFail && NewestIn(tasks, {TaskCompleted}) then TaskPartial
                              else TaskFailed
  {
    NewestKinds(tasks);
    hide NewestIn;
    hide SomeNewest;
    hide Count;
    hide Known;
    var ids := GetLatestTasksOfPipeline(tasks);
    CountNewest(tasks, ids, IsCompleted);
    CountNewest(tasks, ids, IsFailed);
    CountNewest(tasks, ids, IsRunning);
    CountNewest(tasks, ids, IsUnfinished);
    var succeeded, failed, pending, running := CountStatuses(tasks, ids);
    if running > 0 || (!isCancelled && skipOnFail && pending > 0) {
      return None;
    }
    if failed == 0 {
      return Some(TaskCompleted);
    }
    if skipOnFail && succeeded > 0 {
      return Some(TaskPartial);
    }
    return Some(TaskFailed);
  }

  // ---------------------------------------------------------------------------------------------
  // Between two runs

  /** No task is running, rows and columns count from 1. */
  ghost predicate Settled(tasks: seq<Task>) {
    forall id: nat | id < |tasks| ::
      tasks[id].row >= 1 && tasks[id].col >= 1 && tasks[id].status != TaskPartial && tasks[id].status != TaskRunning
  }

  ghost predicate Waits(tasks: seq<Task>, id: nat) {
    id < |tasks| && IsPending(tasks[id])
  }

  /** Settled, and a task that is to run is the newest of its cell. */
  ghost predicate AtRest(tasks: seq<Task>) {
    Settled(tasks) && forall id: nat | Waits(tasks, id) :: Newest(tasks, id)
  }

  lemma CellsKeepNewest(before: seq<Task>, after: seq<Task>)
    requires |after| == |before| && forall id: nat | id < |before| :: SameCell(after[id], before[id])
    ensures forall id: nat :: Newest(before, id) <==> Newest(after, id)
  {
    forall id: nat ensures Newest(before, id) <==> Newest(after, id) {
      if id < |before| {
        assert forall k: nat | id < k < |before| :: SameCell(after[k], after[id]) <==> SameCell(before[k], before[id]);
      }
    }
  }

  /** The tasks of a run that died, once the restart has marked the running ones as failed. */
  function Restarted(tasks: seq<Task>): (after: seq<Task>)
    ensures |after| == |tasks|
  {
    seq(|tasks|, id requires 0 <= id < |tasks| =>
      if tasks[id].status == TaskRunning then tasks[id].(status := TaskFailed) else tasks[id])
  }

  /** A task that was running is failed, and every other one is as it was. */
  lemma RestartedIs(tasks: seq<Task>, id: nat)
    requires id < |tasks|
    ensures tasks[id].status == TaskRunning ==> Restarted(tasks)[id] == tasks[id].(status := TaskFailed)
    ensures tasks[id].status != TaskRunning ==> Restarted(tasks)[id] == tasks[id]
  {
  }

  /** After a run that died, only tasks that have succeeded are completed, and what was running is failed. */
  lemma DiedIs(before: seq<Task>, after: seq<Task>, results: Results, id: nat)
    requires Settled(before) && PartlyRan(before, after, results) && id < |before|
    ensures var again := Restarted(after);
            && (again[id].status == TaskCompleted ==>
                  before[id].status == TaskCompleted
                  || ((before[id].status == TaskCreated || before[id].status == TaskRerun) && results(id) == Succeeds))
            && (after[id].status == TaskRunning ==> again[id].status == TaskFailed)
            && again[id] == before[id].(status := again[id].status)
  {
  }

  lemma RestartSettles(before: seq<Task>, after: seq<Task>, results: Results)
    requires Settled(before) && PartlyRan(before, after, results)
    ensures Settled(Restarted(after)) && (AtRest(before) ==> AtRest(Restarted(after)))
  {
    var again := Restarted(after);
    CellsKeepNewest(before, again);
    assert forall id: nat | Waits(again, id) :: Waits(before, id);
  }

  lemma RestartedSettled(tasks: seq<Task>)
    requires Settled(tasks)
    ensures Restarted(tasks) == tasks
  {
  }

  /** What a run that ends makes of the tasks. */
  ghost predicate RanTo(before: seq<Task>, after: seq<Task>, reached: nat, results: Results, skipOnFail: bool, err: RunError) {
    && StagesDone(before, after, reached, results)
    && ErrorFits(before, reached, results, skipOnFail, err)
    && (err != NoError ==> reached >= 1 && Clean(before, reached - 1, results, skipOnFail))
  }

  lemma RunSettles(before: seq<Task>, after: seq<Task>, reached: nat, results: Results, skipOnFail: bool, err: RunError)
    requires Settled(before) && RanTo(before, after, reached, results, skipOnFail, err)
    ensures Settled(after) && (AtRest(before) ==> AtRest(after))
    ensures forall id: nat :: Newest(before, id) <==> Newest(after, id)
  {
    CellsKeepNewest(before, after);
    assert forall id: nat | Waits(after, id) :: Waits(before, id);
  }

  // ---------------------------------------------------------------------------------------------
  // When the written status is true

  /** The status is what the newest tasks say. */
  ghost predicate Sound(tasks: seq<Task>, skipOnFail: bool, status: Status) {
    && (status == TaskCompleted <==> forall id: nat | Newest(tasks, id) :: tasks[id].status == TaskCompleted)
    && (status == TaskPartial <==>
          skipOnFail && SomeNewest(tasks, IsCompleted) && SomeNewest(tasks, IsFailed))
    && (status == TaskCompleted || status == TaskPartial || status == TaskFailed)
  }

  /** A task that waits although a newer one has taken its cell. */
  ghost predicate Outdated(tasks: seq<Task>, id: nat) {
    Waits(tasks, id) && !Newest(tasks, id)
  }

  ghost predicate Due(tasks: seq<Task>, id: nat) {
    Waits(tasks, id) && Newest(tasks, id)
  }

  /**
    A run that starts here may be written as completed although it is not: an outdated task that still
    waits can stop it, unseen, before the row of a task that is to run.
   */
  ghost predicate Deceivable(tasks: seq<Task>, skipOnFail: bool) {
    && !skipOnFail && !SomeNewest(tasks, IsFailed)
    && exists t: nat, u: nat :: Outdated(tasks, t) && Due(tasks, u) && tasks[t].row < tasks[u].row
  }

  /** Some run with these results ends with a status that is not sound, or with none. */
  ghost predicate Deceived(before: seq<Task>, results: Results, skipOnFail: bool) {
    exists after, reached, err ::
      RanTo(before, after, reached, results, skipOnFail, err)
      && !SoundOption(after, skipOnFail, StatusOf(after, skipOnFail, err == CanceledError))
  }

  ghost predicate SoundOption(tasks: seq<Task>, skipOnFail: bool, status: Option<Status>) {
    status.Some? && Sound(tasks, skipOnFail, status.value)
  }

  /** Without an error every waiting task has run. */
  lemma NothingUnfinished(before: seq<Task>, after: seq<Task>, reached: nat, results: Results, skipOnFail: bool)
    requires Settled(before) && RanTo(before, after, reached, results, skipOnFail, NoError)
    ensures !SomeNewest(after, IsUnfinished)
  {
    forall id: nat | Newest(after, id) ensures IsCompleted(after[id].status) || IsFailed(after[id].status) {
    }
  }

  /** At the end of a run the status is never computed at the wrong time. */
  lemma StatusIsComputed(before: seq<Task>, after: seq<Task>, reached: nat, results: Results, skipOnFail: bool, err: RunError)
    requires Settled(before) && RanTo(before, after, reached, results, skipOnFail, err)
    ensures StatusOf(after, skipOnFail, err == CanceledError).Some?
    ensures !SomeNewest(after, IsRunning)
  {
    RunSettles(before, after, reached, results, skipOnFail, err);
    NobodyRuns(after);
    if err == NoError {
      NothingUnfinished(before, after, reached, results, skipOnFail);
    } else {
      assert !skipOnFail;
    }
    hide SomeNewest;
    hide RanTo;
    hide Settled;
  }

  lemma NobodyRuns(tasks: seq<Task>)
    requires Settled(tasks)
    ensures !SomeNewest(tasks, IsRunning)
  {
    NewestAreTasks(tasks);
    hide Newest;
  }

  /** A status that is not sound is a COMPLETED with a newest task that still waits. */
  lemma UnsoundIsUnfinished(tasks: seq<Task>, skipOnFail: bool, isCancelled: bool)
    requires StatusOf(tasks, skipOnFail, isCancelled).Some? && !SomeNewest(tasks, IsRunning)
    ensures SoundOption(tasks, skipOnFail, StatusOf(tasks, skipOnFail, isCancelled))
            <==> SomeNewest(tasks, IsFailed) || !SomeNewest(tasks, IsUnfinished)
    ensures !SomeNewest(tasks, IsFailed) ==> StatusOf(tasks, skipOnFail, isCancelled) == Some(TaskCompleted)
  {
    forall id: nat | Newest(tasks, id)
      ensures IsCompleted(tasks[id].status) || IsFailed(tasks[id].status) || IsUnfinished(tasks[id].status)
    {
      assert !IsRunning(tasks[id].status);
    }
  }

  /** A run that leaves a newest task waiting and no newest task failed was stopped by an outdated one. */
  lemma StoppedShort(before: seq<Task>, after: seq<Task>, reached: nat, results: Results, skipOnFail: bool, err: RunError)
    requires Settled(before) && RanTo(before, after, reached, results, skipOnFail, err) && err != NoError
    requires forall id: nat :: Newest(before, id) <==> Newest(after, id)
    requires !SomeNewest(after, IsFailed) && SomeNewest(after, IsUnfinished)
    ensures Deceivable(before, skipOnFail)
  {
    NewestAreTasks(before);
    NewestAreTasks(after);
    hide Newest;
    var t: nat :| t < |before| && IsPending(before[t]) && before[t].row <= reached && results(t) != Succeeds;
    assert IsFailed(after[t].status);
    assert Outdated(before, t);
    var u: nat :| Newest(after, u) && IsUnfinished(after[u].status);
    assert Due(before, u) && before[t].row < before[u].row;
    forall id: nat | Newest(before, id) ensures !IsFailed(before[id].status) {
      assert !IsPending(before[id]) ==> after[id] == before[id];
    }
  }

  lemma NewestAreTasks(tasks: seq<Task>)
    ensures forall id: nat | Newest(tasks, id) :: id < |tasks|
  {
  }

  /** Where an unsound status comes from. */
  lemma DeceivedNeeds(before: seq<Task>, after: seq<Task>, reached: nat, results: Results, skipOnFail: bool, err: RunError)
    requires Settled(before) && RanTo(before, after, reached, results, skipOnFail, err)
    requires !SoundOption(after, skipOnFail, StatusOf(after, skipOnFail, err == CanceledError))
    ensures Deceivable(before, skipOnFail)
  {
    StatusIsComputed(before, after, reached, results, skipOnFail, err);
    UnsoundIsUnfinished(after, skipOnFail, err == CanceledError);
    RunSettles(before, after, reached, results, skipOnFail, err);
    hide StatusOf;
    hide Sound;
    hide SomeNewest;
    hide Newest;
    hide Deceivable;
    hide RanTo;
    if err == NoError {
      NothingUnfinished(before, after, reached, results, skipOnFail);
    } else {
      StoppedShort(before, after, reached, results, skipOnFail, err);
    }
  }

  /** The tasks after the rows up to `reached` have run. */
  function RanRows(before: seq<Task>, reached: nat, results: Results): (after: seq<Task>)
    ensures |after| == |before|
  {
    seq(|before|, id requires 0 <= id < |before| =>
      if IsPending(before[id]) && before[id].row <= reached then before[id].(status := Final(results(id))) else before[id])
  }

  function FailsAt(t: nat): Results {
    (id: nat) => if id == t then Fails else Succeeds
  }

  /** When the outdated task fails and everything else succeeds, the run stops at its row. */
  lemma StopsAtOutdated(before: seq<Task>, t: nat)
    requires Settled(before) && Waits(before, t)
    ensures RanTo(before, RanRows(before, before[t].row, FailsAt(t)), before[t].row, FailsAt(t), false, TaskError)
  {
    assert FailsAt(t)(t) != Succeeds;
  }

  lemma OthersSucceed(before: seq<Task>, reached: nat, t: nat, id: nat)
    requires id < |before| && id != t && !IsFailed(before[id].status)
    ensures !IsFailed(RanRows(before, reached, FailsAt(t))[id].status)
  {
    assert FailsAt(t)(id) == Succeeds;
  }

  lemma NobodySeenFailing(before: seq<Task>, t: nat)
    requires Settled(before) && !SomeNewest(before, IsFailed) && Outdated(before, t)
    ensures !SomeNewest(RanRows(before, before[t].row, FailsAt(t)), IsFailed)
  {
    var after := RanRows(before, before[t].row, FailsAt(t));
    assert forall id: nat | id < |before| :: SameCell(after[id], before[id]);
    forall id: nat | id < |before| && id != t && !IsFailed(before[id].status) ensures !IsFailed(after[id].status) {
      OthersSucceed(before, before[t].row, t, id);
    }
    CellsKeepNewest(before, after);
    NewestAreTasks(before);
    hide Newest;
    hide RanRows;
    if id: nat :| Newest(after, id) && IsFailed(after[id].status) {
      assert Newest(before, id) && IsFailed(before[id].status);
    }
  }

  /** The run that deceives. */
  lemma DeceivingRun(before: seq<Task>, t: nat, u: nat)
    requires Settled(before) && !SomeNewest(before, IsFailed)
    requires Outdated(before, t) && Due(before, u) && before[t].row < before[u].row
    ensures Deceived(before, FailsAt(t), false)
  {
    var reached, results := before[t].row, FailsAt(t);
    var after := RanRows(before, reached, results);
    StopsAtOutdated(before, t);
    StatusIsComputed(before, after, reached, results, false, TaskError);
    RunSettles(before, after, reached, results, false, TaskError);
    NobodySeenFailing(before, t);
    assert Newest(after, u) && IsUnfinished(after[u].status);
    assert SomeNewest(after, IsUnfinished);
    hide RanTo;
    hide RanRows;
    hide SomeNewest;
    hide Newest;
    hide Sound;
    UnsoundIsUnfinished(after, false, false);
    hide StatusOf;
  }

  /** Some results make a run write an unsound status exactly from the deceivable states. */
  lemma DeceivedIff(before: seq<Task>, skipOnFail: bool)
    requires Settled(before)
    ensures (exists results :: Deceived(before, results, skipOnFail)) <==> Deceivable(before, skipOnFail)
  {
    hide RanTo;
    hide SoundOption;
    hide StatusOf;
    if Deceivable(before, skipOnFail) {
      hide Deceived;
      var t: nat, u: nat :| Outdated(before, t) && Due(before, u) && before[t].row < before[u].row;
      DeceivingRun(before, t, u);
    }
    if results :| Deceived(before, results, skipOnFail) {
      hide Deceivable;
      var after, reached, err :|
        RanTo(before, after, reached, results, skipOnFail, err)
        && !SoundOption(after, skipOnFail, StatusOf(after, skipOnFail, err == CanceledError));
      DeceivedNeeds(before, after, reached, results, skipOnFail, err);
    }
  }

  /** At the end of any run that does not start deceivable, the status is sound. */
  lemma StatusIsSound(before: seq<Task>, after: seq<Task>, reached: nat, results: Results, skipOnFail: bool, err: RunError)
    requires Settled(before) && !Deceivable(before, skipOnFail)
    requires RanTo(before, after, reached, results, skipOnFail, err)
    ensures SoundOption(after, skipOnFail, StatusOf(after, skipOnFail, err == CanceledError))
  {
    if !SoundOption(after, skipOnFail, StatusOf(after, skipOnFail, err == CanceledError)) {
      DeceivedNeeds(before, after, reached, results, skipOnFail, err);
    }
  }

  // ---------------------------------------------------------------------------------------------
  // Reruns

  /** Mark one task failed and create its successor in the same cell. */
  function RerunOne(tasks: seq<Task>, id: nat): (after: seq<Task>)
    requires id < |tasks|
    ensures |after| == |tasks| + 1
  {
    tasks[id := tasks[id].(status := TaskFailed)] + [tasks[id].(status := TaskRerun)]
  }

  function RerunAll(tasks: seq<Task>, ids: seq<nat>): (after: seq<Task>)
    requires Known(ids, tasks)
    ensures |after| == |tasks| + |ids|
  {
    if |ids| == 0 then tasks
    else RerunOne(RerunAll(tasks, ids[..|ids| - 1]), ids[|ids| - 1])
  }

  lemma OneMoreRerun(tasks: seq<Task>, mid: seq<Task>, ids: seq<nat>, id: nat)
    requires Known(ids, tasks) && id < |tasks| && |mid| == |tasks| + |ids|
    requires forall k: nat | k < |tasks| :: mid[k] == if k in ids then tasks[k].(status := TaskFailed) else tasks[k]
    requires forall n | 0 <= n < |ids| :: mid[|tasks| + n] == tasks[ids[n]].(status := TaskRerun)
    ensures var after, ids' := RerunOne(mid, id), ids + [id];
            && (forall k: nat | k < |tasks| :: after[k] == if k in ids' then tasks[k].(status := TaskFailed) else tasks[k])
            && forall n | 0 <= n < |ids'| :: after[|tasks| + n] == tasks[ids'[n]].(status := TaskRerun)
  {
  }

  /** The tasks named are failed, each has a successor with the same work in the same cell, and the others are as they were. */
  lemma {:induction false} RerunAllMakes(tasks: seq<Task>, ids: seq<nat>)
    requires Known(ids, tasks)
    ensures var after := RerunAll(tasks, ids);
            && (forall k: nat | k < |tasks| :: after[k] == if k in ids then tasks[k].(status := TaskFailed) else tasks[k])
            && forall n | 0 <= n < |ids| :: after[|tasks| + n] == tasks[ids[n]].(status := TaskRerun)
  {
    if |ids| > 0 {
      var init, last := ids[..|ids| - 1], ids[|ids| - 1];
      RerunAllMakes(tasks, init);
      OneMoreRerun(tasks, RerunAll(tasks, init), init, last);
      assert ids == init + [last];
      hide RerunOne;
    }
  }

  /** No other task of the cell is still to run. */
  ghost predicate Harmless(tasks: seq<Task>, id: nat) {
    id < |tasks| && forall k: nat | k < |tasks| && k != id && SameCell(tasks[k], tasks[id]) :: !IsPending(tasks[k])
  }

  lemma RerunNewest(tasks: seq<Task>, id: nat, k: nat)
    requires id < |tasks|
    ensures Newest(RerunOne(tasks, id), k) <==> k == |tasks| || (Newest(tasks, k) && !SameCell(tasks[k], tasks[id]))
  {
    var after := RerunOne(tasks, id);
    if k < |tasks| {
      assert forall n: nat | n < |tasks| :: SameCell(after[n], after[k]) <==> SameCell(tasks[n], tasks[k]);
      assert SameCell(after[|tasks|], after[k]) <==> SameCell(tasks[k], tasks[id]);
    }
  }

  /** Rerunning a task leaves a resting state exactly when no other task of its cell is still to run. */
  lemma RerunRestsIff(tasks: seq<Task>, id: nat)
    requires AtRest(tasks) && id < |tasks|
    ensures AtRest(RerunOne(tasks, id)) <==> Harmless(tasks, id)
  {
    var after := RerunOne(tasks, id);
    forall k: nat | Waits(after, k) ensures Newest(after, k) <==> k == |tasks| || !SameCell(tasks[k], tasks[id]) {
      RerunNewest(tasks, id, k);
      assert k < |tasks| ==> Waits(tasks, k);
    }
    if k: nat :| k < |tasks| && k != id && SameCell(tasks[k], tasks[id]) && IsPending(tasks[k]) {
      assert Waits(after, k) && !Newest(after, k);
    }
  }

  /** The newest task of another cell. */
  ghost predicate NewestElsewhere(tasks: seq<Task>, id: nat, k: nat) {
    id < |tasks| && Newest(tasks, k) && !SameCell(tasks[k], tasks[id])
  }

  /** A waiting task that shares the cell of another. */
  ghost predicate Rival(tasks: seq<Task>, id: nat, k: nat) {
    id < |tasks| && Waits(tasks, k) && k != id && SameCell(tasks[k], tasks[id])
  }

  lemma RerunCells(tasks: seq<Task>, id: nat)
    requires AtRest(tasks) && id < |tasks|
    ensures var after := RerunOne(tasks, id);
            && (forall k: nat :: Newest(after, k) <==> k == |tasks| || NewestElsewhere(tasks, id, k))
            && (forall k: nat | NewestElsewhere(tasks, id, k) :: k < |tasks| && after[k] == tasks[k])
            && (forall k: nat :: Outdated(after, k) <==> Rival(tasks, id, k))
            && (forall k: nat | Rival(tasks, id, k) :: after[k] == tasks[k] && tasks[k].row == tasks[id].row)
  {
    var after := RerunOne(tasks, id);
    forall k: nat
      ensures Newest(after, k) <==> k == |tasks| || NewestElsewhere(tasks, id, k)
      ensures Outdated(after, k) <==> Rival(tasks, id, k)
    {
      RerunNewest(tasks, id, k);
      assert k < |tasks| && Waits(tasks, k) ==> Newest(tasks, k);
    }
  }

  /**
    Rerunning a task of a resting pipeline makes the next run deceivable exactly when SkipOnFail is not
    set, another task of its cell still waits, no other cell is failed, and another cell waits in a
    later row.
   */
  lemma RerunDeceivesIff(tasks: seq<Task>, id: nat, skipOnFail: bool)
    requires AtRest(tasks) && id < |tasks|
    ensures Deceivable(RerunOne(tasks, id), skipOnFail) <==>
              && !skipOnFail && (exists t: nat :: Rival(tasks, id, t))
              && (forall k: nat | NewestElsewhere(tasks, id, k) :: !IsFailed(tasks[k].status))
              && exists u: nat :: NewestElsewhere(tasks, id, u) && IsPending(tasks[u]) && tasks[u].row > tasks[id].row
  {
    RerunCells(tasks, id);
    RerunFailures(tasks, id);
    var after := RerunOne(tasks, id);
    assert after[|tasks|].row == tasks[id].row;
    hide Newest;
    hide NewestElsewhere;
    hide Rival;
    hide RerunOne;
    hide AtRest;
    hide SomeNewest;
    if t: nat :| Rival(tasks, id, t) {
      assert Outdated(after, t);
      if u: nat :| NewestElsewhere(tasks, id, u) && IsPending(tasks[u]) && tasks[u].row > tasks[id].row {
        assert Due(after, u) && after[t].row < after[u].row;
      }
    }
    if t: nat, u: nat :| Outdated(after, t) && Due(after, u) && after[t].row < after[u].row {
      assert Rival(tasks, id, t) && NewestElsewhere(tasks, id, u);
    }
  }

  lemma RerunFailures(tasks: seq<Task>, id: nat)
    requires AtRest(tasks) && id < |tasks|
    ensures SomeNewest(RerunOne(tasks, id), IsFailed)
            <==> exists k: nat :: NewestElsewhere(tasks, id, k) && IsFailed(tasks[k].status)
  {
    RerunCells(tasks, id);
    var after := RerunOne(tasks, id);
    assert !IsFailed(after[|tasks|].status);
    hide Newest;
    hide NewestElsewhere;
    if k: nat :| NewestElsewhere(tasks, id, k) && IsFailed(tasks[k].status) {
      assert Newest(after, k) && IsFailed(after[k].status);
    }
  }

  /** A newest task is harmless to rerun, for it alone of its cell can be waiting. */
  lemma NewestIsHarmless(tasks: seq<Task>, id: nat)
    requires AtRest(tasks) && Newest(tasks, id)
    ensures Harmless(tasks, id)
  {
    forall k: nat | k < |tasks| && k != id && SameCell(tasks[k], tasks[id]) ensures !IsPending(tasks[k]) {
      assert Waits(tasks, k) ==> Newest(tasks, k);
    }
  }

  /** The newest tasks are the right ones to rerun together. */
  ghost predicate Rerunnable(tasks: seq<Task>, ids: seq<nat>) {
    Known(ids, tasks) && Distinct(ids) && forall i | 0 <= i < |ids| :: Newest(tasks, ids[i])
  }

  lemma RerunnableInit(tasks: seq<Task>, ids: seq<nat>)
    requires Rerunnable(tasks, ids) && |ids| > 0
    ensures var init, id := ids[..|ids| - 1], ids[|ids| - 1];
            Rerunnable(tasks, init) && ids == init + [id] && id !in init && Newest(tasks, id) && id < |tasks|
  {
    hide Newest;
  }

  lemma {:induction false} RerunAllIs(tasks: seq<Task>, ids: seq<nat>)
    requires Rerunnable(tasks, ids) && Settled(tasks)
    ensures var after := RerunAll(tasks, ids);
            && Settled(after) && (AtRest(tasks) ==> AtRest(after))
            && (forall k: nat | k < |tasks| && k !in ids :: after[k] == tasks[k] && (Newest(tasks, k) ==> Newest(after, k)))
            && (forall k: nat | k < |tasks| && k in ids :: SameCell(after[k], tasks[k]) && !Newest(after, k))
            && (forall k: nat | |tasks| <= k < |after| :: after[k].status == TaskRerun)
            && (forall k: nat | k < |tasks| && Newest(after, k) :: Newest(tasks, k))
    decreases |ids|
  {
    if |ids| > 0 {
      var init, id := ids[..|ids| - 1], ids[|ids| - 1];
      RerunnableInit(tasks, ids);
      RerunAllIs(tasks, init);
      hide Newest;
      hide RerunOne;
      hide AtRest;
      hide Settled;
      hide Distinct;
      RerunStep(tasks, RerunAll(tasks, init), id, init);
    }
  }

  lemma RerunStep(tasks: seq<Task>, mid: seq<Task>, id: nat, done: seq<nat>)
    requires Settled(mid) && id < |tasks| <= |mid| && Newest(tasks, id) && Newest(mid, id) && mid[id] == tasks[id]
    requires forall k: nat | k < |tasks| && k !in done :: mid[k] == tasks[k] && (Newest(tasks, k) ==> Newest(mid, k))
    requires forall k: nat | k < |tasks| && k in done :: SameCell(mid[k], tasks[k]) && !Newest(mid, k)
    requires forall k: nat | |tasks| <= k < |mid| :: mid[k].status == TaskRerun
    requires forall k: nat | k < |tasks| && Newest(mid, k) :: Newest(tasks, k)
    ensures var after := RerunOne(mid, id);
            && Settled(after) && (AtRest(mid) ==> AtRest(after))
            && (forall k: nat | k < |tasks| && k !in done && k != id :: after[k] == tasks[k] && (Newest(tasks, k) ==> Newest(after, k)))
            && (forall k: nat | k < |tasks| && (k in done || k == id) :: SameCell(after[k], tasks[k]) && !Newest(after, k))
            && (forall k: nat | |tasks| <= k < |after| :: after[k].status == TaskRerun)
            && (forall k: nat | k < |tasks| && Newest(after, k) :: Newest(tasks, k))
  {
    if AtRest(mid) {
      NewestIsHarmless(mid, id);
      RerunRestsIff(mid, id);
    }
    forall k: nat | k < |tasks|
      ensures Newest(RerunOne(mid, id), k) <==> Newest(mid, k) && !SameCell(mid[k], mid[id])
    {
      RerunNewest(mid, id, k);
    }
  }

  /** The newest tasks that are not completed. */
  ghost function Unfinished(tasks: seq<Task>, ids: seq<nat>): seq<nat>
    requires Known(ids, tasks)
  {
    if |ids| == 0 then []
    else
      Unfinished(tasks, ids[..|ids| - 1])
      + if tasks[ids[|ids| - 1]].status != TaskCompleted then [ids[|ids| - 1]] else []
  }

  lemma {:induction false} UnfinishedIs(tasks: seq<Task>, ids: seq<nat>)
    requires Known(ids, tasks)
    ensures forall id: nat :: id in Unfinished(tasks, ids) <==> id in ids && id < |tasks| && tasks[id].status != TaskCompleted
    ensures Distinct(ids) ==> Distinct(Unfinished(tasks, ids))
  {
    if |ids| > 0 {
      var init := ids[..|ids| - 1];
      assert ids == init + [ids[|ids| - 1]];
      UnfinishedIs(tasks, init);
      var u := Unfinished(tasks, init);
      assert forall i | 0 <= i < |u| :: u[i] in u;
      assert forall i | 0 <= i < |init| :: ids[i] == init[i];
    }
  }

  lemma {:induction false} LatestDistinct(tasks: seq<Task>, n: nat)
    requires n <= |tasks|
    ensures Distinct(LatestFrom(tasks, n)) && Known(LatestFrom(tasks, n), tasks)
    decreases |tasks| - n
  {
    if n < |tasks| {
      LatestDistinct(tasks, n + 1);
      LatestFromIs(tasks, n + 1);
      hide Distinct;
      hide Newest;
      var ids := LatestFrom(tasks, n + 1);
      if Newest(tasks, n) {
        DistinctAppend(ids, n);
      } else {
        assert ids + [] == ids;
      }
    }
  }

  /** The tasks that a rerun of the whole pipeline reruns. */
  ghost function ToRerun(tasks: seq<Task>): (ids: seq<nat>)
    ensures Rerunnable(tasks, ids)
    ensures forall id: nat :: id in ids <==> Newest(tasks, id) && tasks[id].status != TaskCompleted
  {
    LatestDistinct(tasks, 0);
    LatestFromIs(tasks, 0);
    UnfinishedIs(tasks, LatestFrom(tasks, 0));
    var ids := Unfinished(tasks, LatestFrom(tasks, 0));
    assert forall i | 0 <= i < |ids| :: ids[i] in ids;
    ids
  }

  /** After a rerun of the whole pipeline every cell is completed or has its newest task to run. */
  lemma RerunPipelineSettles(tasks: seq<Task>)
    requires Settled(tasks)
    ensures var after := RerunAll(tasks, ToRerun(tasks));
            && Settled(after) && (AtRest(tasks) ==> AtRest(after))
            && forall k: nat | Newest(after, k) :: after[k].status == TaskCompleted || after[k].status == TaskRerun
  {
    RerunAllIs(tasks, ToRerun(tasks));
  }
}
