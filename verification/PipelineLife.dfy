/** Whole lives of a pipeline: runs, reruns, cancellations and restarts. */
module PipelineLives {
  import opened Wrappers
  import opened PipelinePlans
  import opened TaskGrids
  import opened Pipelines
  import opened PipelineStatuses

  // ---------------------------------------------------------------------------------------------
  // The operations on a pipeline

  /** Rerun one task, or every newest task that is not completed. */
  method RerunPipeline(p: Pipeline, task: Option<nat>) returns (ok: bool)
    requires Settled(p.tasks)
    modifies p`tasks, p`status
    ensures ok <==> old(p.status) != TaskRunning && !IsWaiting(old(p.status))
                    && (if task.Some? then task.value < |old(p.tasks)| else ToRerun(old(p.tasks)) != [])
    ensures ok ==> p.status == TaskRerun
    ensures ok ==> p.tasks == if task.Some? then RerunOne(old(p.tasks), task.value) else RerunAll(old(p.tasks), ToRerun(old(p.tasks)))
    ensures ok ==> Superseded(old(p.tasks), p.tasks, if task.Some? then [task.value] else ToRerun(old(p.tasks)))
    ensures !ok ==> p.tasks == old(p.tasks) && p.status == old(p.status)
  {
    if p.status == TaskRunning || IsWaiting(p.status) {
      return false;
    }
    var failedTasks := [];
    if task.Some? {
      if task.value >= |p.tasks| {
        return false;
      }
      failedTasks := [task.value];
    } else {
      failedTasks := UnfinishedTasks(p.tasks);
    }
    if failedTasks == [] {
      return false;
    }
    CreateReruns(p, failedTasks);
    p.status := TaskRerun;
    ok := true;
  }

  /** The tasks named are failed, each has a successor with the same work in the same cell, and the others are as they were. */
  ghost predicate Superseded(before: seq<Task>, after: seq<Task>, ids: seq<nat>) {
    && Known(ids, before) && |after| == |before| + |ids|
    && (forall k: nat | k < |before| :: after[k] == if k in ids then before[k].(status := TaskFailed) else before[k])
    && forall n | 0 <= n < |ids| :: after[|before| + n] == before[ids[n]].(status := TaskRerun)
  }

  /** Mark each task failed and create its successor. */
  method CreateReruns(p: Pipeline, ids: seq<nat>)
    requires Known(ids, p.tasks)
    modifies p`tasks
    ensures p.tasks == RerunAll(old(p.tasks), ids)
    ensures |ids| == 1 ==> p.tasks == RerunOne(old(p.tasks), ids[0])
    ensures Superseded(old(p.tasks), p.tasks, ids)
  {
    ghost var tasks := p.tasks;
    hide Superseded;
    assert ids[..0] == [];
    for n := 0 to |ids|
      invariant p.tasks == RerunAll(tasks, ids[..n])
    {
      assert ids[..n + 1][..n] == ids[..n];
      var t := ids[n];
      p.tasks := p.tasks[t := p.tasks[t].(status := TaskFailed)] + [p.tasks[t].(status := TaskRerun)];
    }
    assert ids[..|ids|] == ids;
    RerunSucceeds(tasks, ids);
  }

  lemma RerunSucceeds(tasks: seq<Task>, ids: seq<nat>)
    requires Known(ids, tasks)
    ensures Superseded(tasks, RerunAll(tasks, ids), ids)
  {
    RerunAllMakes(tasks, ids);
  }

  method UnfinishedTasks(tasks: seq<Task>) returns (ids: seq<nat>)
    requires Settled(tasks)
    ensures ids == ToRerun(tasks) && Known(ids, tasks)
  {
    var latest := GetTasksWithLastStatus(tasks);
    LatestDistinct(tasks, 0);
    ids := [];
    for n := 0 to |latest|
      invariant Known(latest[..n], tasks) && ids == Unfinished(tasks, latest[..n])
    {
      assert latest[..n + 1][..n] == latest[..n];
      if tasks[latest[n]].status != TaskCompleted {
        ids := ids + [latest[n]];
      }
    }
    assert latest[..|latest|] == latest;
  }

  function CancelledAll(tasks: seq<Task>): seq<Task> {
    seq(|tasks|, id requires 0 <= id < |tasks| => tasks[id].(status := TaskCancelled))
  }

  /** Cancelling a waiting pipeline cancels all its tasks; a running one is only told through the results of its tasks. */
  method CancelPipeline(p: Pipeline)
    modifies p`tasks, p`status
    ensures p.tasks == if IsWaiting(old(p.status)) then CancelledAll(old(p.tasks)) else old(p.tasks)
    ensures p.status == if IsWaiting(old(p.status)) then TaskCancelled else old(p.status)
    ensures |p.tasks| == |old(p.tasks)|
    ensures old(p.status) == TaskCreated || old(p.status) == TaskRerun ==>
              p.status == TaskCancelled
              && forall id: nat | id < |p.tasks| :: p.tasks[id] == old(p.tasks)[id].(status := TaskCancelled)
  {
    if IsWaiting(p.status) {
      p.status := TaskCancelled;
      p.tasks := CancelledAll(p.tasks);
    }
  }

  /**
    What the service does to running pipelines and tasks when it starts. What was interrupted is failed,
    so a rerun of the pipeline takes it up again.
   */
  method Restart(p: Pipeline)
    modifies p`tasks, p`status
    ensures p.tasks == Restarted(old(p.tasks))
    ensures p.status == if old(p.status) == TaskRunning then TaskFailed else old(p.status)
    ensures |p.tasks| == |old(p.tasks)|
    ensures forall id: nat | id < |p.tasks| ::
              p.tasks[id] == if old(p.tasks)[id].status == TaskRunning then old(p.tasks)[id].(status := TaskFailed) else old(p.tasks)[id]
    ensures forall id: nat | Newest(old(p.tasks), id) && old(p.tasks)[id].status == TaskRunning :: id in ToRerun(p.tasks)
  {
    if p.status == TaskRunning {
      p.status := TaskFailed;
    }
    CellsKeepNewest(p.tasks, Restarted(p.tasks));
    p.tasks := Restarted(p.tasks);
  }

  /** Run a pipeline that was marked running, and write its status; the process may die on the way. */
  method RunPipelineOnce(p: Pipeline, results: Results, budget: nat) returns (alive: bool)
    requires Settled(p.tasks) && p.status == TaskRunning
    modifies p`tasks, p`status, p`trace
    ensures PartlyRan(old(p.tasks), p.tasks, results)
    ensures alive ==> RunEnded(old(p.tasks), p.tasks, p.status, results, p.skipOnFail)
    ensures !alive ==> p.status == TaskRunning && |p.trace| == |old(p.trace)| + budget
  {
    hide StagesDone;
    hide ErrorFits;
    hide Clean;
    hide StatusOf;
    var err;
    ghost var reached;
    err, alive, reached := p.RunPipeline(results, budget);
    if alive {
      StatusIsComputed(old(p.tasks), p.tasks, reached, results, p.skipOnFail, err);
      assert RanTo(old(p.tasks), p.tasks, reached, results, p.skipOnFail, err);
      var status := ComputePipelineStatus(p.tasks, p.skipOnFail, err == CanceledError);
      if status.Some? {
        p.status := status.value;
      }
      assert StatusOf(p.tasks, p.skipOnFail, err == CanceledError) == Some(p.status);
    }
  }

  // ---------------------------------------------------------------------------------------------
  // Whole lives

  /**
    What can happen to a pipeline. Selecting it and running it are separate steps: it may be cancelled
    or rerun in between.
   */
  datatype Action = Select | RunSelected(results: Results, budget: nat) | Cancel | RerunUnfinished | RerunTask(id: nat) | Die

  /** The tasks are settled, and the written status is what they say. */
  ghost predicate Faithful(tasks: seq<Task>, skipOnFail: bool, status: Status) {
    Settled(tasks) && status != TaskRunning && (status == TaskCompleted || status == TaskPartial ==> Sound(tasks, skipOnFail, status))
  }

  /** A pipeline between two actions; `selected` is set while the dispatcher has selected it. */
  datatype Snapshot = Snapshot(tasks: seq<Task>, status: Status, selected: bool)

  /** A run that ended: the tasks ran up to some row, and the status was computed from them. */
  ghost predicate RunEnded(before: seq<Task>, after: seq<Task>, status: Status, results: Results, skipOnFail: bool) {
    exists reached, err ::
      RanTo(before, after, reached, results, skipOnFail, err)
      && StatusOf(after, skipOnFail, err == CanceledError) == Some(status)
  }

  /** A run that died somewhere, and the restart after it. */
  ghost predicate RunDied(before: seq<Task>, after: seq<Task>, status: Status, results: Results) {
    status == TaskFailed && exists partial :: PartlyRan(before, partial, results) && after == Restarted(partial)
  }

  predicate Refused(status: Status) {
    status == TaskRunning || IsWaiting(status)
  }

  /** What an action makes of a pipeline. */
  ghost predicate Acted(s: Snapshot, a: Action, t: Snapshot, skipOnFail: bool) {
    match a
    case Select => t == s.(selected := s.selected || IsWaiting(s.status))
    case RunSelected(results, _) =>
      if !s.selected then t == s
      else !t.selected && (RunEnded(s.tasks, t.tasks, t.status, results, skipOnFail) || RunDied(s.tasks, t.tasks, t.status, results))
    case Cancel =>
      t == if IsWaiting(s.status) then s.(tasks := CancelledAll(s.tasks), status := TaskCancelled) else s
    case RerunUnfinished =>
      t == if Refused(s.status) || ToRerun(s.tasks) == [] then s
           else s.(tasks := RerunAll(s.tasks, ToRerun(s.tasks)), status := TaskRerun)
    case RerunTask(id) =>
      t == if Refused(s.status) || id >= |s.tasks| then s
           else s.(tasks := RerunOne(s.tasks, id), status := TaskRerun)
    case Die =>
      t == Snapshot(Restarted(s.tasks), if s.status == TaskRunning then TaskFailed else s.status, false)
  }

  /** Every action but a run from a deceivable state keeps the written status true. */
  lemma ActionIsFaithful(s: Snapshot, a: Action, t: Snapshot, skipOnFail: bool)
    requires Faithful(s.tasks, skipOnFail, s.status) && Acted(s, a, t, skipOnFail)
    requires a.RunSelected? && s.selected ==> !Deceivable(s.tasks, skipOnFail)
    ensures Faithful(t.tasks, skipOnFail, t.status)
  {
    hide Sound;
    hide Deceivable;
    match a {
      case Select =>
      case RunSelected(results, _) =>
        if s.selected {
          RunIsFaithful(s.tasks, t.tasks, t.status, results, skipOnFail);
        }
      case Cancel =>
      case RerunUnfinished => RerunPipelineSettles(s.tasks);
      case RerunTask(id) =>
      case Die => RestartedSettled(s.tasks);
    }
  }

  lemma RunIsFaithful(before: seq<Task>, after: seq<Task>, status: Status, results: Results, skipOnFail: bool)
    requires Settled(before) && !Deceivable(before, skipOnFail)
    requires RunEnded(before, after, status, results, skipOnFail) || RunDied(before, after, status, results)
    ensures Faithful(after, skipOnFail, status)
  {
    hide StatusOf;
    hide Settled;
    hide Deceivable;
    hide RanTo;
    hide PartlyRan;
    if RunEnded(before, after, status, results, skipOnFail) {
      var reached, err :| RanTo(before, after, reached, results, skipOnFail, err)
                          && StatusOf(after, skipOnFail, err == CanceledError) == Some(status);
      RunSettles(before, after, reached, results, skipOnFail, err);
      StatusIsSound(before, after, reached, results, skipOnFail, err);
    } else {
      var partial :| PartlyRan(before, partial, results) && after == Restarted(partial);
      RestartSettles(before, partial, results);
    }
  }

  /**
    After a run that died and the restart, only tasks that have succeeded are completed; every other
    newest task is taken up by a rerun of the pipeline.
   */
  lemma NothingLostByDying(before: seq<Task>, after: seq<Task>, status: Status, results: Results, id: nat)
    requires Settled(before) && RunDied(before, after, status, results) && Newest(before, id)
    ensures |after| == |before| && id < |after|
    ensures after[id].status == TaskCompleted ==>
              before[id].status == TaskCompleted
              || ((before[id].status == TaskCreated || before[id].status == TaskRerun) && results(id) == Succeeds)
    ensures after[id].status == TaskCompleted || id in ToRerun(after)
  {
    var partial :| PartlyRan(before, partial, results) && after == Restarted(partial);
    DiedIs(before, partial, results, id);
    forall k: nat | k < |before| ensures SameCell(after[k], before[k]) {
      DiedIs(before, partial, results, k);
    }
    CellsKeepNewest(before, after);
  }

  /** From a deceivable state some run ends with a status that is not true, so the guard cannot be spared. */
  lemma RunDeceives(tasks: seq<Task>, skipOnFail: bool) returns (after: seq<Task>, status: Status, results: Results)
    requires Settled(tasks) && Deceivable(tasks, skipOnFail)
    ensures RunEnded(tasks, after, status, results, skipOnFail) && !Faithful(after, skipOnFail, status)
    ensures status == TaskCompleted && SomeNewest(after, IsUnfinished)
  {
    DeceivedIff(tasks, skipOnFail);
    results :| Deceived(tasks, results, skipOnFail);
    var reached, err;
    after, reached, err :|
      RanTo(tasks, after, reached, results, skipOnFail, err)
      && !SoundOption(after, skipOnFail, StatusOf(after, skipOnFail, err == CanceledError));
    StatusIsComputed(tasks, after, reached, results, skipOnFail, err);
    UnsoundIsUnfinished(after, skipOnFail, err == CanceledError);
    hide StatusOf;
    hide Sound;
    hide RanTo;
    hide Deceivable;
    hide Settled;
    status := StatusOf(after, skipOnFail, err == CanceledError).value;
  }

  /** A life: snapshots linked by actions. */
  ghost predicate Life(states: seq<Snapshot>, actions: seq<Action>, skipOnFail: bool) {
    && |states| == |actions| + 1
    && forall i | 0 <= i < |actions| :: Acted(states[i], actions[i], states[i + 1], skipOnFail)
  }

  /** No run starts from a deceivable state. */
  ghost predicate NoRunDeceivable(states: seq<Snapshot>, actions: seq<Action>, skipOnFail: bool) {
    && |states| == |actions| + 1
    && forall i | 0 <= i < |actions| && actions[i].RunSelected? && states[i].selected :: !Deceivable(states[i].tasks, skipOnFail)
  }

  /**
    In every life in which no run starts deceivable, COMPLETED and PARTIAL are true of the newest tasks
    at any time. In a life every cancellation and rerun is one action, so none of them has read the
    pipeline before it is marked and writes after that; `Dispatcher.UserUndisturbed` says that nothing
    else comes between reading and writing.
   */
  lemma {:induction false} LifeIsFaithful(states: seq<Snapshot>, actions: seq<Action>, skipOnFail: bool, i: nat)
    requires Life(states, actions, skipOnFail) && NoRunDeceivable(states, actions, skipOnFail) && i < |states|
    requires Faithful(states[0].tasks, skipOnFail, states[0].status)
    ensures Faithful(states[i].tasks, skipOnFail, states[i].status)
  {
    if i > 0 {
      LifeIsFaithful(states, actions, skipOnFail, i - 1);
      hide Acted;
      hide Faithful;
      hide Deceivable;
      ActionIsFaithful(states[i - 1], actions[i - 1], states[i], skipOnFail);
    }
  }

  /**
    A cancellation that straddles the mark may update the tasks when the run has already written its
    status. That makes the status false exactly when it was COMPLETED or PARTIAL and there are tasks.
   */
  lemma LateCancelFoolsIff(tasks: seq<Task>, skipOnFail: bool, status: Status)
    requires Faithful(tasks, skipOnFail, status)
    ensures !Faithful(CancelledAll(tasks), skipOnFail, status)
            <==> tasks != [] && (status == TaskCompleted || status == TaskPartial)
  {
    if tasks != [] {
      assert Newest(CancelledAll(tasks), |tasks| - 1);
    }
  }

  /** With SkipOnFail no life has to be excluded. */
  lemma SkippingIsFaithful(states: seq<Snapshot>, actions: seq<Action>, i: nat)
    requires Life(states, actions, true) && i < |states| && Faithful(states[0].tasks, true, states[0].status)
    ensures Faithful(states[i].tasks, true, states[i].status)
  {
    LifeIsFaithful(states, actions, true, i);
  }

  /** Nor for a pipeline of a single row. */
  lemma OneRowIsFaithful(states: seq<Snapshot>, actions: seq<Action>, skipOnFail: bool, i: nat)
    requires Life(states, actions, skipOnFail) && i < |states| && Faithful(states[0].tasks, skipOnFail, states[0].status)
    requires forall k: nat, id: nat | k < |states| && id < |states[k].tasks| :: states[k].tasks[id].row == 1
    ensures Faithful(states[i].tasks, skipOnFail, states[i].status)
  {
    forall k | 0 <= k < |actions| ensures !Deceivable(states[k].tasks, skipOnFail) {
    }
    LifeIsFaithful(states, actions, skipOnFail, i);
  }

  ghost predicate OnlyHarmlessReruns(states: seq<Snapshot>, actions: seq<Action>) {
    && |states| == |actions| + 1
    && forall i | 0 <= i < |actions| && actions[i].RerunTask? ::
         Refused(states[i].status) || actions[i].id >= |states[i].tasks| || Harmless(states[i].tasks, actions[i].id)
  }

  /** A resting state is not deceivable. */
  lemma RestIsSafe(tasks: seq<Task>, skipOnFail: bool)
    requires AtRest(tasks)
    ensures !Deceivable(tasks, skipOnFail)
  {
  }

  lemma ActionRests(s: Snapshot, a: Action, t: Snapshot, skipOnFail: bool)
    requires AtRest(s.tasks) && Acted(s, a, t, skipOnFail)
    requires a.RerunTask? ==> Refused(s.status) || a.id >= |s.tasks| || Harmless(s.tasks, a.id)
    ensures AtRest(t.tasks)
  {
    match a {
      case Select =>
      case RunSelected(results, _) =>
        if s.selected {
          RunRests(s.tasks, t.tasks, t.status, results, skipOnFail);
        }
      case Cancel => CancelRests(s.tasks);
      case RerunUnfinished => RerunPipelineSettles(s.tasks);
      case RerunTask(id) =>
        if id < |s.tasks| {
          RerunRestsIff(s.tasks, id);
        }
      case Die => RestartedSettled(s.tasks);
    }
  }

  lemma RunRests(before: seq<Task>, after: seq<Task>, status: Status, results: Results, skipOnFail: bool)
    requires AtRest(before)
    requires RunEnded(before, after, status, results, skipOnFail) || RunDied(before, after, status, results)
    ensures AtRest(after)
  {
    hide StatusOf;
    hide RanTo;
    hide PartlyRan;
    if RunEnded(before, after, status, results, skipOnFail) {
      var reached, err :| RanTo(before, after, reached, results, skipOnFail, err)
                          && StatusOf(after, skipOnFail, err == CanceledError) == Some(status);
      RunSettles(before, after, reached, results, skipOnFail, err);
    } else {
      var partial :| PartlyRan(before, partial, results) && after == Restarted(partial);
      RestartSettles(before, partial, results);
    }
  }

  /** A life that starts at rest stays at rest, and so is never deceivable, while only harmless tasks are rerun. */
  lemma {:induction false} HarmlessLifeRests(states: seq<Snapshot>, actions: seq<Action>, skipOnFail: bool, i: nat)
    requires Life(states, actions, skipOnFail) && OnlyHarmlessReruns(states, actions) && i < |states|
    requires AtRest(states[0].tasks)
    ensures AtRest(states[i].tasks) && !Deceivable(states[i].tasks, skipOnFail)
  {
    if i > 0 {
      HarmlessLifeRests(states, actions, skipOnFail, i - 1);
      hide Acted;
      ActionRests(states[i - 1], actions[i - 1], states[i], skipOnFail);
    }
    RestIsSafe(states[i].tasks, skipOnFail);
  }

  /** One action carried out. */
  method Act(p: Pipeline, action: Action, selected: bool) returns (selected': bool)
    requires Settled(p.tasks)
    modifies p`tasks, p`status, p`trace
    ensures Acted(Snapshot(old(p.tasks), old(p.status), selected), action, Snapshot(p.tasks, p.status, selected'), p.skipOnFail)
  {
    hide RanTo;
    hide StatusOf;
    hide PartlyRan;
    selected' := selected;
    match action {
      case Select =>
        selected' := selected || IsWaiting(p.status);
      case RunSelected(results, budget) =>
        if selected {
          p.status := TaskRunning;
          ghost var before := p.tasks;
          var alive := RunPipelineOnce(p, results, budget);
          if !alive {
            ghost var partial := p.tasks;
            Restart(p);
            assert RunDied(before, p.tasks, p.status, results) by {
              assert PartlyRan(before, partial, results) && p.tasks == Restarted(partial);
            }
          }
          selected' := false;
        }
      case Cancel =>
        CancelPipeline(p);
      case RerunUnfinished =>
        var _ := RerunPipeline(p, None);
      case RerunTask(id) =>
        var _ := RerunPipeline(p, Some(id));
      case Die =>
        Restart(p);
        selected' := false;
    }
  }

  lemma CancelRests(tasks: seq<Task>)
    requires AtRest(tasks)
    ensures AtRest(CancelledAll(tasks))
  {
  }

  /** A pipeline starts its life in order. */
  lemma FreshIsFaithful(plan: Plan, skipOnFail: bool)
    ensures Faithful(Flatten(plan), skipOnFail, TaskCreated) && AtRest(Flatten(plan))
  {
    FlattenSorted(plan);
    var tasks := Flatten(plan);
    forall id: nat | id < |tasks| ensures Newest(tasks, id) {
      assert forall k: nat | id < k < |tasks| :: !SameCell(tasks[k], tasks[id]);
    }
  }

  /**
    Rerunning an older task of a cell that has a task waiting breaks the status: A fails in the first
    run of [[A], [C]], is rerun, the process dies at the start of the second run, and A is rerun once
    more through its first task. In the next run the second A fails and the third succeeds; C never
    runs, yet the pipeline counts as completed.
   */
  lemma OldRerunFoolsStatus(a: PipelineTask, c: PipelineTask, fails: Results, mixed: Results)
    requires fails(0) == Fails && mixed(2) == Fails && mixed(3) == Succeeds
    ensures var t0 := Flatten([[a], [c]]);
            |t0| == 2
            && var t1 := t0[0 := t0[0].(status := TaskFailed)];
               var t2 := RerunOne(t1, 0);
               var t3 := RerunOne(t2, 0);
               var t4 := t3[2 := t3[2].(status := TaskFailed)][3 := t3[3].(status := TaskCompleted)];
               && RanTo(t0, t1, 1, fails, false, TaskError) && AtRest(t2) && !Harmless(t2, 0)
               && RanTo(t3, t4, 1, mixed, false, TaskError)
               && Deceivable(t3, false) && StatusOf(t4, false, false) == Some(TaskCompleted) && Newest(t4, 1) && IsPending(t4[1])
  {
    FlattenTwo(a, c);
    FirstRerun(a, c, fails);
    var first, other := Task(a, 1, 1, TaskCreated), Task(c, 2, 1, TaskCreated);
    var failed, again := first.(status := TaskFailed), first.(status := TaskRerun);
    FooledRun([failed, other, again, again], mixed);
    hide Flatten;
    hide RerunOne;
    hide RanTo;
    hide AtRest;
    hide Harmless;
    hide Deceivable;
    hide StatusOf;
    hide Newest;
    assert [first, other][0 := failed] == [failed, other];
  }

  lemma FirstRerun(a: PipelineTask, c: PipelineTask, fails: Results)
    requires fails(0) == Fails
    ensures var first, other := Task(a, 1, 1, TaskCreated), Task(c, 2, 1, TaskCreated);
            var failed, again := first.(status := TaskFailed), first.(status := TaskRerun);
            && RanTo([first, other], [failed, other], 1, fails, false, TaskError)
            && RerunOne([failed, other], 0) == [failed, other, again]
            && AtRest([failed, other, again]) && !Harmless([failed, other, again], 0)
            && RerunOne([failed, other, again], 0) == [failed, other, again, again]
  {
    var first, other := Task(a, 1, 1, TaskCreated), Task(c, 2, 1, TaskCreated);
    var t2 := [first.(status := TaskFailed), other, first.(status := TaskRerun)];
    assert SameCell(t2[2], t2[0]) && IsPending(t2[2]);
  }

  lemma FooledRun(t3: seq<Task>, mixed: Results)
    requires mixed(2) == Fails && mixed(3) == Succeeds && |t3| == 4
    requires SameCell(t3[3], t3[0]) && SameCell(t3[3], t3[2]) && !SameCell(t3[3], t3[1])
    requires t3[0].row == 1 && t3[1].row == 2 && t3[0].status == TaskFailed
    requires IsPending(t3[1]) && IsPending(t3[2]) && IsPending(t3[3])
    ensures var t4 := t3[2 := t3[2].(status := TaskFailed)][3 := t3[3].(status := TaskCompleted)];
            && RanTo(t3, t4, 1, mixed, false, TaskError)
            && Deceivable(t3, false) && StatusOf(t4, false, false) == Some(TaskCompleted) && Newest(t4, 1) && IsPending(t4[1])
  {
    FooledTasks(t3, mixed);
    NewestOfFour(t3);
    hide RanTo;
    var t4 := t3[2 := t3[2].(status := TaskFailed)][3 := t3[3].(status := TaskCompleted)];
    CellsKeepNewest(t3, t4);
    hide Newest;
    assert Outdated(t3, 2) && Due(t3, 1);
  }

  lemma FooledTasks(t3: seq<Task>, mixed: Results)
    requires mixed(2) == Fails && mixed(3) == Succeeds && |t3| == 4
    requires t3[0].row == t3[2].row == t3[3].row == 1 && t3[1].row == 2 && t3[0].status == TaskFailed
    requires IsPending(t3[1]) && IsPending(t3[2]) && IsPending(t3[3])
    ensures var t4 := t3[2 := t3[2].(status := TaskFailed)][3 := t3[3].(status := TaskCompleted)];
            RanTo(t3, t4, 1, mixed, false, TaskError)
  {
    assert mixed(2) != Succeeds;
  }

  lemma NewestOfFour(t: seq<Task>)
    requires |t| == 4 && SameCell(t[3], t[0]) && SameCell(t[3], t[2]) && !SameCell(t[3], t[1])
    ensures forall id: nat :: Newest(t, id) <==> id == 1 || id == 3
  {
  }

  lemma FlattenTwo(a: PipelineTask, c: PipelineTask)
    ensures Flatten([[a], [c]]) == [Task(a, 1, 1, TaskCreated), Task(c, 2, 1, TaskCreated)]
  {
    assert [[a], [c]][..1] == [[a]] && [[a]][..0] == [];
    assert Flatten([[a]]) == Flatten([]) + RowTasks([a], 1);
  }
}
