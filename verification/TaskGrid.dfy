/** Task rows made from a plan, and the grid of task ids rebuilt from them. */
module TaskGrids {
  import opened Sequences
  import opened Sorting
  import opened PipelinePlans

  datatype Status =
    TaskCreated | TaskRerun | TaskRunning | TaskCompleted | TaskFailed | TaskCancelled | TaskPartial

  datatype Task = Task(work: PipelineTask, row: nat, col: nat, status: Status)

  predicate IsWaiting(status: Status) {
    status == TaskCreated || status == TaskRerun
  }

  predicate IsPending(task: Task) {
    IsWaiting(task.status)
  }

  // ---------------------------------------------------------------------------------------------
  // From the plan to task rows

  /** The tasks of one stage, numbered from 1. */
  function RowTasks(stage: Stage, row: nat): (tasks: seq<Task>)
    ensures |tasks| == |stage|
  {
    seq(|stage|, j requires 0 <= j < |stage| => Task(stage[j], row, j + 1, TaskCreated))
  }

  function Flatten(plan: Plan): seq<Task> {
    if |plan| == 0 then [] else Flatten(plan[..|plan| - 1]) + RowTasks(plan[|plan| - 1], |plan|)
  }

  /** The id of task `j` of stage `i`: the number of tasks created before it. */
  function IdOf(plan: Plan, i: nat, j: nat): nat
    requires i < |plan|
  {
    |Flatten(plan[..i])| + j
  }

  lemma {:induction false} FlattenPrefix(plan: Plan, i: nat)
    requires i <= |plan|
    ensures Flatten(plan[..i]) <= Flatten(plan)
    decreases |plan|
  {
    if i < |plan| {
      var init := plan[..|plan| - 1];
      assert init[..i] == plan[..i];
      FlattenPrefix(init, i);
    } else {
      assert plan[..i] == plan;
    }
  }

  /** Each task of the plan has its row and column in the database. */
  lemma FlattenAt(plan: Plan, i: nat, j: nat)
    requires i < |plan| && j < |plan[i]|
    ensures IdOf(plan, i, j) < |Flatten(plan)|
    ensures Flatten(plan)[IdOf(plan, i, j)] == Task(plan[i][j], i + 1, j + 1, TaskCreated)
  {
    FlattenPrefix(plan, i + 1);
    assert plan[..i + 1][..i] == plan[..i];
    assert Flatten(plan[..i + 1]) == Flatten(plan[..i]) + RowTasks(plan[i], i + 1);
  }

  /** Ids ascend with (row, col), and rows and columns count from 1. */
  lemma {:induction false} FlattenSorted(plan: Plan)
    ensures forall a | 0 <= a < |Flatten(plan)| ::
              1 <= Flatten(plan)[a].row <= |plan| && Flatten(plan)[a].col >= 1 && Flatten(plan)[a].status == TaskCreated
    ensures forall a, b | 0 <= a < b < |Flatten(plan)| ::
              var s, t := Flatten(plan)[a], Flatten(plan)[b];
              s.row < t.row || (s.row == t.row && s.col < t.col)
  {
    if |plan| > 0 {
      FlattenSorted(plan[..|plan| - 1]);
    }
  }

  /** What the tasks are to do. */
  function WorkOf(tasks: seq<Task>): (works: seq<PipelineTask>)
    ensures |works| == |tasks| && forall k | 0 <= k < |tasks| :: works[k] == tasks[k].work
  {
    seq(|tasks|, k requires 0 <= k < |tasks| => tasks[k].work)
  }

  /** One task row for each task of the plan, in order. */
  lemma {:induction false} FlattenWorks(plan: Plan)
    ensures WorkOf(Flatten(plan)) == Tasks(plan)
  {
    if |plan| > 0 {
      FlattenWorks(plan[..|plan| - 1]);
      assert WorkOf(RowTasks(plan[|plan| - 1], |plan|)) == plan[|plan| - 1];
    }
  }

  // ---------------------------------------------------------------------------------------------
  // From task rows back to the grid

  function RowCol(tasks: seq<Task>): nat -> Key {
    (id: nat) => if id < |tasks| then (tasks[id].row, tasks[id].col) else (0, 0)
  }

  /** The ids are those of existing tasks. */
  ghost predicate Known(ids: seq<nat>, tasks: seq<Task>) {
    forall i | 0 <= i < |ids| :: ids[i] < |tasks|
  }

  /** The ids of one row, in the order given. */
  function OfRow(order: seq<nat>, tasks: seq<Task>, row: nat): seq<nat>
    requires Known(order, tasks)
  {
    if |order| == 0 then []
    else
      OfRow(order[..|order| - 1], tasks, row)
      + if tasks[order[|order| - 1]].row == row then [order[|order| - 1]] else []
  }

  function MaxRow(order: seq<nat>, tasks: seq<Task>): nat
    requires Known(order, tasks)
  {
    if |order| == 0 then 0
    else
      Max(MaxRow(order[..|order| - 1], tasks), tasks[order[|order| - 1]].row)
  }

  function GridOf(order: seq<nat>, tasks: seq<Task>): (grid: seq<seq<nat>>)
    requires Known(order, tasks)
    ensures |grid| == MaxRow(order, tasks)
  {
    seq(MaxRow(order, tasks), r requires 0 <= r < MaxRow(order, tasks) => OfRow(order, tasks, r + 1))
  }

  function PendingIds(tasks: seq<Task>, n: nat): seq<nat>
    requires n <= |tasks|
  {
    if n == 0 then [] else PendingIds(tasks, n - 1) + if IsPending(tasks[n - 1]) then [n - 1] else []
  }

  lemma {:induction false} PendingIdsAre(tasks: seq<Task>, n: nat)
    requires n <= |tasks|
    ensures forall id: nat :: id in PendingIds(tasks, n) <==> id < n && IsPending(tasks[id])
    ensures forall i, j | 0 <= i < j < |PendingIds(tasks, n)| :: PendingIds(tasks, n)[i] < PendingIds(tasks, n)[j]
  {
    if n > 0 {
      PendingIdsAre(tasks, n - 1);
      var ids := PendingIds(tasks, n - 1);
      assert forall i | 0 <= i < |ids| :: ids[i] in ids;
    }
  }

  lemma {:induction false} OfRowIs(order: seq<nat>, tasks: seq<Task>, row: nat)
    requires Known(order, tasks)
    ensures forall id: nat :: id in OfRow(order, tasks, row) <==> id in order && id < |tasks| && tasks[id].row == row
    ensures row > MaxRow(order, tasks) ==> OfRow(order, tasks, row) == []
  {
    if |order| > 0 {
      var init, last := order[..|order| - 1], order[|order| - 1];
      assert order == init + [last];
      OfRowIs(init, tasks, row);
    }
  }

  lemma {:induction false} OfRowDistinct(order: seq<nat>, tasks: seq<Task>, row: nat)
    requires Known(order, tasks) && Distinct(order)
    ensures Distinct(OfRow(order, tasks, row))
  {
    if |order| > 0 {
      var init, last := order[..|order| - 1], order[|order| - 1];
      OfRowDistinct(init, tasks, row);
      OfRowIs(init, tasks, row);
      var ids := OfRow(init, tasks, row);
      assert forall i | 0 <= i < |ids| :: ids[i] in ids;
    }
  }

  /** Empty rows at the end until there are `row` of them. */
  method Grow(grid: seq<seq<nat>>, row: nat) returns (out: seq<seq<nat>>)
    ensures out == Grown(grid, row)
  {
    out := grid;
    while |out| < row
      invariant |grid| <= |out| <= Max(|grid|, row) && forall r | 0 <= r < |out| :: out[r] == if r < |grid| then grid[r] else []
    {
      out := out + [[]];
    }
  }

  function Grown(grid: seq<seq<nat>>, row: nat): (out: seq<seq<nat>>)
    ensures |out| == Max(|grid|, row)
  {
    seq(Max(|grid|, row), r requires 0 <= r < Max(|grid|, row) => if r < |grid| then grid[r] else [])
  }

  lemma OfRowStep(order: seq<nat>, id: nat, tasks: seq<Task>, row: nat)
    requires Known(order, tasks) && id < |tasks|
    ensures Known(order + [id], tasks)
    ensures OfRow(order + [id], tasks, row) == OfRow(order, tasks, row) + if tasks[id].row == row then [id] else []
    ensures MaxRow(order + [id], tasks) == Max(MaxRow(order, tasks), tasks[id].row)
  {
    assert (order + [id])[..|order|] == order;
  }

  lemma GridStep(order: seq<nat>, id: nat, tasks: seq<Task>)
    requires Known(order, tasks) && id < |tasks| && tasks[id].row >= 1
    ensures Known(order + [id], tasks)
    ensures var row := tasks[id].row;
            var grown := Grown(GridOf(order, tasks), row);
            GridOf(order + [id], tasks) == grown[row - 1 := grown[row - 1] + [id]]
  {
    hide OfRow;
    hide MaxRow;
    var row := tasks[id].row;
    OfRowStep(order, id, tasks, row);
    var grown := Grown(GridOf(order, tasks), row);
    var out := grown[row - 1 := grown[row - 1] + [id]];
    forall r | 0 <= r < |out| ensures OfRow(order + [id], tasks, r + 1) == out[r] {
      OfRowStep(order, id, tasks, r + 1);
      OfRowIs(order, tasks, r + 1);
    }
  }

  /** Group the sorted ids by row. */
  method Regroup(order: seq<nat>, tasks: seq<Task>) returns (grid: seq<seq<nat>>)
    requires Known(order, tasks) && forall i | 0 <= i < |order| :: tasks[order[i]].row >= 1
    ensures grid == GridOf(order, tasks)
  {
    grid := [];
    for n := 0 to |order|
      invariant Known(order[..n], tasks) && grid == GridOf(order[..n], tasks)
    {
      var row := tasks[order[n]].row;
      GridStep(order[..n], order[n], tasks);
      assert order[..n + 1] == order[..n] + [order[n]];
      grid := Grow(grid, row);
      grid := grid[row - 1 := grid[row - 1] + [order[n]]];
    }
    assert order[..|order|] == order;
  }

  // ---------------------------------------------------------------------------------------------
  // The round trip through the database

  /** A plan without the empty stages at its end. */
  function Trim(plan: Plan): Plan {
    if |plan| > 0 && plan[|plan| - 1] == [] then Trim(plan[..|plan| - 1]) else plan
  }

  function Works(ids: seq<nat>, tasks: seq<Task>): (works: Stage)
    requires Known(ids, tasks)
    ensures |works| == |ids|
  {
    seq(|ids|, i requires 0 <= i < |ids| => tasks[ids[i]].work)
  }

  function Ids(n: nat): (ids: seq<nat>)
    ensures |ids| == n && forall i | 0 <= i < n :: ids[i] == i
  {
    seq(n, i => i)
  }

  lemma FreshPending(plan: Plan)
    ensures PendingIds(Flatten(plan), |Flatten(plan)|) == Ids(|Flatten(plan)|)
  {
    FlattenSorted(plan);
    AllPending(Flatten(plan), |Flatten(plan)|);
  }

  lemma {:induction false} AllPending(tasks: seq<Task>, n: nat)
    requires n <= |tasks| && forall t | t in tasks :: IsPending(t)
    ensures PendingIds(tasks, n) == Ids(n)
  {
    if n > 0 {
      AllPending(tasks, n - 1);
    }
  }

  /** There is only one way to sort the ids of a fresh pipeline by row and column. */
  lemma FreshOrder(plan: Plan, order: seq<nat>)
    requires multiset(order) == multiset(PendingIds(Flatten(plan), |Flatten(plan)|))
    requires Sorted(order, RowCol(Flatten(plan)))
    ensures order == Ids(|Flatten(plan)|)
  {
    FreshPending(plan);
    FlattenSorted(plan);
    assert StrictlySorted(Ids(|Flatten(plan)|), RowCol(Flatten(plan)));
    SortedIsUnique(order, Ids(|Flatten(plan)|), RowCol(Flatten(plan)));
  }

  lemma {:induction false} OfRowAppend(a: seq<nat>, b: seq<nat>, tasks: seq<Task>, row: nat)
    requires Known(a + b, tasks)
    ensures Known(a, tasks) && Known(b, tasks)
    ensures OfRow(a + b, tasks, row) == OfRow(a, tasks, row) + OfRow(b, tasks, row)
    ensures MaxRow(a + b, tasks) == Max(MaxRow(a, tasks), MaxRow(b, tasks))
  {
    KnownParts(a, b, tasks);
    if |b| == 0 {
      assert a + b == a;
    } else {
      var init, last := b[..|b| - 1], b[|b| - 1];
      InitOfSum(a, b);
      OfRowAppend(a, init, tasks, row);
      var more := if tasks[last].row == row then [last] else [];
      assert OfRow(a, tasks, row) + (OfRow(init, tasks, row) + more) == OfRow(a, tasks, row) + OfRow(init, tasks, row) + more;
    }
  }

  lemma KnownParts(a: seq<nat>, b: seq<nat>, tasks: seq<Task>)
    requires Known(a + b, tasks)
    ensures Known(a, tasks) && Known(b, tasks)
  {
    assert forall i | 0 <= i < |a| :: (a + b)[i] == a[i];
    assert forall i | 0 <= i < |b| :: (a + b)[|a| + i] == b[i];
  }

  lemma InitOfSum(a: seq<nat>, b: seq<nat>)
    requires |b| > 0
    ensures (a + b)[..|a + b| - 1] == a + b[..|b| - 1] && (a + b)[|a + b| - 1] == b[|b| - 1]
  {
  }

  lemma {:induction false} OfRowLocal(ids: seq<nat>, tasks: seq<Task>, more: seq<Task>, row: nat)
    requires Known(ids, tasks)
    ensures Known(ids, tasks + more)
    ensures OfRow(ids, tasks + more, row) == OfRow(ids, tasks, row) && MaxRow(ids, tasks + more) == MaxRow(ids, tasks)
  {
    if |ids| > 0 {
      OfRowLocal(ids[..|ids| - 1], tasks, more, row);
    }
  }

  lemma {:induction false} OneRow(ids: seq<nat>, tasks: seq<Task>, row: nat, only: nat)
    requires Known(ids, tasks) && forall i | 0 <= i < |ids| :: tasks[ids[i]].row == only
    ensures OfRow(ids, tasks, row) == if row == only then ids else []
    ensures MaxRow(ids, tasks) == if |ids| == 0 then 0 else only
  {
    if |ids| > 0 {
      var init, last := ids[..|ids| - 1], ids[|ids| - 1];
      assert forall i | 0 <= i < |init| :: init[i] == ids[i];
      OneRow(init, tasks, row, only);
      hide OfRow;
      hide MaxRow;
      assert ids == init + [last];
      OfRowStep(init, last, tasks, row);
    }
  }

  function Range(from: nat, n: nat): (ids: seq<nat>)
    ensures |ids| == n
  {
    seq(n, i requires 0 <= i => from + i)
  }

  /** The ids of a fresh pipeline split into those of the last stage and the rest. */
  lemma LastStage(plan: Plan, row: nat)
    requires |plan| > 0
    ensures var init, tasks := plan[..|plan| - 1], Flatten(plan);
            var n, m := |Flatten(init)|, |plan[|plan| - 1]|;
            && Known(Ids(|tasks|), tasks) && Known(Ids(n), Flatten(init))
            && OfRow(Ids(|tasks|), tasks, row)
               == OfRow(Ids(n), Flatten(init), row) + (if row == |plan| then Range(n, m) else [])
            && MaxRow(Ids(|tasks|), tasks) == Max(MaxRow(Ids(n), Flatten(init)), if m == 0 then 0 else |plan|)
  {
    var init, tasks := plan[..|plan| - 1], Flatten(plan);
    var n, m := |Flatten(init)|, |plan[|plan| - 1]|;
    var more := RowTasks(plan[|plan| - 1], |plan|);
    assert tasks == Flatten(init) + more;
    assert Ids(|tasks|) == Ids(n) + Range(n, m);
    OfRowLocal(Ids(n), Flatten(init), more, row);
    OneRow(Range(n, m), tasks, row, |plan|);
    OfRowAppend(Ids(n), Range(n, m), tasks, row);
  }

  lemma WorksLocal(ids: seq<nat>, tasks: seq<Task>, more: seq<Task>)
    requires Known(ids, tasks)
    ensures Known(ids, tasks + more) && Works(ids, tasks + more) == Works(ids, tasks)
  {
  }

  lemma WorksOfLast(tasks: seq<Task>, stage: Stage, row: nat)
    ensures var ids := Range(|tasks|, |stage|);
            Known(ids, tasks + RowTasks(stage, row)) && Works(ids, tasks + RowTasks(stage, row)) == stage
  {
  }

  /** What the first `plan` rows of a fresh pipeline hold at a row. */
  ghost predicate RowHolds(plan: Plan, row: nat) {
    && row >= 1 && Known(Ids(|Flatten(plan)|), Flatten(plan))
    && var ids := OfRow(Ids(|Flatten(plan)|), Flatten(plan), row);
       Known(ids, Flatten(plan)) && Works(ids, Flatten(plan)) == StageOf(plan, row - 1)
  }

  lemma {:induction false} FreshRow(plan: Plan, row: nat)
    requires row >= 1
    ensures RowHolds(plan, row)
  {
    if |plan| > 0 {
      FreshRow(plan[..|plan| - 1], row);
      FreshRowStep(plan, row);
    } else {
      assert Works([], []) == [];
    }
  }

  lemma FreshRowStep(plan: Plan, row: nat)
    requires |plan| > 0 && RowHolds(plan[..|plan| - 1], row)
    ensures RowHolds(plan, row)
  {
    hide Works;
    hide OfRow;
    var init, stage := plan[..|plan| - 1], plan[|plan| - 1];
    var before, more := Flatten(init), RowTasks(stage, |plan|);
    var ids := OfRow(Ids(|before|), before, row);
    assert Flatten(plan) == before + more;
    LastStage(plan, row);
    WorksLocal(ids, before, more);
    WorksOfLast(before, stage, |plan|);
    if row == |plan| {
      assert ids == [];
      assert [] + Range(|before|, |stage|) == Range(|before|, |stage|);
    } else {
      assert ids + [] == ids;
    }
  }

  lemma {:induction false} FreshMaxRow(plan: Plan)
    ensures Known(Ids(|Flatten(plan)|), Flatten(plan))
    ensures MaxRow(Ids(|Flatten(plan)|), Flatten(plan)) == |Trim(plan)|
  {
    if |plan| > 0 {
      FreshMaxRow(plan[..|plan| - 1]);
      LastStage(plan, 1);
      TrimShorter(plan[..|plan| - 1]);
    }
  }

  lemma {:induction false} TrimShorter(plan: Plan)
    ensures Trim(plan) <= plan
    ensures forall i | |Trim(plan)| <= i < |plan| :: plan[i] == []
  {
    if |plan| > 0 && plan[|plan| - 1] == [] {
      TrimShorter(plan[..|plan| - 1]);
    }
  }

  /** The grid of a fresh pipeline. */
  lemma FreshGrid(plan: Plan)
    ensures Known(Ids(|Flatten(plan)|), Flatten(plan))
    ensures var grid := GridOf(Ids(|Flatten(plan)|), Flatten(plan));
            |grid| == |Trim(plan)| && forall r | 0 <= r < |grid| :: RowIs(grid[r], Flatten(plan), Trim(plan)[r])
  {
    FreshMaxRow(plan);
    TrimShorter(plan);
    hide Works;
    hide OfRow;
    hide Flatten;
    hide Trim;
    var grid := GridOf(Ids(|Flatten(plan)|), Flatten(plan));
    forall r | 0 <= r < |grid| ensures RowIs(grid[r], Flatten(plan), Trim(plan)[r]) {
      FreshRow(plan, r + 1);
    }
  }

  ghost predicate RowIs(ids: seq<nat>, tasks: seq<Task>, stage: Stage) {
    Known(ids, tasks) && Works(ids, tasks) == stage
  }

  /** Writing the plan as task rows and reading them back gives the plan, up to empty stages at its end. */
  lemma RoundTrip(plan: Plan, order: seq<nat>)
    requires var tasks := Flatten(plan);
             multiset(order) == multiset(PendingIds(tasks, |tasks|)) && Sorted(order, RowCol(tasks))
    ensures Known(order, Flatten(plan))
    ensures var grid := GridOf(order, Flatten(plan));
            |grid| == |Trim(plan)| && forall r | 0 <= r < |grid| :: RowIs(grid[r], Flatten(plan), Trim(plan)[r])
  {
    FreshOrder(plan, order);
    FreshGrid(plan);
  }
}
