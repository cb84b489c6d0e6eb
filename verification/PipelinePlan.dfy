/** Pipeline plans: how they are merged, turned into task rows and back into a grid. */
module PipelinePlans {
  datatype PipelineTask = PipelineTask(plugin: string, options: string)

  /** Tasks that may run in parallel. */
  type Stage = seq<PipelineTask>

  /** Stages that run one after the other. */
  type Plan = seq<Stage>

  /** Stage `i` of a plan; a plan that is too short has nothing there. */
  function StageOf(plan: Plan, i: nat): Stage {
    if i < |plan| then plan[i] else []
  }

  // ---------------------------------------------------------------------------------------------
  // Merging

  /** The stages `i` of all plans, one after the other. */
  function MergedStage(plans: seq<Plan>, i: nat): Stage {
    if |plans| == 0 then [] else MergedStage(plans[..|plans| - 1], i) + StageOf(plans[|plans| - 1], i)
  }

  function Max(a: nat, b: nat): nat {
    if a >= b then a else b
  }

  function MaxLen(plans: seq<Plan>): nat {
    if |plans| == 0 then 0 else Max(MaxLen(plans[..|plans| - 1]), |plans[|plans| - 1]|)
  }

  function Parallel(plans: seq<Plan>): (merged: Plan)
    ensures |merged| == MaxLen(plans)
  {
    seq(MaxLen(plans), i requires 0 <= i < MaxLen(plans) => MergedStage(plans, i))
  }

  function Sequential(plans: seq<Plan>): Plan {
    if |plans| == 0 then [] else Sequential(plans[..|plans| - 1]) + plans[|plans| - 1]
  }

  lemma {:induction false} SequentialAppend(ps: seq<Plan>, qs: seq<Plan>)
    ensures Sequential(ps + qs) == Sequential(ps) + Sequential(qs)
  {
    if |qs| == 0 {
      assert ps + qs == ps;
    } else {
      assert (ps + qs)[..|ps + qs| - 1] == ps + qs[..|qs| - 1];
      SequentialAppend(ps, qs[..|qs| - 1]);
    }
  }

  /** Stage `i` of plan `c` comes after all stages of the plans before it. */
  lemma SequentialPlaces(plans: seq<Plan>, c: nat, i: nat)
    requires c < |plans| && i < |plans[c]|
    ensures var at := |Sequential(plans[..c])| + i;
            at < |Sequential(plans)| && Sequential(plans)[at] == plans[c][i]
  {
    var rest := plans[c + 1..];
    assert plans == plans[..c + 1] + rest && plans[..c + 1][..c] == plans[..c];
    SequentialAppend(plans[..c + 1], rest);
    assert Sequential(plans[..c + 1]) == Sequential(plans[..c]) + plans[c];
  }

  /** Append the stages of a plan to those of `merged`, growing it where the plan is longer. */
  method MergeInto(merged: Plan, plan: Plan) returns (out: Plan)
    ensures |out| == Max(|merged|, |plan|)
    ensures forall i | 0 <= i < |out| :: out[i] == StageOf(merged, i) + StageOf(plan, i)
  {
    out := merged;
    for index := 0 to |plan|
      invariant |out| == Max(|merged|, index)
      invariant forall i | 0 <= i < |out| :: out[i] == StageOf(merged, i) + if i < index then plan[i] else []
    {
      if index >= |out| {
        out := out + [[]];
      }
      out := out[index := out[index] + plan[index]];
    }
  }

  method ParallelizePipelinePlans(plans: seq<Plan>) returns (merged: Plan)
    ensures merged == Parallel(plans)
  {
    merged := [];
    for n := 0 to |plans|
      invariant merged == Parallel(plans[..n])
    {
      assert plans[..n + 1][..n] == plans[..n];
      StagesBeyond(plans[..n]);
      merged := MergeInto(merged, plans[n]);
    }
    assert plans[..|plans|] == plans;
  }

  method SequencializePipelinePlans(plans: seq<Plan>) returns (merged: Plan)
    ensures merged == Sequential(plans)
  {
    merged := [];
    for n := 0 to |plans|
      invariant merged == Sequential(plans[..n])
    {
      assert plans[..n + 1][..n] == plans[..n];
      merged := merged + plans[n];
    }
    assert plans[..|plans|] == plans;
  }

  lemma {:induction false} StagesBeyond(plans: seq<Plan>)
    ensures forall i | i >= MaxLen(plans) :: MergedStage(plans, i) == []
    ensures forall i: nat :: StageOf(Parallel(plans), i) == MergedStage(plans, i)
  {
    if |plans| > 0 {
      StagesBeyond(plans[..|plans| - 1]);
    }
  }

  lemma {:induction false} MergedStageAppend(ps: seq<Plan>, qs: seq<Plan>, i: nat)
    ensures MergedStage(ps + qs, i) == MergedStage(ps, i) + MergedStage(qs, i)
  {
    if |qs| == 0 {
      assert ps + qs == ps;
    } else {
      assert (ps + qs)[..|ps + qs| - 1] == ps + qs[..|qs| - 1];
      MergedStageAppend(ps, qs[..|qs| - 1], i);
    }
  }

  lemma {:induction false} MaxLenAppend(ps: seq<Plan>, qs: seq<Plan>)
    ensures MaxLen(ps + qs) == Max(MaxLen(ps), MaxLen(qs))
  {
    if |qs| == 0 {
      assert ps + qs == ps;
    } else {
      assert (ps + qs)[..|ps + qs| - 1] == ps + qs[..|qs| - 1];
      MaxLenAppend(ps, qs[..|qs| - 1]);
    }
  }

  lemma ParallelPair(p: Plan, q: Plan)
    ensures MaxLen([p, q]) == Max(|p|, |q|)
    ensures forall i: nat :: MergedStage([p, q], i) == StageOf(p, i) + StageOf(q, i)
  {
    assert [p, q][..1] == [p] && [p][..0] == [];
    assert MaxLen([p]) == |p|;
    forall i: nat ensures MergedStage([p, q], i) == StageOf(p, i) + StageOf(q, i) {
      assert MergedStage([p], i) == MergedStage([], i) + StageOf(p, i) == StageOf(p, i);
    }
  }

  /** Merging in two steps is merging at once: the merge is associative. */
  lemma ParallelAppend(ps: seq<Plan>, qs: seq<Plan>)
    ensures Parallel([Parallel(ps), Parallel(qs)]) == Parallel(ps + qs)
  {
    ParallelPair(Parallel(ps), Parallel(qs));
    MaxLenAppend(ps, qs);
    forall i: nat | i < MaxLen(ps + qs)
      ensures MergedStage([Parallel(ps), Parallel(qs)], i) == MergedStage(ps + qs, i)
    {
      StagesBeyond(ps);
      StagesBeyond(qs);
      MergedStageAppend(ps, qs, i);
    }
  }

  /** The empty plan is the unit of the merge. */
  lemma ParallelUnit(plan: Plan)
    ensures Parallel([plan, []]) == plan && Parallel([[], plan]) == plan && Parallel([plan]) == plan
  {
    ParallelPair(plan, []);
    ParallelPair([], plan);
    forall i: nat | i < |plan| ensures MergedStage([plan, []], i) == plan[i] && MergedStage([[], plan], i) == plan[i] {
      assert plan[i] + [] == plan[i] && [] + plan[i] == plan[i];
    }
    assert Parallel([plan, []]) == plan && Parallel([[], plan]) == plan;
    assert [plan][..0] == [];
    assert MaxLen([plan]) == |plan|;
    forall i: nat | i < |plan| ensures MergedStage([plan], i) == plan[i] {
      assert MergedStage([plan], i) == MergedStage([], i) + StageOf(plan, i);
    }
  }

  /** The tasks of a plan, stage by stage. */
  function Tasks(plan: Plan): seq<PipelineTask> {
    if |plan| == 0 then [] else Tasks(plan[..|plan| - 1]) + plan[|plan| - 1]
  }

  function TasksOfAll(plans: seq<Plan>): seq<PipelineTask> {
    if |plans| == 0 then [] else TasksOfAll(plans[..|plans| - 1]) + Tasks(plans[|plans| - 1])
  }

  /** The first `n` stages, or all if there are fewer. */
  function First(plan: Plan, n: nat): Plan {
    if n < |plan| then plan[..n] else plan
  }

  lemma TasksUpTo(plan: Plan, n: nat)
    ensures Tasks(First(plan, n + 1)) == Tasks(First(plan, n)) + StageOf(plan, n)
  {
    if n < |plan| {
      assert First(plan, n + 1) == plan[..n + 1] && plan[..n + 1][..n] == plan[..n];
    }
  }

  lemma {:induction false} PairTasks(p: Plan, q: Plan, m: Plan, n: nat)
    requires forall i: nat :: StageOf(m, i) == StageOf(p, i) + StageOf(q, i)
    ensures multiset(Tasks(First(m, n))) == multiset(Tasks(First(p, n))) + multiset(Tasks(First(q, n)))
  {
    if n == 0 {
      assert First(m, 0) == [] && First(p, 0) == [] && First(q, 0) == [];
    } else {
      PairTasks(p, q, m, n - 1);
      TasksUpTo(p, n - 1);
      TasksUpTo(q, n - 1);
      TasksUpTo(m, n - 1);
      hide Tasks;
      hide First;
      hide StageOf;
      AddStages(Tasks(First(p, n - 1)), Tasks(First(q, n - 1)), Tasks(First(m, n - 1)), StageOf(p, n - 1), StageOf(q, n - 1));
    }
  }

  lemma AddStages(p: seq<PipelineTask>, q: seq<PipelineTask>, m: seq<PipelineTask>, s: Stage, t: Stage)
    requires multiset(m) == multiset(p) + multiset(q)
    ensures multiset(m + (s + t)) == multiset(p + s) + multiset(q + t)
  {
  }

  /** Merging neither loses nor invents a task. */
  lemma {:induction false} ParallelConserves(plans: seq<Plan>)
    ensures multiset(Tasks(Parallel(plans))) == multiset(TasksOfAll(plans))
  {
    if |plans| > 0 {
      var init, last := plans[..|plans| - 1], plans[|plans| - 1];
      ParallelConserves(init);
      var p, m := Parallel(init), Parallel(plans);
      StagesBeyond(init);
      StagesBeyond(plans);
      PairTasks(p, last, m, |m|);
      hide Tasks;
      assert First(m, |m|) == m && First(p, |m|) == p && First(last, |m|) == last;
    }
  }

  /** Where task `j` of stage `i` of plan `c` goes: to stage `i`, after the tasks of the plans before it. */
  function ColumnOf(plans: seq<Plan>, c: nat, i: nat, j: nat): nat
    requires c < |plans|
  {
    |MergedStage(plans[..c], i)| + j
  }

  lemma {:induction false} ParallelPlaces(plans: seq<Plan>, c: nat, i: nat, j: nat)
    requires c < |plans| && i < |plans[c]| && j < |plans[c][i]|
    ensures i < |Parallel(plans)| && ColumnOf(plans, c, i, j) < |Parallel(plans)[i]|
    ensures Parallel(plans)[i][ColumnOf(plans, c, i, j)] == plans[c][i][j]
  {
    var rest := plans[c + 1..];
    assert plans == plans[..c + 1] + rest && plans[..c + 1][..c] == plans[..c];
    MaxLenAppend(plans[..c + 1], rest);
    MergedStageAppend(plans[..c + 1], rest, i);
  }

  // ---------------------------------------------------------------------------------------------
  // Project blueprints

  /** What the plugins of a project contribute; `mapping` is empty without a project. */
  datatype Parts = Parts(mapping: Plan, sources: seq<Plan>, metrics: seq<Plan>, before: Plan, after: Plan)

  /** The plan of a blueprint: mapping, then the data sources, then the metrics, between the wrapping plans. */
  method MakePlan(parts: Parts) returns (plan: Plan)
    ensures plan == BlueprintPlan(parts)
    ensures multiset(Tasks(plan)) == AllTasks(parts)
  {
    var sources := ParallelizePipelinePlans(parts.sources);
    var metrics := ParallelizePipelinePlans(parts.metrics);
    var main := SequencializePipelinePlans([parts.mapping, sources, metrics]);
    plan := SequencializePipelinePlans([parts.before, main, parts.after]);
    SequentialThree(parts.mapping, sources, metrics);
    SequentialThree(parts.before, main, parts.after);
    PlanConserves(parts);
  }

  /** Every task that the plugins and the user contribute. */
  function AllTasks(parts: Parts): multiset<PipelineTask> {
    multiset(Tasks(parts.before)) + multiset(Tasks(parts.mapping)) + multiset(TasksOfAll(parts.sources))
    + multiset(TasksOfAll(parts.metrics)) + multiset(Tasks(parts.after))
  }

  lemma {:induction false} TasksJoin(a: Plan, b: Plan)
    ensures Tasks(a + b) == Tasks(a) + Tasks(b)
  {
    if |b| == 0 {
      assert a + b == a;
    } else {
      var init, last := b[..|b| - 1], b[|b| - 1];
      assert (a + b)[..|a + b| - 1] == a + init;
      TasksJoin(a, init);
      assert Tasks(a) + (Tasks(init) + last) == Tasks(a) + Tasks(init) + last;
    }
  }

  lemma TasksCount(a: Plan, b: Plan)
    ensures multiset(Tasks(a + b)) == multiset(Tasks(a)) + multiset(Tasks(b))
  {
    TasksJoin(a, b);
  }

  /** No task of any part is lost, and none is invented. */
  lemma PlanConserves(parts: Parts)
    ensures multiset(Tasks(BlueprintPlan(parts))) == AllTasks(parts)
  {
    var sources, metrics := Parallel(parts.sources), Parallel(parts.metrics);
    ParallelConserves(parts.sources);
    ParallelConserves(parts.metrics);
    TasksCount(parts.mapping, sources);
    TasksCount(parts.mapping + sources, metrics);
    TasksCount(parts.before, parts.mapping + sources + metrics);
    TasksCount(parts.before + (parts.mapping + sources + metrics), parts.after);
    hide Tasks;
    hide TasksOfAll;
    hide Parallel;
  }

  function BlueprintPlan(parts: Parts): Plan {
    parts.before + (parts.mapping + Parallel(parts.sources) + Parallel(parts.metrics)) + parts.after
  }

  lemma SequentialThree(a: Plan, b: Plan, c: Plan)
    ensures Sequential([a, b, c]) == a + b + c
  {
    assert [a, b, c][..2] == [a, b] && [a, b][..1] == [a] && [a][..0] == [];
    assert Sequential([a]) == Sequential([]) + a == a;
    assert Sequential([a, b]) == Sequential([a]) + b;
  }

  /** The stage of a blueprint plan that holds stage `i` of every data source plan. */
  function SourceStage(parts: Parts, i: nat): nat {
    |parts.before| + |parts.mapping| + i
  }

  function MetricStage(parts: Parts, i: nat): nat {
    |parts.before| + |parts.mapping| + MaxLen(parts.sources) + i
  }

  lemma SourcePlace(parts: Parts, c: nat, i: nat, j: nat)
    requires c < |parts.sources| && i < |parts.sources[c]| && j < |parts.sources[c][i]|
    ensures var s, col, plan := SourceStage(parts, i), ColumnOf(parts.sources, c, i, j), BlueprintPlan(parts);
            s < |plan| && col < |plan[s]| && plan[s][col] == parts.sources[c][i][j]
    ensures SourceStage(parts, i) < MetricStage(parts, 0)
  {
    ParallelPlaces(parts.sources, c, i, j);
  }

  lemma MetricPlace(parts: Parts, c: nat, i: nat, j: nat)
    requires c < |parts.metrics| && i < |parts.metrics[c]| && j < |parts.metrics[c][i]|
    ensures var s, col, plan := MetricStage(parts, i), ColumnOf(parts.metrics, c, i, j), BlueprintPlan(parts);
            s < |plan| && col < |plan[s]| && plan[s][col] == parts.metrics[c][i][j]
  {
    ParallelPlaces(parts.metrics, c, i, j);
  }

  // ---------------------------------------------------------------------------------------------
  // Where every part ends up

  /** The parts of a blueprint's plan, in the order in which they run. */
  datatype Section = Before | Mapping | Source(c: nat) | Metric(d: nat) | After

  /** Parts of equal rank run in parallel. */
  function Rank(section: Section): nat {
    match section
    case Before => 0
    case Mapping => 1
    case Source(_) => 2
    case Metric(_) => 3
    case After => 4
  }

  predicate HasSection(parts: Parts, section: Section) {
    (section.Source? ==> section.c < |parts.sources|) && (section.Metric? ==> section.d < |parts.metrics|)
  }

  function SectionPlan(parts: Parts, section: Section): Plan
    requires HasSection(parts, section)
  {
    match section
    case Before => parts.before
    case Mapping => parts.mapping
    case Source(c) => parts.sources[c]
    case Metric(d) => parts.metrics[d]
    case After => parts.after
  }

  /** Task `j` of stage `i` of that part. */
  predicate InPart(parts: Parts, section: Section, i: nat, j: nat) {
    HasSection(parts, section) && i < |SectionPlan(parts, section)| && j < |SectionPlan(parts, section)[i]|
  }

  /** The stage of the blueprint's plan that holds stage `i` of a part. */
  function PartStage(parts: Parts, section: Section, i: nat): nat {
    match section
    case Before => i
    case Mapping => |parts.before| + i
    case Source(_) => SourceStage(parts, i)
    case Metric(_) => MetricStage(parts, i)
    case After => MetricStage(parts, MaxLen(parts.metrics)) + i
  }

  /** The column there of the part's task `j`. */
  function PartColumn(parts: Parts, section: Section, i: nat, j: nat): nat
    requires HasSection(parts, section)
  {
    match section
    case Source(c) => ColumnOf(parts.sources, c, i, j)
    case Metric(d) => ColumnOf(parts.metrics, d, i, j)
    case _ => j
  }

  lemma PartPlace(parts: Parts, section: Section, i: nat, j: nat)
    requires InPart(parts, section, i, j)
    ensures var s, col, plan := PartStage(parts, section, i), PartColumn(parts, section, i, j), BlueprintPlan(parts);
            s < |plan| && col < |plan[s]| && plan[s][col] == SectionPlan(parts, section)[i][j]
  {
    match section
    case Source(c) => SourcePlace(parts, c, i, j);
    case Metric(d) => MetricPlace(parts, d, i, j);
    case _ =>
  }

  /** Every stage of a part comes before every stage of a part of higher rank, and stages of one part keep their order. */
  lemma PartOrder(parts: Parts, a: Section, i: nat, j: nat, b: Section, i': nat, j': nat)
    requires InPart(parts, a, i, j) && InPart(parts, b, i', j') && (Rank(a) < Rank(b) || (a == b && i < i'))
    ensures PartStage(parts, a, i) < PartStage(parts, b, i')
  {
    if a.Source? {
      ParallelPlaces(parts.sources, a.c, i, j);
    }
    if a.Metric? {
      ParallelPlaces(parts.metrics, a.d, i, j);
    }
  }
}
