/** The dispatcher of pipelines: a cap on parallel runs, and mutual exclusion on `parallel/` labels. */
module Dispatcher {
  import opened TaskGrids
  import opened Slices

  datatype Record = Record(status: Status, labels: seq<string>)

  /** The stretches of a goroutine: running the pipeline, its status written, its labels removed. */
  datatype Phase = Working | StatusWritten | LabelsRemoved

  datatype Worker = Worker(pipeline: nat, labels: seq<string>, phase: Phase)

  /** Where the dispatch loop is. */
  datatype Loop = Acquiring | Looking | Selected(id: nat) | Marked(id: nat) | Appended(id: nat, labels: seq<string>)

  /** Who holds the lock of the pipeline table: a user between reading a pipeline and saving it. */
  datatype User = Nobody | Cancelling(id: nat) | Rerunning(id: nat)

  datatype State = State(
    cap: nat,
    used: nat,
    loop: Loop,
    user: User,
    workers: map<nat, Worker>,
    runningLabels: seq<string>,
    pipelines: map<nat, Record>)

  datatype Action =
    | Acquire | Select(id: nat) | MarkRunning | AppendLabels | Spawn(worker: nat)
    | StartStage(worker: nat) | WriteStatus(worker: nat, status: Status) | RemoveLabels(worker: nat) | Release(worker: nat)
    | Create(id: nat, labels: seq<string>) | ReadToCancel(id: nat) | ReadToRerun(id: nat) | SaveByUser

  function ParallelLabels(labels: seq<string>): seq<string> {
    if |labels| == 0 then []
    else
      ParallelLabels(labels[..|labels| - 1])
      + if "parallel/" <= labels[|labels| - 1] then [labels[|labels| - 1]] else []
  }

  /** What is selected are exactly the labels that start with `parallel/`, as often as they are there. */
  lemma {:induction false} ParallelCounts(labels: seq<string>, l: string)
    ensures multiset(ParallelLabels(labels))[l] == if "parallel/" <= l then multiset(labels)[l] else 0
    ensures l in ParallelLabels(labels) <==> "parallel/" <= l && l in labels
  {
    if |labels| > 0 {
      var init, last := labels[..|labels| - 1], labels[|labels| - 1];
      ParallelCounts(init, l);
      SplitLast(labels);
      CountAppend(init, last, l);
      CountAppend(ParallelLabels(init), last, l);
    }
  }

  /** A pipeline and its labels that start with `parallel/`. */
  ghost predicate Bears(s: State, id: nat, l: string) {
    id in s.pipelines && "parallel/" <= l && l in s.pipelines[id].labels
  }

  /** A goroutine that has not removed its labels yet, and such a label of its pipeline. */
  ghost predicate Claims(s: State, w: nat, l: string) {
    Holds(s, w) && Bears(s, s.workers[w].pipeline, l)
  }

  predicate Free(labels: seq<string>, running: seq<string>) {
    forall l | l in labels :: l !in running
  }

  /** Waiting, and none of its parallel labels is running. */
  predicate Eligible(s: State, id: nat) {
    id in s.pipelines && IsWaiting(s.pipelines[id].status) && Free(ParallelLabels(s.pipelines[id].labels), s.runningLabels)
  }

  /** The lock is needed to select, to create, and from reading to saving by a user; marking and running go without it. */
  predicate Enabled(s: State, a: Action) {
    match a
    case Acquire => s.loop == Acquiring && s.used < s.cap
    case Select(id) => s.loop == Looking && s.user == Nobody && Eligible(s, id) && forall i | 0 <= i < id :: !Eligible(s, i)
    case MarkRunning => s.loop.Selected? && s.loop.id in s.pipelines
    case AppendLabels => s.loop.Marked? && s.loop.id in s.pipelines
    case Spawn(w) => s.loop.Appended? && w !in s.workers
    case StartStage(w) => w in s.workers && s.workers[w].phase == Working && s.workers[w].pipeline in s.pipelines
    case WriteStatus(w, status) =>
      w in s.workers && s.workers[w].phase == Working && s.workers[w].pipeline in s.pipelines && !IsWaiting(status)
    case RemoveLabels(w) => w in s.workers && s.workers[w].phase == StatusWritten
    case Release(w) => w in s.workers && s.workers[w].phase == LabelsRemoved && s.used > 0
    case Create(id, labels) => s.user == Nobody && id !in s.pipelines
    case ReadToCancel(id) => s.user == Nobody && id in s.pipelines && IsWaiting(s.pipelines[id].status)
    case ReadToRerun(id) =>
      s.user == Nobody && id in s.pipelines && !IsWaiting(s.pipelines[id].status) && s.pipelines[id].status != TaskRunning
    case SaveByUser => s.user != Nobody && s.user.id in s.pipelines
  }

  function SetStatus(pipelines: map<nat, Record>, id: nat, status: Status): map<nat, Record>
    requires id in pipelines
  {
    pipelines[id := pipelines[id].(status := status)]
  }

  function Perform(s: State, a: Action): State
    requires Enabled(s, a)
  {
    match a
    case Acquire => s.(used := s.used + 1, loop := Looking)
    case Select(id) => s.(loop := Selected(id))
    case MarkRunning => s.(loop := Marked(s.loop.id), pipelines := SetStatus(s.pipelines, s.loop.id, TaskRunning))
    case AppendLabels =>
      var labels := ParallelLabels(s.pipelines[s.loop.id].labels);
      s.(loop := Appended(s.loop.id, labels), runningLabels := s.runningLabels + labels)
    case Spawn(w) => s.(loop := Acquiring, workers := s.workers[w := Worker(s.loop.id, s.loop.labels, Working)])
    case StartStage(w) => s.(pipelines := SetStatus(s.pipelines, s.workers[w].pipeline, TaskRunning))
    case WriteStatus(w, status) =>
      s.(workers := s.workers[w := s.workers[w].(phase := StatusWritten)],
         pipelines := SetStatus(s.pipelines, s.workers[w].pipeline, status))
    case RemoveLabels(w) =>
      s.(workers := s.workers[w := s.workers[w].(phase := LabelsRemoved)],
         runningLabels := Without(s.runningLabels, s.workers[w].labels))
    case Release(w) => s.(workers := s.workers - {w}, used := s.used - 1)
    case Create(id, labels) => s.(pipelines := s.pipelines[id := Record(TaskCreated, labels)])
    case ReadToCancel(id) => s.(user := Cancelling(id))
    case ReadToRerun(id) => s.(user := Rerunning(id))
    case SaveByUser =>
      s.(user := Nobody, pipelines := SetStatus(s.pipelines, s.user.id, if s.user.Cancelling? then TaskCancelled else TaskRerun))
  }

  // ---------------------------------------------------------------------------------------------
  // What every step keeps

  /** Permits: one for each goroutine, and one for the loop once it has acquired it. */
  ghost predicate PermitsOk(s: State) {
    s.used == |s.workers| + (if s.loop == Acquiring then 0 else 1) && s.used <= s.cap
  }

  ghost predicate WorksOn(s: State, w: nat, id: nat) {
    w in s.workers && s.workers[w].phase == Working && s.workers[w].pipeline == id
  }

  /** A pipeline that a goroutine is working on is RUNNING, and no other goroutine or the loop is working on it. */
  ghost predicate StatusOk(s: State) {
    && (forall w, id | WorksOn(s, w, id) :: id in s.pipelines && s.pipelines[id].status == TaskRunning)
    && (forall v, w, id | WorksOn(s, v, id) && WorksOn(s, w, id) :: v == w)
    && (!s.loop.Acquiring? && !s.loop.Looking? ==>
          && s.loop.id in s.pipelines && (s.loop.Selected? || s.pipelines[s.loop.id].status == TaskRunning)
          && forall w :: !WorksOn(s, w, s.loop.id))
  }

  /** What a user has read and not saved yet is not RUNNING. */
  ghost predicate UserOk(s: State) {
    s.user != Nobody ==> s.user.id in s.pipelines && s.pipelines[s.user.id].status != TaskRunning
  }

  /** A goroutine works on the pipeline, or the loop has marked it for one. */
  ghost predicate InHand(s: State, id: nat) {
    (exists w :: WorksOn(s, w, id)) || ((s.loop.Marked? || s.loop.Appended?) && s.loop.id == id)
  }

  /** The loop marks a pipeline that a user has read and not saved yet. */
  predicate Straddles(s: State, a: Action) {
    a.MarkRunning? && s.loop.Selected? && s.user != Nobody && s.user.id == s.loop.id
  }

  ghost predicate Holds(s: State, w: nat) {
    w in s.workers && s.workers[w].phase != LabelsRemoved
  }

  /** The labels the loop has appended for a goroutine still to be spawned. */
  function LoopLabels(s: State): seq<string> {
    if s.loop.Appended? then s.loop.labels else []
  }

  ghost predicate HasLabel(s: State, w: nat, l: string) {
    Holds(s, w) && l in s.workers[w].labels
  }

  /** A label is running exactly as often as its holder has it, and it has one holder at most. */
  ghost predicate LabelOk(s: State, l: string) {
    && (forall w | HasLabel(s, w, l) ::
          multiset(s.runningLabels)[l] == multiset(s.workers[w].labels)[l] && l !in LoopLabels(s))
    && (forall v, w | HasLabel(s, v, l) && HasLabel(s, w, l) :: v == w)
    && (l in LoopLabels(s) ==> multiset(s.runningLabels)[l] == multiset(LoopLabels(s))[l])
    && (l in s.runningLabels ==> l in LoopLabels(s) || exists w :: HasLabel(s, w, l))
  }

  /** Between its selection and the appending, nobody else takes a label of the selected pipeline. */
  ghost predicate SelectedOk(s: State) {
    s.loop.Selected? || s.loop.Marked? ==>
      s.loop.id in s.pipelines && Free(ParallelLabels(s.pipelines[s.loop.id].labels), s.runningLabels)
  }

  ghost predicate LabelsOk(s: State) {
    SelectedOk(s) && forall l :: LabelOk(s, l)
  }

  lemma CountPut(workers: map<nat, Worker>, w: nat, worker: Worker)
    ensures |workers[w := worker]| == |workers| + if w in workers then 0 else 1
  {
    assert workers[w := worker].Keys == workers.Keys + {w};
  }

  lemma CountDrop(workers: map<nat, Worker>, w: nat)
    requires w in workers
    ensures |workers - {w}| == |workers| - 1
  {
    assert (workers - {w}).Keys == workers.Keys - {w};
  }

  lemma PermitsKept(s: State, a: Action)
    requires PermitsOk(s) && Enabled(s, a)
    ensures PermitsOk(Perform(s, a))
  {
    if a.Spawn? {
      CountPut(s.workers, a.worker, Worker(s.loop.id, s.loop.labels, Working));
    } else if a.WriteStatus? {
      CountPut(s.workers, a.worker, s.workers[a.worker].(phase := StatusWritten));
    } else if a.RemoveLabels? {
      CountPut(s.workers, a.worker, s.workers[a.worker].(phase := LabelsRemoved));
    } else if a.Release? {
      CountDrop(s.workers, a.worker);
    }
  }

  /** How an action changes who works on what. */
  lemma WorkChanges(s: State, a: Action, w: nat, id: nat)
    requires Enabled(s, a)
    ensures WorksOn(Perform(s, a), w, id) <==>
              (WorksOn(s, w, id) && !(a.WriteStatus? && a.worker == w)) || (a.Spawn? && a.worker == w && s.loop.id == id)
  {
  }

  /** A step breaks the statuses exactly when a user saves a pipeline that is in somebody's hands. */
  lemma StatusBreaksIff(s: State, a: Action)
    requires StatusOk(s) && Enabled(s, a)
    ensures StatusOk(Perform(s, a)) <==> !(a.SaveByUser? && InHand(s, s.user.id))
  {
    hide InHand;
    if a.SaveByUser? {
      SaveBreaksIff(s);
    } else {
      OthersKeepStatus(s, a);
    }
  }

  lemma SaveBreaksIff(s: State)
    requires StatusOk(s) && Enabled(s, SaveByUser)
    ensures StatusOk(Perform(s, SaveByUser)) <==> !InHand(s, s.user.id)
  {
    var t := Perform(s, SaveByUser);
    forall w, id ensures WorksOn(t, w, id) <==> WorksOn(s, w, id) {
      WorkChanges(s, SaveByUser, w, id);
    }
    hide WorksOn;
    if w :| WorksOn(s, w, s.user.id) {
      assert WorksOn(t, w, s.user.id);
    }
  }

  lemma OthersKeepStatus(s: State, a: Action)
    requires StatusOk(s) && Enabled(s, a) && !a.SaveByUser?
    ensures StatusOk(Perform(s, a))
  {
    forall w, id
      ensures WorksOn(Perform(s, a), w, id) <==>
                (WorksOn(s, w, id) && !(a.WriteStatus? && a.worker == w)) || (a.Spawn? && a.worker == w && s.loop.id == id)
    {
      WorkChanges(s, a, w, id);
    }
    if a.WriteStatus? || a.StartStage? {
      assert WorksOn(s, a.worker, s.workers[a.worker].pipeline);
    }
    hide WorksOn;
  }

  /** Until it is saved, nothing but a mark that straddles touches the pipeline a user has read, and nobody takes it in hand. */
  lemma UserUndisturbed(s: State, a: Action)
    requires StatusOk(s) && UserOk(s) && Enabled(s, a) && !Straddles(s, a) && s.user != Nobody && !a.SaveByUser?
    ensures var t := Perform(s, a);
            && t.user == s.user && s.user.id in t.pipelines && t.pipelines[s.user.id] == s.pipelines[s.user.id]
            && !InHand(t, s.user.id)
  {
    var t := Perform(s, a);
    OthersKeepStatus(s, a);
    if a.WriteStatus? || a.StartStage? {
      assert WorksOn(s, a.worker, s.workers[a.worker].pipeline);
    }
    hide WorksOn;
  }

  /** Statuses and reads are kept by every step but a mark that straddles, and by no such mark. */
  lemma StatusKeptIff(s: State, a: Action)
    requires StatusOk(s) && UserOk(s) && Enabled(s, a)
    ensures StatusOk(Perform(s, a)) && UserOk(Perform(s, a)) <==> !Straddles(s, a)
  {
    hide StatusOk;
    if a.SaveByUser? {
      NotInHand(s);
    }
    StatusBreaksIff(s, a);
    hide InHand;
    if !Straddles(s, a) && s.user != Nobody && !a.SaveByUser? {
      UserUndisturbed(s, a);
    }
  }

  lemma NotInHand(s: State)
    requires StatusOk(s) && UserOk(s) && s.user != Nobody
    ensures !InHand(s, s.user.id)
  {
    hide WorksOn;
  }

  /** A mark is safe, whatever comes next, exactly when it does not straddle. */
  lemma MarkIsSafeIff(s: State)
    requires StatusOk(s) && UserOk(s) && Enabled(s, MarkRunning)
    ensures var t := Perform(s, MarkRunning);
            (forall next | Enabled(t, next) :: StatusOk(Perform(t, next))) <==> !Straddles(s, MarkRunning)
  {
    var t := Perform(s, MarkRunning);
    StatusKeptIff(s, MarkRunning);
    StatusBreaksIff(s, MarkRunning);
    hide StatusOk;
    if Straddles(s, MarkRunning) {
      assert Enabled(t, SaveByUser) && InHand(t, t.user.id);
      StatusBreaksIff(t, SaveByUser);
    } else {
      forall next | Enabled(t, next) ensures StatusOk(Perform(t, next)) {
        StatusKeptIff(t, next);
      }
    }
  }

  lemma SelectedKept(s: State, a: Action)
    requires SelectedOk(s) && Enabled(s, a)
    ensures SelectedOk(Perform(s, a))
  {
    if a.RemoveLabels? && (s.loop.Selected? || s.loop.Marked?) {
      var mine, labels := ParallelLabels(s.pipelines[s.loop.id].labels), s.workers[a.worker].labels;
      forall l | l in mine ensures l !in Without(s.runningLabels, labels) {
        WithoutIn(s.runningLabels, labels, l);
      }
    }
  }

  lemma WithoutIn(source: seq<string>, toRemoves: seq<string>, l: string)
    ensures l in Without(source, toRemoves) <==> l in source && l !in toRemoves
  {
    WithoutCounts(source, toRemoves, l);
    assert l in source <==> l in multiset(source);
    assert l in Without(source, toRemoves) <==> l in multiset(Without(source, toRemoves));
  }

  lemma LabelsKept(s: State, a: Action)
    requires LabelsOk(s) && Enabled(s, a)
    ensures LabelsOk(Perform(s, a))
  {
    SelectedKept(s, a);
    hide LabelOk;
    hide SelectedOk;
    forall l ensures LabelOk(Perform(s, a), l) {
      assert LabelOk(s, l);
      if a.AppendLabels? {
        AppendKeeps(s, l);
      } else if a.Spawn? {
        SpawnKeeps(s, a.worker, l);
      } else if a.RemoveLabels? {
        RemoveKeeps(s, a.worker, l);
      } else {
        OthersKeep(s, a, l);
      }
    }
  }

  lemma AppendKeeps(s: State, l: string)
    requires SelectedOk(s) && LabelOk(s, l) && Enabled(s, AppendLabels)
    ensures LabelOk(Perform(s, AppendLabels), l)
  {
    var t := Perform(s, AppendLabels);
    var mine := ParallelLabels(s.pipelines[s.loop.id].labels);
    hide ParallelLabels;
    assert forall w :: HasLabel(t, w, l) <==> HasLabel(s, w, l);
    CountJoin(s.runningLabels, mine, l);
    forall w | HasLabel(s, w, l) ensures l in s.runningLabels {
      CountIn(s.workers[w].labels, l);
      CountIn(s.runningLabels, l);
    }
  }

  lemma CountIn(labels: seq<string>, l: string)
    ensures l in labels <==> multiset(labels)[l] > 0
  {
  }

  lemma CountJoin(a: seq<string>, b: seq<string>, l: string)
    ensures multiset(a + b)[l] == multiset(a)[l] + multiset(b)[l]
    ensures l in a + b <==> l in a || l in b
    ensures l !in a ==> multiset(a)[l] == 0
  {
    CountIn(a, l);
  }

  lemma SpawnKeeps(s: State, w: nat, l: string)
    requires LabelOk(s, l) && Enabled(s, Spawn(w))
    ensures LabelOk(Perform(s, Spawn(w)), l)
  {
    var t := Perform(s, Spawn(w));
    assert forall v :: HasLabel(t, v, l) <==> HasLabel(s, v, l) || (v == w && l in LoopLabels(s));
    if l in s.runningLabels && l !in LoopLabels(s) {
      var v :| HasLabel(s, v, l);
      assert HasLabel(t, v, l);
    }
  }

  lemma RemoveKeeps(s: State, w: nat, l: string)
    requires LabelOk(s, l) && Enabled(s, RemoveLabels(w))
    ensures LabelOk(Perform(s, RemoveLabels(w)), l)
  {
    var t := Perform(s, RemoveLabels(w));
    assert forall v :: HasLabel(t, v, l) <==> HasLabel(s, v, l) && v != w;
    WithoutCounts(s.runningLabels, s.workers[w].labels, l);
    WithoutIn(s.runningLabels, s.workers[w].labels, l);
    if l in s.workers[w].labels {
      assert HasLabel(s, w, l);
    }
  }

  lemma OthersKeep(s: State, a: Action, l: string)
    requires LabelOk(s, l) && Enabled(s, a) && !a.AppendLabels? && !a.Spawn? && !a.RemoveLabels?
    ensures LabelOk(Perform(s, a), l)
  {
    var t := Perform(s, a);
    assert forall v :: HasLabel(t, v, l) <==> HasLabel(s, v, l);
    assert forall v | HasLabel(t, v, l) :: t.workers[v].labels == s.workers[v].labels;
    assert LoopLabels(t) == LoopLabels(s);
  }

  // ---------------------------------------------------------------------------------------------
  // Every reachable state

  function Fresh(cap: nat): State {
    State(cap, 0, Acquiring, Nobody, map[], [], map[])
  }

  /** Steps that are not possible do not happen. */
  function After(s: State, actions: seq<Action>): State {
    if |actions| == 0 then s
    else
      var t := After(s, actions[..|actions| - 1]);
      if Enabled(t, actions[|actions| - 1]) then Perform(t, actions[|actions| - 1]) else t
  }

  /** A goroutine holds the parallel labels of its pipeline. */
  ghost predicate OwnLabels(s: State) {
    && (forall w | w in s.workers :: Own(s, s.workers[w].pipeline, s.workers[w].labels))
    && (s.loop.Appended? ==> Own(s, s.loop.id, s.loop.labels))
  }

  ghost predicate Own(s: State, id: nat, labels: seq<string>) {
    id in s.pipelines && labels == ParallelLabels(s.pipelines[id].labels)
  }

  lemma OwnLabelsKept(s: State, a: Action)
    requires OwnLabels(s) && Enabled(s, a)
    ensures OwnLabels(Perform(s, a))
  {
    forall id, labels | Own(s, id, labels) ensures Own(Perform(s, a), id, labels) {
      OwnStays(s, a, id, labels);
    }
    if a.AppendLabels? {
      var t := Perform(s, a);
      assert Own(t, t.loop.id, t.loop.labels);
    }
    hide Own;
    hide Eligible;
    hide SetStatus;
    hide ParallelLabels;
  }

  lemma OwnStays(s: State, a: Action, id: nat, labels: seq<string>)
    requires Own(s, id, labels) && Enabled(s, a)
    ensures Own(Perform(s, a), id, labels)
  {
    hide ParallelLabels;
    hide Eligible;
  }

  ghost predicate Inv(s: State) {
    PermitsOk(s) && LabelsOk(s) && OwnLabels(s)
  }

  /** From a fresh start, after any interleaving of loop, goroutines and users. */
  lemma {:induction false} InvAlways(cap: nat, actions: seq<Action>)
    ensures Inv(After(Fresh(cap), actions)) && After(Fresh(cap), actions).cap == cap
  {
    if |actions| > 0 {
      InvAlways(cap, actions[..|actions| - 1]);
      var t, a := After(Fresh(cap), actions[..|actions| - 1]), actions[|actions| - 1];
      if Enabled(t, a) {
        PermitsKept(t, a);
        LabelsKept(t, a);
        OwnLabelsKept(t, a);
      }
    }
  }

  /** The action at `k` is a mark of a pipeline that a user has read and not saved. */
  ghost predicate StraddlesAt(cap: nat, actions: seq<Action>, k: nat)
    requires k < |actions|
  {
    var s := After(Fresh(cap), actions[..k]);
    Enabled(s, actions[k]) && Straddles(s, actions[k])
  }

  ghost predicate NoStraddle(cap: nat, actions: seq<Action>) {
    forall k: nat | k < |actions| :: !StraddlesAt(cap, actions, k)
  }

  /** The action at `k` saves a pipeline that is in somebody's hands. */
  ghost predicate SavesInHandAt(cap: nat, actions: seq<Action>, k: nat)
    requires k < |actions|
  {
    var s := After(Fresh(cap), actions[..k]);
    Enabled(s, actions[k]) && actions[k].SaveByUser? && InHand(s, s.user.id)
  }

  lemma AfterPrefix(s: State, actions: seq<Action>, k: nat)
    requires k < |actions|
    ensures After(s, actions[..k + 1])
            == var t := After(s, actions[..k]); if Enabled(t, actions[k]) then Perform(t, actions[k]) else t
  {
    assert actions[..k + 1][..k] == actions[..k];
  }

  /** While no mark straddles, a pipeline that is worked on is RUNNING and nobody else works on it. */
  lemma {:induction false} StatusAlways(cap: nat, actions: seq<Action>)
    requires NoStraddle(cap, actions)
    ensures StatusOk(After(Fresh(cap), actions)) && UserOk(After(Fresh(cap), actions))
  {
    if |actions| > 0 {
      var n := |actions| - 1;
      forall k: nat | k < n ensures !StraddlesAt(cap, actions[..n], k) {
        assert actions[..n][..k] == actions[..k];
        assert !StraddlesAt(cap, actions, k);
      }
      StatusAlways(cap, actions[..n]);
      AfterPrefix(Fresh(cap), actions, n);
      assert actions[..n + 1] == actions && !StraddlesAt(cap, actions, n);
      var t := After(Fresh(cap), actions[..n]);
      hide After;
      hide StatusOk;
      if Enabled(t, actions[n]) {
        StatusKeptIff(t, actions[n]);
      }
    }
  }

  /** In any schedule the statuses are right all along exactly when no user saves a pipeline that is in somebody's hands. */
  lemma StatusAlwaysIff(cap: nat, actions: seq<Action>)
    ensures (forall k: nat | k <= |actions| :: StatusOk(After(Fresh(cap), actions[..k])))
            <==> forall k: nat | k < |actions| :: !SavesInHandAt(cap, actions, k)
  {
    if forall k: nat | k <= |actions| :: StatusOk(After(Fresh(cap), actions[..k])) {
      forall k: nat | k < |actions| ensures !SavesInHandAt(cap, actions, k) {
        assert StatusOk(After(Fresh(cap), actions[..k])) && StatusOk(After(Fresh(cap), actions[..k + 1]));
        StatusNext(cap, actions, k);
      }
    }
    if forall k: nat | k < |actions| :: !SavesInHandAt(cap, actions, k) {
      forall k: nat | k <= |actions| ensures StatusOk(After(Fresh(cap), actions[..k])) {
        StatusUpTo(cap, actions, k);
      }
    }
  }

  lemma StatusNext(cap: nat, actions: seq<Action>, k: nat)
    requires k < |actions| && StatusOk(After(Fresh(cap), actions[..k]))
    ensures StatusOk(After(Fresh(cap), actions[..k + 1])) <==> !SavesInHandAt(cap, actions, k)
  {
    AfterPrefix(Fresh(cap), actions, k);
    var s := After(Fresh(cap), actions[..k]);
    hide After;
    hide StatusOk;
    hide InHand;
    if Enabled(s, actions[k]) {
      StatusBreaksIff(s, actions[k]);
    }
  }

  lemma {:induction false} StatusUpTo(cap: nat, actions: seq<Action>, k: nat)
    requires k <= |actions| && forall i: nat | i < k :: !SavesInHandAt(cap, actions, i)
    ensures StatusOk(After(Fresh(cap), actions[..k]))
  {
    if k > 0 {
      StatusUpTo(cap, actions, k - 1);
      StatusNext(cap, actions, k - 1);
    }
  }

  ghost predicate Disjoint(a: seq<string>, b: seq<string>) {
    forall l | l in a :: l !in b
  }

  /**
    In every reachable state: the cap holds, no label that starts with `parallel/` belongs to the
    pipelines of two goroutines, and such a label runs exactly when it belongs to the pipeline of one
    goroutine or of the loop. Two goroutines work on the same pipeline only when it has no such label
    and some mark has straddled.
   */
  lemma Exclusion(cap: nat, actions: seq<Action>)
    ensures var s := After(Fresh(cap), actions);
            && |s.workers| <= cap
            && (forall v, w | Holds(s, v) && Holds(s, w) && v != w :: Disjoint(s.workers[v].labels, s.workers[w].labels))
            && (forall v, w, l | Claims(s, v, l) && Claims(s, w, l) :: v == w)
            && (forall l :: l in s.runningLabels <==>
                              (s.loop.Appended? && Bears(s, s.loop.id, l)) || exists w :: Claims(s, w, l))
            && (forall v, w, id, l | WorksOn(s, v, id) && WorksOn(s, w, id) && v != w :: !Bears(s, id, l))
            && (NoStraddle(cap, actions) ==> forall v, w, id | WorksOn(s, v, id) && WorksOn(s, w, id) :: v == w)
  {
    InvAlways(cap, actions);
    if NoStraddle(cap, actions) {
      StatusAlways(cap, actions);
    }
    var s := After(Fresh(cap), actions);
    hide After;
    forall v, w | Holds(s, v) && Holds(s, w) && v != w ensures Disjoint(s.workers[v].labels, s.workers[w].labels) {
      HoldersDisjoint(s, v, w);
    }
    forall v, w, l | Claims(s, v, l) && Claims(s, w, l) ensures v == w {
      ClaimsAre(s, v, l);
      ClaimsAre(s, w, l);
      if v != w {
        HoldersDisjoint(s, v, w);
      }
    }
    forall v, w, id, l | WorksOn(s, v, id) && WorksOn(s, w, id) && v != w ensures !Bears(s, id, l) {
      assert Bears(s, id, l) ==> Claims(s, v, l) && Claims(s, w, l);
    }
    forall l ensures l in s.runningLabels <==> (s.loop.Appended? && Bears(s, s.loop.id, l)) || exists w :: Claims(s, w, l) {
      Runs(s, l);
    }
  }

  /** The labels a goroutine holds are those of its pipeline that start with `parallel/`. */
  lemma ClaimsAre(s: State, w: nat, l: string)
    requires OwnLabels(s)
    ensures Claims(s, w, l) <==> HasLabel(s, w, l)
  {
    if Holds(s, w) {
      assert Own(s, s.workers[w].pipeline, s.workers[w].labels);
      ParallelCounts(s.pipelines[s.workers[w].pipeline].labels, l);
    }
  }

  lemma Runs(s: State, l: string)
    requires LabelsOk(s) && OwnLabels(s)
    ensures l in s.runningLabels <==> (s.loop.Appended? && Bears(s, s.loop.id, l)) || exists w :: Claims(s, w, l)
  {
    LabelHeld(s, l);
    forall w ensures Claims(s, w, l) <==> HasLabel(s, w, l) {
      ClaimsAre(s, w, l);
    }
    if s.loop.Appended? {
      assert Own(s, s.loop.id, s.loop.labels);
      ParallelCounts(s.pipelines[s.loop.id].labels, l);
    }
  }

  lemma HoldersDisjoint(s: State, v: nat, w: nat)
    requires LabelsOk(s) && Holds(s, v) && Holds(s, w) && v != w
    ensures Disjoint(s.workers[v].labels, s.workers[w].labels)
  {
    forall l | l in s.workers[v].labels ensures l !in s.workers[w].labels {
      assert LabelOk(s, l) && HasLabel(s, v, l);
      assert l in s.workers[w].labels ==> HasLabel(s, w, l);
    }
  }

  lemma LabelHeld(s: State, l: string)
    requires LabelsOk(s)
    ensures l in s.runningLabels <==> l in LoopLabels(s) || exists w :: HasLabel(s, w, l)
  {
    assert LabelOk(s, l);
    if l in LoopLabels(s) {
      assert multiset(LoopLabels(s))[l] > 0;
    }
    if w :| HasLabel(s, w, l) {
      assert multiset(s.workers[w].labels)[l] > 0;
    }
  }

  /** Removing all occurrences of its labels, a goroutine takes out what it had put in and nothing else. */
  lemma RemovalFreesOwn(cap: nat, actions: seq<Action>, w: nat)
    requires Enabled(After(Fresh(cap), actions), RemoveLabels(w))
    ensures var s := After(Fresh(cap), actions);
            multiset(Perform(s, RemoveLabels(w)).runningLabels) == multiset(s.runningLabels) - multiset(s.workers[w].labels)
  {
    InvAlways(cap, actions);
    var s := After(Fresh(cap), actions);
    var labels := s.workers[w].labels;
    forall l
      ensures multiset(Without(s.runningLabels, labels))[l] == (multiset(s.runningLabels) - multiset(labels))[l]
    {
      WithoutCounts(s.runningLabels, labels, l);
      if l in labels {
        assert LabelOk(s, l) && HasLabel(s, w, l);
      } else {
        assert multiset(labels)[l] == 0;
      }
    }
  }

  lemma AfterMore(s: State, actions: seq<Action>, a: Action)
    ensures After(s, actions + [a]) == var t := After(s, actions); if Enabled(t, a) then Perform(t, a) else t
  {
    assert (actions + [a])[..|actions|] == actions;
  }

  // ---------------------------------------------------------------------------------------------
  // A mark that straddles

  /** What a user does until the pipeline waits again: save, and rerun it if that was a cancellation. */
  function Revive(user: User): seq<Action>
    requires user != Nobody
  {
    if user.Cancelling? then [SaveByUser, ReadToRerun(user.id), SaveByUser] else [SaveByUser]
  }

  /** The loop marks the pipeline, the user revives it, and a goroutine starts to work on it. */
  function FirstTurn(user: User, v: nat): seq<Action>
    requires user != Nobody
  {
    [MarkRunning] + Revive(user) + [AppendLabels, Spawn(v)]
  }

  /** The loop takes the pipeline once more. */
  function NextTurn(id: nat, w: nat): seq<Action> {
    [Acquire, Select(id), MarkRunning] + [AppendLabels, Spawn(w)]
  }

  lemma {:induction false} AfterAppend(s: State, a: seq<Action>, b: seq<Action>)
    ensures After(s, a + b) == After(After(s, a), b)
  {
    if |b| == 0 {
      assert a + b == a;
    } else {
      assert (a + b)[..|a + b| - 1] == a + b[..|b| - 1];
      AfterAppend(s, a, b[..|b| - 1]);
    }
  }

  lemma AfterOne(s: State, a: Action)
    requires Enabled(s, a)
    ensures After(s, [a]) == Perform(s, a)
  {
    assert [a][..0] == [];
  }

  lemma AfterTwo(s: State, a: Action, b: Action)
    requires Enabled(s, a) && Enabled(Perform(s, a), b)
    ensures After(s, [a, b]) == Perform(Perform(s, a), b)
  {
    assert [a, b][..1] == [a];
    AfterOne(s, a);
  }

  lemma AfterThree(s: State, a: Action, b: Action, c: Action)
    requires Enabled(s, a) && Enabled(Perform(s, a), b) && Enabled(Perform(Perform(s, a), b), c)
    ensures After(s, [a, b, c]) == Perform(Perform(Perform(s, a), b), c)
  {
    assert [a, b, c][..2] == [a, b];
    AfterTwo(s, a, b);
  }

  /** Once a mark has straddled, a pipeline without parallel labels can get two goroutines. */
  lemma StraddleDoubles(s: State, v: nat, w: nat)
    requires Enabled(s, MarkRunning) && Straddles(s, MarkRunning)
    requires (forall l :: !Bears(s, s.user.id, l)) && (forall i | 0 <= i < s.user.id :: !Eligible(s, i))
    requires s.used < s.cap && v != w && v !in s.workers && w !in s.workers
    ensures var t := After(s, FirstTurn(s.user, v) + NextTurn(s.user.id, w));
            WorksOn(t, v, s.user.id) && WorksOn(t, w, s.user.id) && !StatusOk(t)
  {
    var id := s.user.id;
    NoneSelected(s, id);
    var t := TurnedFirst(s, v);
    forall i | 0 <= i < id ensures !Eligible(t, i) {
      assert !Eligible(s, i) && (i in t.pipelines ==> t.pipelines[i] == s.pipelines[i]);
    }
    hide ParallelLabels;
    TurnedNext(t, id, w);
    AfterAppend(s, FirstTurn(s.user, v), NextTurn(id, w));
    hide After;
    hide Eligible;
    var last := TurnedTo(t, id, w);
    assert WorksOn(last, v, id) && WorksOn(last, w, id);
  }

  lemma NoneSelected(s: State, id: nat)
    requires id in s.pipelines && forall l :: !Bears(s, id, l)
    ensures ParallelLabels(s.pipelines[id].labels) == []
  {
    var labels := ParallelLabels(s.pipelines[id].labels);
    if |labels| > 0 {
      ParallelCounts(s.pipelines[id].labels, labels[0]);
      assert Bears(s, id, labels[0]);
    }
  }

  function TurnedTo(s: State, id: nat, w: nat): State
    requires id in s.pipelines
  {
    s.(used := s.used + 1, workers := s.workers[w := Worker(id, [], Working)],
       pipelines := SetStatus(s.pipelines, id, TaskRunning))
  }

  lemma TurnedFirst(s: State, v: nat) returns (t: State)
    requires Enabled(s, MarkRunning) && Straddles(s, MarkRunning) && v !in s.workers
    requires ParallelLabels(s.pipelines[s.user.id].labels) == []
    ensures t == s.(loop := Acquiring, user := Nobody, workers := s.workers[v := Worker(s.user.id, [], Working)],
                    pipelines := SetStatus(s.pipelines, s.user.id, TaskRerun))
    ensures After(s, FirstTurn(s.user, v)) == t
  {
    var id := s.user.id;
    var s1 := Perform(s, MarkRunning);
    var s2 := s1.(user := Nobody, pipelines := SetStatus(s1.pipelines, id, TaskRerun));
    t := s2.(loop := Acquiring, workers := s2.workers[v := Worker(id, [], Working)]);
    AfterOne(s, MarkRunning);
    Revived(s1);
    Spawned(s2, id, v);
    hide After;
    AfterAppend(s, [MarkRunning], Revive(s.user));
    AfterAppend(s, [MarkRunning] + Revive(s.user), [AppendLabels, Spawn(v)]);
  }

  lemma TurnedNext(s: State, id: nat, w: nat)
    requires s.loop == Acquiring && s.user == Nobody && s.used < s.cap && w !in s.workers
    requires Eligible(s, id) && (forall i | 0 <= i < id :: !Eligible(s, i))
    requires ParallelLabels(s.pipelines[id].labels) == []
    ensures After(s, NextTurn(id, w)) == TurnedTo(s, id, w)
  {
    var looking := s.(used := s.used + 1, loop := Looking);
    assert forall i :: Eligible(looking, i) <==> Eligible(s, i);
    hide Eligible;
    var marked := looking.(loop := Marked(id), pipelines := SetStatus(s.pipelines, id, TaskRunning));
    AfterThree(s, Acquire, Select(id), MarkRunning);
    Spawned(marked, id, w);
    AfterAppend(s, [Acquire, Select(id), MarkRunning], [AppendLabels, Spawn(w)]);
  }

  lemma Revived(s: State)
    requires s.user != Nobody && s.user.id in s.pipelines
    ensures After(s, Revive(s.user)) == s.(user := Nobody, pipelines := SetStatus(s.pipelines, s.user.id, TaskRerun))
  {
    if s.user.Cancelling? {
      AfterThree(s, SaveByUser, ReadToRerun(s.user.id), SaveByUser);
    } else {
      AfterOne(s, SaveByUser);
    }
  }

  lemma Spawned(s: State, id: nat, w: nat)
    requires s.loop == Marked(id) && id in s.pipelines && ParallelLabels(s.pipelines[id].labels) == [] && w !in s.workers
    ensures After(s, [AppendLabels, Spawn(w)]) == s.(loop := Acquiring, workers := s.workers[w := Worker(id, [], Working)])
  {
    AfterTwo(s, AppendLabels, Spawn(w));
  }

  /** A cancellation read before the mark and saved after it: two goroutines work on one pipeline. */
  lemma TwoAtWork() returns (actions: seq<Action>)
    ensures var s := After(Fresh(2), actions);
            WorksOn(s, 1, 0) && WorksOn(s, 2, 0) && !StatusOk(s)
  {
    var start := [Create(0, []), Acquire] + [Select(0), ReadToCancel(0)];
    var s := SelectedAndRead();
    hide After;
    actions := start + (FirstTurn(s.user, 1) + NextTurn(0, 2));
    AfterAppend(Fresh(2), start, FirstTurn(s.user, 1) + NextTurn(0, 2));
    StraddleDoubles(s, 1, 2);
  }

  lemma SelectedAndRead() returns (s: State)
    ensures s == State(2, 1, Selected(0), Cancelling(0), map[], [], map[0 := Record(TaskCreated, [])])
    ensures After(Fresh(2), [Create(0, []), Acquire] + [Select(0), ReadToCancel(0)]) == s
  {
    var created := Fresh(2).(used := 1, loop := Looking, pipelines := map[0 := Record(TaskCreated, [])]);
    s := created.(loop := Selected(0), user := Cancelling(0));
    AfterTwo(Fresh(2), Create(0, []), Acquire);
    AfterTwo(created, Select(0), ReadToCancel(0));
    AfterAppend(Fresh(2), [Create(0, []), Acquire], [Select(0), ReadToCancel(0)]);
  }
}
