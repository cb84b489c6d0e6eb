/** The dispatcher in memory: a semaphore count, a slice of running labels and the pipeline table. */
module DispatchLoop {
  import opened Wrappers
  import opened TaskGrids
  import opened Slices
  import opened Dispatcher

  class Service {
    const cap: nat
    var used: nat
    var loop: Loop
    /** Who holds the lock of the pipeline table. */
    var user: User
    var workers: map<nat, Worker>
    /** The running labels are the first `live` elements. */
    var runningParallelLabels: array<string>
    var live: nat
    var pipelines: map<nat, Record>
    /** Ids are given out in order. */
    var nextId: nat

    ghost predicate Valid()
      reads this
    {
      live <= runningParallelLabels.Length && forall id | id in pipelines :: id < nextId
    }

    ghost function View(): State
      requires Valid()
      reads this, runningParallelLabels
    {
      State(cap, used, loop, user, workers, runningParallelLabels[..live], pipelines)
    }

    constructor (cap: nat)
      ensures Valid() && View() == Fresh(cap) && fresh(runningParallelLabels)
    {
      this.cap, used, loop, user, workers := cap, 0, Acquiring, Nobody, map[];
      runningParallelLabels := new string[0];
      live, pipelines, nextId := 0, map[], 0;
    }

    /** A waiting pipeline none of whose labels that start with `parallel/` is running. */
    ghost predicate Startable(id: nat)
      requires Valid()
      reads this, runningParallelLabels
    {
      && id in pipelines && (pipelines[id].status == TaskCreated || pipelines[id].status == TaskRerun)
      && forall l | l in pipelines[id].labels && "parallel/" <= l :: l !in runningParallelLabels[..live]
    }

    lemma StartableIff(id: nat)
      requires Valid()
      ensures Startable(id) <==> Eligible(View(), id)
    {
      if id in pipelines {
        forall l ensures l in ParallelLabels(pipelines[id].labels) <==> l in pipelines[id].labels && "parallel/" <= l {
          ParallelCounts(pipelines[id].labels, l);
        }
      }
    }

    /** Wait for a permit. */
    method TryAcquire() returns (ok: bool)
      requires Valid() && loop == Acquiring
      modifies this`used, this`loop
      ensures Valid() && (ok <==> Enabled(old(View()), Acquire)) && (ok <==> old(used) < cap)
      ensures View() == if ok then Perform(old(View()), Acquire) else old(View())
      ensures ok ==> used == old(used) + 1 && loop == Looking
    {
      ok := used < cap;
      if ok {
        used, loop := used + 1, Looking;
      }
    }

    /** With the lock taken, look for the first waiting pipeline none of whose parallel labels is running. */
    method SelectNext() returns (found: Option<nat>)
      requires Valid() && loop == Looking && user == Nobody
      modifies this`loop
      ensures Valid()
      ensures found.Some? ==> Enabled(old(View()), Select(found.value)) && View() == Perform(old(View()), Select(found.value))
      ensures found.None? ==> View() == old(View()) && forall id :: !Eligible(old(View()), id)
      ensures found.Some? ==> old(Startable(found.value)) && forall i | 0 <= i < found.value :: !old(Startable(i))
      ensures found.Some? ==> loop == Selected(found.value)
      ensures found.None? ==> forall id :: !old(Startable(id))
    {
      ghost var s := View();
      forall id ensures Startable(id) <==> Eligible(s, id) {
        StartableIff(id);
      }
      for id := 0 to nextId
        invariant View() == s && forall i | 0 <= i < id :: !Eligible(s, i)
      {
        if id in pipelines && (pipelines[id].status == TaskCreated || pipelines[id].status == TaskRerun) {
          var parallel := FilterLabels(pipelines[id].labels);
          var clash := AnyRunning(parallel);
          if !clash {
            loop := Selected(id);
            return Some(id);
          }
        }
      }
      found := None;
    }

    method FilterLabels(labels: seq<string>) returns (parallel: seq<string>)
      ensures parallel == ParallelLabels(labels)
    {
      parallel := [];
      for i := 0 to |labels|
        invariant parallel == ParallelLabels(labels[..i])
      {
        assert labels[..i + 1][..i] == labels[..i];
        if "parallel/" <= labels[i] {
          parallel := parallel + [labels[i]];
        }
      }
      assert labels[..|labels|] == labels;
    }

    method AnyRunning(labels: seq<string>) returns (clash: bool)
      requires Valid()
      ensures clash <==> !Free(labels, View().runningLabels)
    {
      for i := 0 to |labels|
        invariant forall k | 0 <= k < i :: labels[k] !in runningParallelLabels[..live]
      {
        if labels[i] in runningParallelLabels[..live] {
          return true;
        }
      }
      clash := false;
    }

    method MarkSelected()
      requires Valid() && Enabled(View(), MarkRunning)
      modifies this`loop, this`pipelines
      ensures Valid() && View() == Perform(old(View()), MarkRunning)
      ensures loop == Marked(old(loop.id)) && pipelines == old(pipelines)[loop.id := old(pipelines)[loop.id].(status := TaskRunning)]
    {
      var id := loop.id;
      pipelines := pipelines[id := pipelines[id].(status := TaskRunning)];
      loop := Marked(id);
    }

    /** Append the parallel labels of the marked pipeline to the running ones. */
    method AppendSelected()
      requires Valid() && Enabled(View(), AppendLabels)
      modifies this`loop, this`runningParallelLabels, this`live
      ensures Valid() && View() == Perform(old(View()), AppendLabels) && fresh(runningParallelLabels)
      ensures loop == Appended(old(loop.id), ParallelLabels(pipelines[old(loop.id)].labels))
      ensures runningParallelLabels[..live] == old(runningParallelLabels[..live]) + loop.labels
    {
      var id := loop.id;
      var labels := FilterLabels(pipelines[id].labels);
      var was, n := runningParallelLabels, live;
      var grown := new string[n + |labels|](i requires 0 <= i < n + |labels| reads was =>
        if i < n && i < was.Length then was[i] else if n <= i then labels[i - n] else "");
      assert grown[..n + |labels|] == was[..n] + labels;
      runningParallelLabels, live := grown, n + |labels|;
      loop := Appended(id, labels);
    }

    method SpawnWorker(w: nat)
      requires Valid() && Enabled(View(), Spawn(w))
      modifies this`loop, this`workers
      ensures Valid() && View() == Perform(old(View()), Spawn(w))
      ensures loop == Acquiring && workers == old(workers)[w := Worker(old(loop.id), old(loop.labels), Working)]
    {
      workers := workers[w := Worker(loop.id, loop.labels, Working)];
      loop := Acquiring;
    }

    /** A goroutine has run its pipeline and writes the status. */
    method FinishRun(w: nat, status: Status)
      requires Valid() && Enabled(View(), WriteStatus(w, status))
      modifies this`workers, this`pipelines
      ensures Valid() && View() == Perform(old(View()), WriteStatus(w, status))
      ensures var id := old(workers)[w].pipeline; pipelines == old(pipelines)[id := old(pipelines)[id].(status := status)]
      ensures workers == old(workers)[w := old(workers)[w].(phase := StatusWritten)]
    {
      var id := workers[w].pipeline;
      pipelines := pipelines[id := pipelines[id].(status := status)];
      workers := workers[w := workers[w].(phase := StatusWritten)];
    }

    /** The deferred removal of a goroutine's labels, in place. */
    method DropLabels(w: nat)
      requires Valid() && Enabled(View(), RemoveLabels(w))
      modifies this`workers, this`live, runningParallelLabels
      ensures Valid() && View() == Perform(old(View()), RemoveLabels(w))
      ensures workers == old(workers)[w := old(workers)[w].(phase := LabelsRemoved)]
      ensures runningParallelLabels[..live] == Without(old(runningParallelLabels[..live]), old(workers)[w].labels)
    {
      live := SliceRemove(runningParallelLabels, live, workers[w].labels);
      workers := workers[w := workers[w].(phase := LabelsRemoved)];
    }

    method ReleasePermit(w: nat)
      requires Valid() && Enabled(View(), Release(w))
      modifies this`workers, this`used
      ensures Valid() && View() == Perform(old(View()), Release(w))
      ensures workers == old(workers) - {w} && used == old(used) - 1
    {
      workers := workers - {w};
      used := used - 1;
    }

    /** A goroutine marks its pipeline running at the start of each stage. */
    method StartStageOf(w: nat)
      requires Valid() && Enabled(View(), StartStage(w))
      modifies this`pipelines
      ensures Valid() && View() == Perform(old(View()), StartStage(w))
      ensures var id := workers[w].pipeline; pipelines == old(pipelines)[id := old(pipelines)[id].(status := TaskRunning)]
    {
      var id := workers[w].pipeline;
      pipelines := pipelines[id := pipelines[id].(status := TaskRunning)];
    }

    /** A user takes the lock and reads a pipeline; one that is not waiting is let go at once. */
    method BeginCancel(id: nat) returns (ok: bool)
      requires Valid() && user == Nobody
      modifies this`user
      ensures Valid() && (ok <==> Enabled(old(View()), ReadToCancel(id)))
      ensures View() == if ok then Perform(old(View()), ReadToCancel(id)) else old(View())
      ensures ok <==> id in pipelines && (pipelines[id].status == TaskCreated || pipelines[id].status == TaskRerun)
      ensures user == if ok then Cancelling(id) else Nobody
    {
      ok := id in pipelines && (pipelines[id].status == TaskCreated || pipelines[id].status == TaskRerun);
      if ok {
        user := Cancelling(id);
      }
    }

    /** A pipeline that is running or waiting is not rerun. */
    method BeginRerun(id: nat) returns (ok: bool)
      requires Valid() && user == Nobody
      modifies this`user
      ensures Valid() && (ok <==> Enabled(old(View()), ReadToRerun(id)))
      ensures View() == if ok then Perform(old(View()), ReadToRerun(id)) else old(View())
      ensures ok <==> id in pipelines && pipelines[id].status in {TaskCompleted, TaskFailed, TaskCancelled, TaskPartial}
      ensures user == if ok then Rerunning(id) else Nobody
    {
      if id !in pipelines || pipelines[id].status == TaskRunning {
        return false;
      }
      ok := pipelines[id].status != TaskCreated && pipelines[id].status != TaskRerun;
      if ok {
        user := Rerunning(id);
      }
    }

    /** The user saves the pipeline, whatever has happened to it since it was read, and lets the lock go. */
    method Save()
      requires Valid() && Enabled(View(), SaveByUser)
      modifies this`user, this`pipelines
      ensures Valid() && View() == Perform(old(View()), SaveByUser)
      ensures var id, status := old(user.id), if old(user.Cancelling?) then TaskCancelled else TaskRerun;
              user == Nobody && pipelines == old(pipelines)[id := old(pipelines)[id].(status := status)]
    {
      var id := user.id;
      pipelines := pipelines[id := pipelines[id].(status := if user.Cancelling? then TaskCancelled else TaskRerun)];
      user := Nobody;
    }

    method CreatePipeline(labels: seq<string>) returns (id: nat)
      requires Valid() && user == Nobody
      modifies this`pipelines, this`nextId
      ensures Valid() && Enabled(old(View()), Create(id, labels)) && View() == Perform(old(View()), Create(id, labels))
      ensures id !in old(pipelines) && pipelines == old(pipelines)[id := Record(TaskCreated, labels)]
    {
      id := nextId;
      pipelines := pipelines[id := Record(TaskCreated, labels)];
      nextId := nextId + 1;
    }
  }

  /** The state after one turn of the loop. */
  function Turned(s: State, id: nat, w: nat): State
    requires id in s.pipelines
  {
    var labels := ParallelLabels(s.pipelines[id].labels);
    s.(used := s.used + 1, loop := Acquiring, workers := s.workers[w := Worker(id, labels, Working)],
       runningLabels := s.runningLabels + labels, pipelines := SetStatus(s.pipelines, id, TaskRunning))
  }

  lemma TurnReaches(cap: nat, actions: seq<Action>, id: nat, w: nat) returns (more: seq<Action>)
    requires var s := After(Fresh(cap), actions);
             && s.loop == Acquiring && s.user == Nobody && s.used < s.cap && Eligible(s, id)
             && (forall i | 0 <= i < id :: !Eligible(s, i)) && w !in s.workers
    ensures After(Fresh(cap), more) == Turned(After(Fresh(cap), actions), id, w)
  {
    var s := After(Fresh(cap), actions);
    var s1 := Perform(s, Acquire);
    assert forall i :: Eligible(s1, i) <==> Eligible(s, i);
    AfterMore(Fresh(cap), actions, Acquire);
    AfterMore(Fresh(cap), actions + [Acquire], Select(id));
    AfterMore(Fresh(cap), actions + [Acquire] + [Select(id)], MarkRunning);
    AfterMore(Fresh(cap), actions + [Acquire] + [Select(id)] + [MarkRunning], AppendLabels);
    more := actions + [Acquire] + [Select(id)] + [MarkRunning] + [AppendLabels];
    AfterMore(Fresh(cap), more, Spawn(w));
    more := more + [Spawn(w)];
  }

  /** In a reachable state no label of what the loop starts next belongs to a pipeline whose goroutine still holds it. */
  lemma TurnExcludes(cap: nat, actions: seq<Action>, id: nat, w: nat)
    requires var s := After(Fresh(cap), actions);
             && s.loop == Acquiring && s.user == Nobody && s.used < s.cap && Eligible(s, id)
             && (forall i | 0 <= i < id :: !Eligible(s, i)) && w !in s.workers
    ensures var s := After(Fresh(cap), actions);
            && (forall v | Holds(s, v) :: Disjoint(s.workers[v].labels, ParallelLabels(s.pipelines[id].labels)))
            && forall v, l | Claims(s, v, l) :: !Bears(s, id, l)
  {
    var s := After(Fresh(cap), actions);
    var more := TurnReaches(cap, actions, id, w);
    hide After;
    Exclusion(cap, more);
    var t := Turned(s, id, w);
    assert Holds(t, w);
    assert forall v | Holds(s, v) :: Holds(t, v) && t.workers[v] == s.workers[v];
    forall v, l | Claims(s, v, l) ensures !Bears(s, id, l) {
      assert Claims(t, v, l) && (Bears(s, id, l) ==> Claims(t, w, l));
    }
  }

  /** When the loop finds nothing to start, every waiting pipeline shares a label with one whose goroutine holds it. */
  lemma NothingToStart(cap: nat, actions: seq<Action>, id: nat)
    requires var s := After(Fresh(cap), actions);
             && (s.loop == Acquiring || s.loop == Looking) && id in s.pipelines
             && IsWaiting(s.pipelines[id].status) && !Eligible(s, id)
    ensures var s := After(Fresh(cap), actions);
            exists v, l :: Claims(s, v, l) && Bears(s, id, l)
  {
    Exclusion(cap, actions);
    var s := After(Fresh(cap), actions);
    var l :| l in ParallelLabels(s.pipelines[id].labels) && l in s.runningLabels;
    ParallelCounts(s.pipelines[id].labels, l);
    var v :| Claims(s, v, l);
    assert Bears(s, id, l);
  }

  /**
    One turn of the dispatch loop, left to itself. In a reachable state it takes a permit, and the
    pipeline it starts shares no label that starts with `parallel/` with the pipeline of any goroutine
    that still holds its labels; it is the first such waiting pipeline. If there is none, every waiting
    pipeline shares such a label.
   */
  method Turn(service: Service, ghost actions: seq<Action>, w: nat) returns (started: Option<nat>)
    requires service.Valid() && service.loop == Acquiring && service.user == Nobody && w !in service.workers
    requires service.View() == After(Fresh(service.cap), actions)
    modifies service
    ensures service.Valid()
    ensures started.Some? ==>
              && started.value in old(service.pipelines) && service.View() == Turned(old(service.View()), started.value, w)
              && old(service.used) < service.cap && old(service.Startable(started.value))
              && (forall i | 0 <= i < started.value :: !old(service.Startable(i)))
              && forall v, l | Claims(old(service.View()), v, l) :: !Bears(old(service.View()), started.value, l)
    ensures started.None? ==> service.View().(used := old(service.used), loop := Acquiring) == old(service.View())
    ensures started.None? && old(service.used) < service.cap ==>
              forall id | id in service.pipelines
                          && (service.pipelines[id].status == TaskCreated || service.pipelines[id].status == TaskRerun) ::
                exists v, l :: Claims(old(service.View()), v, l) && Bears(old(service.View()), id, l)
  {
    hide After;
    ghost var s := service.View();
    forall i ensures service.Startable(i) <==> Eligible(s, i) {
      service.StartableIff(i);
    }
    var ok := service.TryAcquire();
    if !ok {
      return None;
    }
    started := service.SelectNext();
    assert forall i :: Eligible(Perform(s, Acquire), i) <==> Eligible(s, i);
    if started.Some? {
      service.MarkSelected();
      service.AppendSelected();
      service.SpawnWorker(w);
      TurnExcludes(service.cap, actions, started.value, w);
    } else {
      forall id | id in s.pipelines && IsWaiting(s.pipelines[id].status)
        ensures exists v, l :: Claims(s, v, l) && Bears(s, id, l)
      {
        NothingToStart(service.cap, actions, id);
      }
    }
  }
}
