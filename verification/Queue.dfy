/** The linked queue with a counter and a count of items in progress. */
module Queues {
  class QueueNode<T> {
    var next: QueueNode?<T>
    const data: T

    constructor (data: T)
      ensures this.data == data && next == null
    {
      this.data := data;
      next := null;
    }
  }

  /** The node that must follow `nodes[i]` in a chain. */
  ghost function Following<T>(nodes: seq<QueueNode<T>>, i: nat): QueueNode?<T>
    requires i < |nodes|
  {
    if i + 1 < |nodes| then nodes[i + 1] else null
  }

  ghost predicate Chain<T>(nodes: seq<QueueNode<T>>)
    reads nodes
  {
    && (forall i, j | 0 <= i < j < |nodes| :: nodes[i] != nodes[j])
    && (forall i | 0 <= i < |nodes| :: nodes[i].next == Following(nodes, i))
  }

  ghost function DataOf<T>(nodes: seq<QueueNode<T>>): (data: seq<T>)
    ensures |data| == |nodes|
  {
    if |nodes| == 0 then [] else [nodes[0].data] + DataOf(nodes[1..])
  }

  lemma {:induction false} DataOfAppend<T>(nodes: seq<QueueNode<T>>, node: QueueNode<T>)
    ensures DataOf(nodes + [node]) == DataOf(nodes) + [node.data]
  {
    if |nodes| > 0 {
      assert (nodes + [node])[1..] == nodes[1..] + [node];
      DataOfAppend(nodes[1..], node);
    }
  }

  /** What PullWithWorkingBlock finds: an item, items in progress to wait for, or a dried-up queue. */
  datatype Look<T> = Taken(item: T) | MustWait | Dry

  function LookForWork<T>(queue: seq<T>, working: int): Look<T> {
    if |queue| > 0 then Taken(queue[0]) else if working > 0 then MustWait else Dry
  }

  class Queue<T> {
    var count: int
    var head: QueueNode?<T>
    var tail: QueueNode?<T>
    var working: int
    ghost var nodes: seq<QueueNode<T>>

    /** `nodes` lists the chain from `head`; `tail` is its last node and nil exactly when `head` is. */
    ghost predicate Valid()
      reads this, nodes
    {
      && count == |nodes|
      && Chain(nodes)
      && head == (if |nodes| == 0 then null else nodes[0])
      && tail == (if |nodes| == 0 then null else nodes[|nodes| - 1])
    }

    /** The queued data, first to be pulled first. */
    ghost function Contents(): seq<T>
      reads this
    {
      DataOf(nodes)
    }

    constructor ()
      ensures Valid() && Contents() == [] && nodes == [] && working == 0
    {
      count, head, tail, working := 0, null, null, 0;
      nodes := [];
    }

    /** Append a node that is in no chain. */
    method Push(node: QueueNode<T>)
      requires Valid() && node !in nodes && node.next == null
      modifies this, tail
      ensures Valid() && nodes == old(nodes) + [node]
      ensures Contents() == old(Contents()) + [node.data]
      ensures working == old(working)
    {
      if tail == null {
        head := node;
        tail := node;
        count := 1;
      } else {
        tail.next := node;
        tail := node;
        count := count + 1;
      }
      DataOfAppend(nodes, node);
      nodes := nodes + [node];
      assert forall i | 0 <= i < |nodes| :: nodes[i].next == Following(nodes, i);
    }

    /** Remove and return the first node, detached so that it can be pushed again; nil when there is none. */
    method PullWithOutLock() returns (node: QueueNode?<T>)
      requires Valid()
      modifies this, head
      ensures Valid() && working == old(working)
      ensures node == null <==> old(Contents()) == []
      ensures node == null ==> nodes == []
      ensures node != null ==>
                && old(nodes) == [node] + nodes && node.next == null
                && old(Contents()) == [node.data] + Contents()
    {
      node := null;
      if head != null {
        node := head;
        head := node.next;
        if head == null {
          tail := null;
        }
        node.next := null;
        count := count - 1;
        assert nodes == [node] + nodes[1..];
        nodes := nodes[1..];
        assert forall i | 0 <= i < |nodes| :: Following(nodes, i) == Following(old(nodes), i + 1);
      } else {
        count := 0;
      }
    }

    /** One look at the queue under the lock by PullWithWorkingBlock. */
    method TryPullWithWorkingBlock() returns (node: QueueNode?<T>, wait: bool)
      requires Valid()
      modifies this, head
      ensures Valid()
      ensures match LookForWork(old(Contents()), old(working))
              case Taken(x) =>
                && node != null && node.data == x && node.next == null && old(nodes) == [node] + nodes && !wait
                && Contents() == old(Contents())[1..] && working == old(working) + 1
              case MustWait => node == null && wait && Contents() == [] && working == old(working)
              case Dry => node == null && !wait && Contents() == [] && working == old(working)
    {
      ghost var before := Contents();
      node := PullWithOutLock();
      wait := false;
      if node != null {
        assert before[1..] == Contents();
        working := working + 1;
      } else {
        wait := working > 0;
      }
    }

    method Finish(n: int)
      requires Valid()
      modifies this`working
      ensures Valid() && working == old(working) - n && Contents() == old(Contents())
    {
      working := working - n;
    }

    /** The chain is forgotten, not cut: a cleaned node keeps its `next`. */
    method Clean()
      requires Valid()
      modifies this`count, this`head, this`tail, this`nodes
      ensures Valid() && nodes == [] && Contents() == [] && working == old(working)
    {
      count := 0;
      head := null;
      tail := null;
      nodes := [];
    }

    method GetCount() returns (n: int)
      requires Valid()
      ensures n == |Contents()|
    {
      n := count;
    }
  }

  datatype Op<T> = Push(data: T) | Pull | Clean

  /** One operation on the list: the list it leaves, and what it returns. */
  function Step<T>(op: Op<T>, list: seq<T>): (seq<T>, seq<T>) {
    match op
    case Push(x) => (list + [x], [])
    case Clean => ([], [])
    case Pull => if |list| == 0 then ([], []) else (list[1..], [list[0]])
  }

  /** The list a sequence of operations leaves, and what its pulls return. */
  function Replay<T>(ops: seq<Op<T>>, list: seq<T>): (seq<T>, seq<T>)
    decreases |ops|
  {
    if |ops| == 0 then (list, [])
    else
      var (list', out) := Step(ops[0], list);
      var (final, outs) := Replay(ops[1..], list');
      (final, out + outs)
  }

  function Pushed<T>(ops: seq<Op<T>>): seq<T>
    decreases |ops|
  {
    if |ops| == 0 then [] else (if ops[0].Push? then [ops[0].data] else []) + Pushed(ops[1..])
  }

  /** Without cleans the pulled data followed by what is left is the pushed data, in order. */
  lemma {:induction false} FirstInFirstOut<T>(ops: seq<Op<T>>, list: seq<T>)
    requires forall op | op in ops :: !op.Clean?
    ensures Replay(ops, list).1 + Replay(ops, list).0 == list + Pushed(ops)
    decreases |ops|
  {
    if |ops| > 0 {
      var (list', out) := Step(ops[0], list);
      assert !ops[0].Clean? && forall op | op in ops[1..] :: op in ops;
      FirstInFirstOut(ops[1..], list');
      var (final, outs) := Replay(ops[1..], list');
      var added := if ops[0].Push? then [ops[0].data] else [];
      StepAdds(ops[0], list);
      hide Step;
      OneMore(out, outs, final, list, list', added, Pushed(ops[1..]));
    }
  }

  lemma StepAdds<T>(op: Op<T>, list: seq<T>)
    requires !op.Clean?
    ensures Step(op, list).1 + Step(op, list).0 == list + if op.Push? then [op.data] else []
  {
  }

  lemma OneMore<T>(out: seq<T>, outs: seq<T>, final: seq<T>, list: seq<T>, list': seq<T>, added: seq<T>, rest: seq<T>)
    requires outs + final == list' + rest && out + list' == list + added
    ensures out + outs + final == list + (added + rest)
  {
    assert out + outs + final == out + (outs + final);
    assert out + (list' + rest) == out + list' + rest;
    assert list + added + rest == list + (added + rest);
  }

  method Apply<T(0)>(q: Queue<T>, op: Op<T>) returns (out: seq<T>)
    requires q.Valid()
    modifies q, q.tail, q.head
    ensures q.Valid() && fresh(set n | n in q.nodes && n !in old(q.nodes))
    ensures (q.Contents(), out) == Step(op, old(q.Contents()))
  {
    out := [];
    match op {
      case Push(x) =>
        var node := new QueueNode(x);
        q.Push(node);
      case Pull =>
        ghost var before := q.Contents();
        var node := q.PullWithOutLock();
        if node != null {
          out := [node.data];
          assert before[1..] == q.Contents();
        }
      case Clean =>
        q.Clean();
    }
  }

  /** Drive a queue through any operations: it behaves as the list of `Replay`. */
  method Drive<T(0)>(q: Queue<T>, ops: seq<Op<T>>) returns (pulled: seq<T>)
    requires q.Valid()
    modifies q, q.nodes
    ensures q.Valid()
    ensures (q.Contents(), pulled) == Replay(ops, old(q.Contents()))
  {
    pulled := [];
    ghost var all := Replay(ops, q.Contents());
    assert ops[0..] == ops && pulled + all.1 == all.1;
    for i := 0 to |ops|
      invariant q.Valid() && fresh(set n | n in q.nodes && n !in old(q.nodes))
      invariant var (final, outs) := Replay(ops[i..], q.Contents()); (final, pulled + outs) == all
    {
      ghost var list := q.Contents();
      var out := Apply(q, ops[i]);
      ReplayStep(ops, i, list, pulled, out, q.Contents());
      pulled := pulled + out;
    }
    assert ops[|ops|..] == [] && pulled + [] == pulled;
  }

  lemma ReplayStep<T>(ops: seq<Op<T>>, i: nat, list: seq<T>, pulled: seq<T>, out: seq<T>, list': seq<T>)
    requires i < |ops| && (list', out) == Step(ops[i], list)
    ensures Replay(ops[i..], list).0 == Replay(ops[i + 1..], list').0
    ensures pulled + Replay(ops[i..], list).1 == pulled + out + Replay(ops[i + 1..], list').1
  {
    hide Step;
    var rest := ops[i + 1..];
    assert ops[i..][0] == ops[i] && ops[i..][1..] == rest;
    var outs := Replay(rest, list').1;
    assert pulled + (out + outs) == pulled + out + outs;
  }

  // ---------------------------------------------------------------------------------------------
  // Termination detection

  datatype Worker<T> = Idle | Busy(item: T) | Exited

  /** The queue shared by workers; `pushed` and `finished` record history. */
  datatype Shared<T> = Shared(queue: seq<T>, working: int, workers: seq<Worker<T>>,
                              pushed: multiset<T>, finished: multiset<T>)

  /** A worker pulls; a busy one pushes any number of items and then finishes its item once. */
  datatype Action<T> = PullBy(worker: nat) | PushBy(worker: nat, data: T) | FinishBy(worker: nat)

  ghost predicate Enabled<T>(s: Shared<T>, a: Action<T>) {
    && a.worker < |s.workers|
    && match a
       case PullBy(w) => s.workers[w].Idle?
       case PushBy(w, _) => s.workers[w].Busy?
       case FinishBy(w) => s.workers[w].Busy?
  }

  ghost function Perform<T>(s: Shared<T>, a: Action<T>): Shared<T>
    requires Enabled(s, a)
  {
    match a
    case PullBy(w) =>
      (match LookForWork(s.queue, s.working)
       case Taken(x) => s.(queue := s.queue[1..], working := s.working + 1, workers := s.workers[w := Busy(x)])
       case MustWait => s
       case Dry => s.(workers := s.workers[w := Exited]))
    case PushBy(w, x) => s.(queue := s.queue + [x], pushed := s.pushed + multiset{x})
    case FinishBy(w) =>
      s.(working := s.working - 1, workers := s.workers[w := Idle], finished := s.finished + multiset{s.workers[w].item})
  }

  function HeldBy<T>(worker: Worker<T>): multiset<T> {
    if worker.Busy? then multiset{worker.item} else multiset{}
  }

  function InHand<T>(workers: seq<Worker<T>>): multiset<T> {
    if |workers| == 0 then multiset{}
    else InHand(workers[..|workers| - 1]) + HeldBy(workers[|workers| - 1])
  }

  ghost predicate SharedInv<T>(s: Shared<T>) {
    && s.working == |InHand(s.workers)|
    && s.pushed == multiset(s.queue) + InHand(s.workers) + s.finished
    && ((exists w :: 0 <= w < |s.workers| && s.workers[w].Exited?) ==> s.queue == [] && s.working == 0)
  }

  /** Changing one worker changes the items in hand by that worker's item. */
  lemma {:induction false} InHandUpdate<T>(workers: seq<Worker<T>>, w: nat, worker: Worker<T>)
    requires w < |workers|
    ensures InHand(workers[w := worker]) + HeldBy(workers[w]) == InHand(workers) + HeldBy(worker)
  {
    var n := |workers| - 1;
    var was, now, workers' := HeldBy(workers[w]), HeldBy(worker), workers[w := worker];
    var last, before, after := HeldBy(workers'[n]), InHand(workers[..n]), InHand(workers'[..n]);
    assert InHand(workers') == after + last;
    if w < n {
      assert workers'[..n] == workers[..n][w := worker];
      InHandUpdate(workers[..n], w, worker);
      Rearrange(after, before, last, was, now);
    } else {
      assert workers'[..n] == workers[..n];
      assert InHand(workers) == before + was;
      Exchange(before, now, was);
    }
  }

  lemma Exchange<T>(base: multiset<T>, x: multiset<T>, y: multiset<T>)
    ensures base + x + y == base + y + x
  {
  }

  lemma Rearrange<T>(after: multiset<T>, before: multiset<T>, last: multiset<T>, was: multiset<T>, now: multiset<T>)
    requires after + was == before + now
    ensures after + last + was == before + last + now
  {
    Exchange(after, last, was);
    Exchange(before, last, now);
  }

  lemma {:induction false} InHandHas<T>(workers: seq<Worker<T>>, w: nat)
    requires w < |workers| && workers[w].Busy?
    ensures workers[w].item in InHand(workers)
  {
    if w < |workers| - 1 {
      InHandHas(workers[..|workers| - 1], w);
    }
  }

  lemma {:induction false} NobodyBusy<T>(workers: seq<Worker<T>>)
    requires forall w | 0 <= w < |workers| :: !workers[w].Busy?
    ensures InHand(workers) == multiset{}
  {
    if |workers| > 0 {
      NobodyBusy(workers[..|workers| - 1]);
    }
  }

  lemma TakeKeepsInv<T>(s: Shared<T>, w: nat)
    requires SharedInv(s) && Enabled(s, PullBy(w)) && |s.queue| > 0
    ensures SharedInv(Perform(s, PullBy(w)))
  {
    var x, held, rest := s.queue[0], InHand(s.workers), s.queue[1..];
    InHandUpdate(s.workers, w, Busy(x));
    hide InHand;
    var held' := InHand(s.workers[w := Busy(x)]);
    PlusOne(held', held, x);
    HeadFirst(s.queue);
    MoveToHand(multiset(s.queue), multiset(rest), held, s.finished, x);
  }

  lemma PlusOne<T>(held': multiset<T>, held: multiset<T>, x: T)
    requires held' + multiset{} == held + multiset{x}
    ensures held' == held + multiset{x} && |held'| == |held| + 1
  {
  }

  lemma HeadFirst<T>(queue: seq<T>)
    requires |queue| > 0
    ensures multiset(queue) == multiset{queue[0]} + multiset(queue[1..])
  {
    assert queue == [queue[0]] + queue[1..];
  }

  lemma MoveToHand<T>(queue: multiset<T>, rest: multiset<T>, held: multiset<T>, finished: multiset<T>, x: T)
    requires queue == multiset{x} + rest
    ensures queue + held + finished == rest + (held + multiset{x}) + finished
  {
  }

  lemma LeaveKeepsInv<T>(s: Shared<T>, w: nat)
    requires SharedInv(s) && Enabled(s, PullBy(w)) && |s.queue| == 0
    ensures SharedInv(Perform(s, PullBy(w)))
  {
    if s.working <= 0 {
      InHandUpdate(s.workers, w, Exited);
      assert InHand(s.workers[w := Exited]) + multiset{} == InHand(s.workers) + multiset{};
    }
  }

  lemma FinishKeepsInv<T>(s: Shared<T>, w: nat)
    requires SharedInv(s) && Enabled(s, FinishBy(w))
    ensures SharedInv(Perform(s, FinishBy(w)))
  {
    var x, held := s.workers[w].item, InHand(s.workers);
    InHandHas(s.workers, w);
    InHandUpdate(s.workers, w, Idle);
    var held' := InHand(s.workers[w := Idle]);
    assert held == held' + multiset{x};
    MoveToHand(held, held', multiset(s.queue), s.finished, x);
    assert multiset(s.queue) + held + s.finished == multiset(s.queue) + held' + (s.finished + multiset{x});
  }

  lemma ActionKeepsInv<T>(s: Shared<T>, a: Action<T>)
    requires SharedInv(s) && Enabled(s, a)
    ensures SharedInv(Perform(s, a))
  {
    match a
    case PullBy(w) =>
      if |s.queue| > 0 {
        TakeKeepsInv(s, w);
      } else {
        LeaveKeepsInv(s, w);
      }
    case PushBy(w, _) => InHandHas(s.workers, w);
    case FinishBy(w) => FinishKeepsInv(s, w);
  }

  ghost predicate Runs<T>(states: seq<Shared<T>>, actions: seq<Action<T>>) {
    && |states| == |actions| + 1
    && forall i | 0 <= i < |actions| :: Enabled(states[i], actions[i]) && states[i + 1] == Perform(states[i], actions[i])
  }

  /** Workers start idle on a queue filled beforehand. */
  ghost predicate Fresh<T>(s: Shared<T>) {
    && (forall w | 0 <= w < |s.workers| :: s.workers[w].Idle?)
    && s.working == 0 && s.pushed == multiset(s.queue) && s.finished == multiset{}
  }

  lemma {:induction false} InvAlways<T>(states: seq<Shared<T>>, actions: seq<Action<T>>, i: nat)
    requires Runs(states, actions) && Fresh(states[0]) && i < |states|
    ensures SharedInv(states[i])
  {
    if i == 0 {
      NobodyBusy(states[0].workers);
    } else {
      InvAlways(states, actions, i - 1);
      ActionKeepsInv(states[i - 1], actions[i - 1]);
    }
  }

  /**
    Once one pull has returned nil, every item ever pushed has been pulled and finished, nothing is
    pushed any more, and every later pull returns nil.
   */
  lemma NilIsFinal<T>(states: seq<Shared<T>>, actions: seq<Action<T>>, i: nat, j: nat)
    requires Runs(states, actions) && Fresh(states[0]) && i <= j < |states| && i < |actions|
    requires actions[i].PullBy? && LookForWork(states[i].queue, states[i].working).Dry?
    ensures states[j].queue == [] && states[j].working == 0
    ensures states[j].finished == states[j].pushed == states[i].pushed
    ensures j < |actions| ==> actions[j].PullBy? && LookForWork(states[j].queue, states[j].working).Dry?
  {
    NilStays(states, actions, i, j);
    InvAlways(states, actions, j);
    hide SharedInv;
    DryIsDone(states[j]);
    if j < |actions| {
      DryAgain(states[j], actions[j]);
    }
  }

  lemma {:induction false} NilStays<T>(states: seq<Shared<T>>, actions: seq<Action<T>>, i: nat, j: nat)
    requires Runs(states, actions) && Fresh(states[0]) && i <= j < |states| && i < |actions|
    requires LookForWork(states[i].queue, states[i].working).Dry?
    ensures states[j].queue == [] && states[j].working == 0 && states[j].pushed == states[i].pushed
    decreases j
  {
    hide SharedInv;
    hide LookForWork;
    hide Runs;
    hide Fresh;
    hide Perform;
    hide Enabled;
    if j == i {
      InvAlways(states, actions, i);
      DryIsEmpty(states[i]);
    } else {
      NilStays(states, actions, i, j - 1);
      InvAlways(states, actions, j - 1);
      RunStep(states, actions, j - 1);
      DryAgain(states[j - 1], actions[j - 1]);
    }
  }

  lemma RunStep<T>(states: seq<Shared<T>>, actions: seq<Action<T>>, k: nat)
    requires Runs(states, actions) && k + 1 < |states|
    ensures k < |actions| && Enabled(states[k], actions[k]) && states[k + 1] == Perform(states[k], actions[k])
  {
  }

  lemma DryIsEmpty<T>(s: Shared<T>)
    requires SharedInv(s) && LookForWork(s.queue, s.working).Dry?
    ensures s.queue == [] && s.working == 0
  {
  }

  /** Without items and without work in hand, everything is finished. */
  lemma DryIsDone<T>(s: Shared<T>)
    requires SharedInv(s) && s.queue == [] && s.working == 0
    ensures s.finished == s.pushed
  {
    hide InHand;
    assert InHand(s.workers) == multiset{};
  }

  /** From then on every step is a pull that returns nil. */
  lemma DryAgain<T>(s: Shared<T>, a: Action<T>)
    requires SharedInv(s) && Enabled(s, a) && s.queue == [] && s.working == 0
    ensures a.PullBy? && LookForWork(s.queue, s.working).Dry?
    ensures var t := Perform(s, a); t.queue == [] && t.working == 0 && t.pushed == s.pushed
  {
    if !a.PullBy? {
      InHandHas(s.workers, a.worker);
    }
  }

  /** A pull only waits while some worker is busy, so waiting is never in vain. */
  lemma WaitingHasAReason<T>(states: seq<Shared<T>>, actions: seq<Action<T>>, i: nat)
    requires Runs(states, actions) && Fresh(states[0]) && i < |states|
    requires LookForWork(states[i].queue, states[i].working).MustWait?
    ensures exists w :: 0 <= w < |states[i].workers| && states[i].workers[w].Busy?
  {
    InvAlways(states, actions, i);
    if forall w | 0 <= w < |states[i].workers| :: !states[i].workers[w].Busy? {
      NobodyBusy(states[i].workers);
    }
  }
}
