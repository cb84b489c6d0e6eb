/** The migration script runner: pending scripts, run in version order, resumable from the history table. */
module Migrators {
  import opened Sequences
  import opened Sorting

  /** Name and version identify a script. */
  datatype Script = Script(name: string, version: nat)

  /** What becomes of one attempt: Up fails, Up succeeds but its history row is not written, or both succeed. */
  datatype Outcome = UpFails | HistoryFails | Succeeds

  function Version(script: Script): Key {
    (script.version, 0)
  }

  /** Every successful Up is recorded or an orphan. */
  ghost predicate Balanced(records: seq<Script>, ups: seq<Script>, orphans: seq<Script>) {
    multiset(ups) == multiset(records) + multiset(orphans)
  }

  lemma StaysBalanced(records: seq<Script>, ups: seq<Script>, orphans: seq<Script>, s: Script)
    requires Balanced(records, ups, orphans)
    ensures Balanced(records + [s], ups + [s], orphans) && Balanced(records, ups + [s], orphans + [s])
  {
  }

  /** The database: the history table, and what the scripts have done to it. */
  class History {
    var records: seq<Script>
    /** Every successful Up so far, and those of them whose history row was not written. */
    ghost var ups: seq<Script>
    ghost var orphans: seq<Script>

    ghost predicate Valid()
      reads this
    {
      Distinct(records) && Balanced(records, ups, orphans)
    }

    constructor ()
      ensures Valid() && records == [] && ups == [] && orphans == []
    {
      records, ups, orphans := [], [], [];
    }
  }

  ghost predicate Partition(scripts: seq<Script>, pending: seq<Script>, executed: set<Script>, records: seq<Script>) {
    && (forall s :: s in executed <==> s in records)
    && Distinct(scripts) && Distinct(pending)
    && forall s :: s in pending <==> s in scripts && s !in executed
  }

  /** Recording the first pending script moves it from the pending to the executed ones. */
  lemma PartitionMoves(scripts: seq<Script>, pending: seq<Script>, executed: set<Script>, records: seq<Script>)
    requires Partition(scripts, pending, executed, records) && pending != [] && Distinct(records)
    ensures Partition(scripts, pending[1..], executed + {pending[0]}, records + [pending[0]])
    ensures Distinct(records + [pending[0]])
  {
    var script := pending[0];
    assert script in pending;
    DistinctTail(pending);
    DistinctAppend(records, script);
    hide Distinct;
  }

  class Migrator {
    const db: History
    var executed: set<Script>
    var scripts: seq<Script>
    var pending: seq<Script>

    /** Executed is what the history says; pending are the registered scripts that are not executed. */
    ghost predicate Valid()
      reads this, db
    {
      db.Valid() && Partition(scripts, pending, executed, db.records)
    }

    /** Start with the history of the database. */
    constructor (db: History)
      requires db.Valid()
      ensures Valid() && this.db == db && scripts == []
    {
      this.db := db;
      executed, scripts, pending := set s | s in db.records, [], [];
    }

    method Register(batch: seq<Script>)
      requires Valid() && Distinct(scripts + batch)
      modifies this
      ensures Valid() && scripts == old(scripts) + batch && executed == old(executed)
    {
      for i := 0 to |batch|
        invariant Valid() && scripts == old(scripts) + batch[..i] && executed == old(executed)
      {
        var script := batch[i];
        assert old(scripts) + batch[..i + 1] == scripts + [script];
        assert script !in scripts by {
          assert forall k | 0 <= k < |scripts| :: (old(scripts) + batch)[k] == scripts[k];
          assert (old(scripts) + batch)[|scripts|] == script;
        }
        scripts := scripts + [script];
        if script !in executed {
          pending := pending + [script];
        }
      }
      assert batch[..|batch|] == batch;
    }

    /**
      Run the pending scripts one by one in version order, stopping at the first failure. `order` is
      the order the sort came up with and `done` the number of scripts that succeeded.
     */
    method Execute(outcomes: nat -> Outcome) returns (ok: bool, order: seq<Script>, done: nat)
      requires Valid()
      modifies this, db
      ensures Valid() && scripts == old(scripts)
      ensures multiset(order) == multiset(old(pending)) && Sorted(order, Version) && done <= |order|
      ensures forall i, j | 0 <= i < j < |order| :: order[i].version <= order[j].version
      ensures pending == order[done..] && db.records == old(db.records) + order[..done]
      ensures forall n | 0 <= n < done :: outcomes(n) == Succeeds
      ensures ok <==> done == |order|
      ensures !ok ==> outcomes(done) != Succeeds
      ensures var orphan := if !ok && outcomes(done).HistoryFails? then [order[done]] else [];
              db.ups == old(db.ups) + order[..done] + orphan && db.orphans == old(db.orphans) + orphan
    {
      hide Valid;
      hide Sorted;
      SortPending();
      order := pending;
      ByVersion(order);
      done := 0;
      assert order[..0] == [];
      while done < |order|
        invariant done <= |order| && pending == order[done..]
        invariant db.records == old(db.records) + order[..done] && db.ups == old(db.ups) + order[..done]
        invariant db.orphans == old(db.orphans) && scripts == old(scripts)
        invariant forall k | 0 <= k < done :: outcomes(k) == Succeeds
        invariant Valid()
      {
        assert order[..done + 1] == order[..done] + [order[done]];
        ok := RunNext(outcomes(done));
        if !ok {
          return;
        }
        done := done + 1;
      }
      ok := true;
    }

    lemma ByVersion(order: seq<Script>)
      requires Sorted(order, Version)
      ensures forall i, j | 0 <= i < j < |order| :: order[i].version <= order[j].version
    {
    }

    method SortPending()
      requires Valid()
      modifies this`pending
      ensures Valid() && multiset(pending) == multiset(old(pending)) && Sorted(pending, Version)
    {
      var order := SortByKey(pending, Version);
      PermutationKeepsDistinct(pending, order);
      forall s ensures s in pending <==> s in order {
        PermutationKeepsMembers(pending, order, s);
      }
      pending := order;
    }

    /** Run the first pending script. */
    method RunNext(outcome: Outcome) returns (ok: bool)
      requires Valid() && pending != []
      modifies this, db
      ensures Valid() && scripts == old(scripts)
      ensures ok <==> outcome == Succeeds
      ensures ok ==> pending == old(pending)[1..] && db.records == old(db.records) + [old(pending)[0]]
      ensures !ok ==> pending == old(pending) && db.records == old(db.records)
      ensures db.ups == old(db.ups) + if outcome == UpFails then [] else [old(pending)[0]]
      ensures db.orphans == old(db.orphans) + if outcome == HistoryFails then [old(pending)[0]] else []
    {
      hide Partition;
      hide Balanced;
      hide Distinct;
      var script := pending[0];
      StaysBalanced(db.records, db.ups, db.orphans, script);
      PartitionMoves(scripts, pending, executed, db.records);
      if outcome == UpFails {
        return false;
      }
      db.ups := db.ups + [script];
      if outcome == HistoryFails {
        db.orphans := db.orphans + [script];
        return false;
      }
      db.records := db.records + [script];
      executed := executed + {script};
      pending := pending[1..];
      ok := true;
    }
  }

  // ---------------------------------------------------------------------------------------------
  // Any number of calls, whatever the order of scripts

  /** What the attempts of one call of Execute meet: the n-th one, outcome n. */
  type Call = nat -> Outcome

  /** How many of `n` pending scripts succeed in one call. */
  function Succeeded(call: Call, n: nat): (done: nat)
    ensures done <= n && (forall k | 0 <= k < done :: call(k) == Succeeds) && (done < n ==> call(done) != Succeeds)
  {
    if n == 0 then 0
    else
      var before := Succeeded(call, n - 1);
      if before == n - 1 && call(n - 1) == Succeeds then n else before
  }

  /** The call ends between a successful Up and its history row. */
  predicate Interrupted(call: Call, n: nat) {
    Succeeded(call, n) < n && call(Succeeded(call, n)) == HistoryFails
  }

  /** How many of `n` pending scripts are left after all calls. */
  function LeftAfter(calls: seq<Call>, n: nat): nat {
    if |calls| == 0 then n
    else
      var left := LeftAfter(calls[..|calls| - 1], n);
      left - Succeeded(calls[|calls| - 1], left)
  }

  /** How many of the calls end between a successful Up and its history row. */
  function Interruptions(calls: seq<Call>, n: nat): nat {
    if |calls| == 0 then 0
    else
      Interruptions(calls[..|calls| - 1], n)
      + if Interrupted(calls[|calls| - 1], LeftAfter(calls[..|calls| - 1], n)) then 1 else 0
  }

  lemma SucceededIs(call: Call, n: nat, done: nat)
    requires done <= n && (forall k | 0 <= k < done :: call(k) == Succeeds) && (done < n ==> call(done) != Succeeds)
    ensures Succeeded(call, n) == done
  {
  }

  ghost predicate NoHistoryFails(calls: seq<Call>) {
    forall i, n: nat | 0 <= i < |calls| :: calls[i](n) != HistoryFails
  }

  /** Where Up and its history row succeed or fail together, no call is interrupted. */
  lemma {:induction false} TogetherNeverInterrupts(calls: seq<Call>, n: nat)
    requires NoHistoryFails(calls)
    ensures Interruptions(calls, n) == 0
  {
    if |calls| > 0 {
      TogetherNeverInterrupts(calls[..|calls| - 1], n);
    }
  }

  /** One process: the calls of Execute it makes. */
  type Life = seq<Call>

  function CallsOf(lives: seq<Life>): seq<Call> {
    if |lives| == 0 then [] else CallsOf(lives[..|lives| - 1]) + lives[|lives| - 1]
  }

  /** In no process does a history row fail after its Up. */
  ghost predicate AlwaysTogether(lives: seq<Life>) {
    forall i, j, n: nat | 0 <= i < |lives| && 0 <= j < |lives[i]| :: lives[i][j](n) != HistoryFails
  }

  lemma {:induction false} TogetherInCalls(lives: seq<Life>)
    requires AlwaysTogether(lives)
    ensures NoHistoryFails(CallsOf(lives))
  {
    if |lives| > 0 {
      TogetherInCalls(lives[..|lives| - 1]);
    }
  }

  ghost function Unrecorded(scripts: seq<Script>, records: seq<Script>): set<Script> {
    set s | s in scripts && s !in records
  }

  /** Every script that has been recorded succeeded exactly once, orphans aside. */
  lemma RecordedOnce(records: seq<Script>, ups: seq<Script>, orphans: seq<Script>, s: Script)
    requires Distinct(records) && Balanced(records, ups, orphans) && s in records
    ensures multiset(ups)[s] == 1 <==> s !in orphans
  {
    CountOnce(records, s);
    assert s in orphans <==> s in multiset(orphans);
  }

  /** What the database holds after some calls, with `n0` scripts unrecorded at first. */
  ghost predicate Lived(records: seq<Script>, orphans: seq<Script>, scripts: seq<Script>,
                        records0: seq<Script>, orphans0: seq<Script>, calls: seq<Call>, n0: nat)
  {
    && records0 <= records && (forall s | s in records :: s in records0 || s in scripts)
    && orphans0 <= orphans && (forall k | |orphans0| <= k < |orphans| :: orphans[k] in scripts)
    && |Unrecorded(scripts, records)| == LeftAfter(calls, n0)
    && |orphans| == |orphans0| + Interruptions(calls, n0)
  }

  /** What a call does to the records and orphans, when its scripts come in this order. */
  ghost predicate Called(records: seq<Script>, orphans: seq<Script>, records': seq<Script>, orphans': seq<Script>,
                         order: seq<Script>, call: Call)
  {
    var done := Succeeded(call, |order|);
    && records' == records + order[..done]
    && orphans' == orphans + if Interrupted(call, |order|) then [order[done]] else []
  }

  lemma CallLives(records: seq<Script>, orphans: seq<Script>, records': seq<Script>, orphans': seq<Script>,
                  scripts: seq<Script>, records0: seq<Script>, orphans0: seq<Script>,
                  calls: seq<Call>, n0: nat, order: seq<Script>, call: Call)
    requires Lived(records, orphans, scripts, records0, orphans0, calls, n0)
    requires Called(records, orphans, records', orphans', order, call)
    requires (forall s | s in order :: s in scripts) && |order| == |Unrecorded(scripts, records)|
    requires |Unrecorded(scripts, records')| == |order| - Succeeded(call, |order|)
    ensures Lived(records', orphans', scripts, records0, orphans0, calls + [call], n0)
  {
    CallGrows(calls, call, n0);
    hide LeftAfter;
    hide Interruptions;
    var done := Succeeded(call, |order|);
    assert forall s | s in order[..done] :: s in order;
    assert done < |order| ==> order[done] in order;
  }

  /** One call of one process. */
  method CallOnce(m: Migrator, call: Call, ghost records0: seq<Script>, ghost orphans0: seq<Script>,
                  ghost calls: seq<Call>, ghost n0: nat)
    returns (ok: bool)
    requires m.Valid() && Lived(m.db.records, m.db.orphans, m.scripts, records0, orphans0, calls, n0)
    modifies m, m.db
    ensures m.Valid() && m.scripts == old(m.scripts)
    ensures Lived(m.db.records, m.db.orphans, m.scripts, records0, orphans0, calls + [call], n0)
    ensures ok <==> LeftAfter(calls + [call], n0) == 0
  {
    hide Lived;
    ghost var pending, records, orphans := m.pending, m.db.records, m.db.orphans;
    DistinctCount(pending, Unrecorded(m.scripts, records));
    var order, done;
    ok, order, done := m.Execute(call);
    SameLength(pending, order);
    SucceededIs(call, |order|, done);
    forall s | s in order ensures s in m.scripts {
      PermutationKeepsMembers(pending, order, s);
    }
    DistinctCount(m.pending, Unrecorded(m.scripts, m.db.records));
    CallLives(records, orphans, m.db.records, m.db.orphans, m.scripts, records0, orphans0, calls, n0, order, call);
    LeftIs(m.db.records, m.db.orphans, m.scripts, records0, orphans0, calls + [call], n0);
  }

  lemma LeftIs(records: seq<Script>, orphans: seq<Script>, scripts: seq<Script>,
               records0: seq<Script>, orphans0: seq<Script>, calls: seq<Call>, n0: nat)
    requires Lived(records, orphans, scripts, records0, orphans0, calls, n0)
    ensures |Unrecorded(scripts, records)| == LeftAfter(calls, n0)
  {
  }

  /** One process makes its calls. */
  method LiveOnce(db: History, scripts: seq<Script>, life: Life, ok0: bool,
                  ghost records0: seq<Script>, ghost orphans0: seq<Script>, ghost calls: seq<Call>, ghost n0: nat)
    returns (ok: bool)
    requires db.Valid() && Distinct(scripts) && Lived(db.records, db.orphans, scripts, records0, orphans0, calls, n0)
    requires ok0 <==> calls != [] && LeftAfter(calls, n0) == 0
    modifies db
    ensures db.Valid() && Lived(db.records, db.orphans, scripts, records0, orphans0, calls + life, n0)
    ensures ok <==> calls + life != [] && LeftAfter(calls + life, n0) == 0
  {
    hide Lived;
    hide LeftAfter;
    ok := ok0;
    var m := new Migrator(db);
    assert [] + scripts == scripts;
    m.Register(scripts);
    assert calls + life[..0] == calls;
    for j := 0 to |life|
      invariant m.Valid() && m.db == db && m.scripts == scripts && fresh(m)
      invariant Lived(db.records, db.orphans, scripts, records0, orphans0, calls + life[..j], n0)
      invariant ok <==> calls + life[..j] != [] && LeftAfter(calls + life[..j], n0) == 0
    {
      assert calls + life[..j + 1] == calls + life[..j] + [life[j]];
      ok := CallOnce(m, life[j], records0, orphans0, calls + life[..j], n0);
    }
    assert life[..|life|] == life;
  }

  lemma CallGrows(calls: seq<Call>, call: Call, n: nat)
    ensures var left := LeftAfter(calls, n);
            && LeftAfter(calls + [call], n) == left - Succeeded(call, left)
            && Interruptions(calls + [call], n) == Interruptions(calls, n) + if Interrupted(call, left) then 1 else 0
  {
    assert (calls + [call])[..|calls|] == calls;
  }

  /**
    Any number of processes against the same database, each registering the same scripts and
    executing any number of times. The last call succeeds exactly when no script is left, every script
    is then in the history, and each ran exactly once exactly when no call was interrupted.
   */
  method Live(db: History, scripts: seq<Script>, lives: seq<Life>) returns (ok: bool)
    requires db.Valid() && Distinct(scripts)
    modifies db
    ensures db.Valid()
    ensures Lived(db.records, db.orphans, scripts, old(db.records), old(db.orphans), CallsOf(lives),
                  |Unrecorded(scripts, old(db.records))|)
    ensures ok <==> CallsOf(lives) != [] && LeftAfter(CallsOf(lives), |Unrecorded(scripts, old(db.records))|) == 0
    ensures ok ==> forall s | s in scripts :: s in db.records
    ensures ok && (forall s | s in scripts :: s !in old(db.orphans)) ==>
              ((forall s | s in scripts :: multiset(db.ups)[s] == 1)
               <==> Interruptions(CallsOf(lives), |Unrecorded(scripts, old(db.records))|) == 0)
    ensures AlwaysTogether(lives) ==> db.orphans == old(db.orphans)
  {
    hide LeftAfter;
    hide Interruptions;
    hide Unrecorded;
    hide NoHistoryFails;
    hide AlwaysTogether;
    ok := false;
    ghost var n0 := |Unrecorded(scripts, db.records)|;
    NoCalls(n0);
    assert lives[..0] == [];
    for i := 0 to |lives|
      invariant db.Valid()
      invariant Lived(db.records, db.orphans, scripts, old(db.records), old(db.orphans), CallsOf(lives[..i]), n0)
      invariant ok <==> CallsOf(lives[..i]) != [] && LeftAfter(CallsOf(lives[..i]), n0) == 0
    {
      assert lives[..i + 1][..i] == lives[..i];
      ok := LiveOnce(db, scripts, lives[i], ok, old(db.records), old(db.orphans), CallsOf(lives[..i]), n0);
    }
    assert lives[..|lives|] == lives;
    if AlwaysTogether(lives) {
      TogetherInCalls(lives);
      TogetherNeverInterrupts(CallsOf(lives), n0);
    }
    if ok {
      AllRecorded(scripts, db.records);
      OnceIff(db, scripts, old(db.orphans));
    }
  }

  lemma NoCalls(n: nat)
    ensures LeftAfter([], n) == n && Interruptions([], n) == 0
  {
  }

  lemma AllRecorded(scripts: seq<Script>, records: seq<Script>)
    requires |Unrecorded(scripts, records)| == 0
    ensures forall s | s in scripts :: s in records
  {
    forall s | s in scripts ensures s in records {
      assert s !in Unrecorded(scripts, records);
    }
  }

  lemma OnceIff(db: History, scripts: seq<Script>, orphans0: seq<Script>)
    requires db.Valid() && (forall s | s in scripts :: s in db.records) && orphans0 <= db.orphans
    requires forall k | |orphans0| <= k < |db.orphans| :: db.orphans[k] in scripts
    ensures (forall s | s in scripts :: s !in orphans0) ==>
              ((forall s | s in scripts :: multiset(db.ups)[s] == 1) <==> |db.orphans| == |orphans0|)
  {
    forall s | s in scripts ensures multiset(db.ups)[s] == 1 <==> s !in db.orphans {
      RecordedOnce(db.records, db.ups, db.orphans, s);
    }
    if |db.orphans| > |orphans0| {
      assert db.orphans[|orphans0|] in db.orphans;
    } else {
      assert db.orphans == orphans0;
    }
  }

  /** A script whose history row is not written the first time runs twice. */
  method ScriptRunsTwice(script: Script) returns (db: History)
    ensures db.records == [script] && multiset(db.ups)[script] == 2
  {
    db := new History();
    var lives := [[(_: nat) => HistoryFails], [(_: nat) => Succeeds]];
    InterruptedOnce(lives, script);
    var _ := Live(db, [script], lives);
    OnlyRecord(db.records, script);
    assert db.orphans == [script];
    assert multiset(db.ups) == multiset([script]) + multiset([script]);
  }

  lemma InterruptedOnce(lives: seq<Life>, script: Script)
    requires |lives| == 2 && |lives[0]| == 1 == |lives[1]| && lives[0][0](0) == HistoryFails && lives[1][0](0) == Succeeds
    ensures |Unrecorded([script], [])| == 1 && CallsOf(lives) != []
    ensures LeftAfter(CallsOf(lives), 1) == 0 && Interruptions(CallsOf(lives), 1) == 1
  {
    assert Unrecorded([script], []) == {script};
    var a, b := lives[0][0], lives[1][0];
    var none: seq<Life> := [];
    assert lives[..1] == [lives[0]] && [lives[0]][..0] == none;
    assert CallsOf([lives[0]]) == CallsOf([]) + lives[0] == [a];
    assert CallsOf(lives) == [a] + [b];
    CallGrows([], a, 1);
    assert [] + [a] == [a];
    CallGrows([a], b, 1);
    SucceededIs(a, 1, 0);
    SucceededIs(b, 1, 1);
  }

  lemma OnlyRecord(records: seq<Script>, script: Script)
    requires Distinct(records) && script in records && forall s | s in records :: s == script
    ensures records == [script]
  {
    DistinctCount(records, {script});
    assert records[0] in records;
  }
}
