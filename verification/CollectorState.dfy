/**
  Stateful collection: full or incremental runs decided by the saved state, and what the raw table
  holds after any number of runs.
 */
module CollectorState {
  import opened Wrappers
  import opened Paging
  import opened ApiCollector

  datatype LatestState = LatestState(timeAfter: Option<int>, latestSuccessStart: Option<int>)

  /** The persistent part: the raw rows of this collector and its saved state. */
  datatype Store = Store(raw: multiset<Record>, state: LatestState)

  /**
    A run may fail before it has changed anything (creating the table or deleting its rows fails), or
    later, having saved `got`, some of the rows it would have saved.
   */
  datatype Outcome = Success | Untouched | Failure(got: multiset<Record>)

  /** One run of the list collector, and after it of the detail collector, which saves `details`. */
  datatype Run = Run(timeAfter: Option<int>, start: int, listing: seq<Record>, addressing: Addressing, hooks: Hooks,
                     details: multiset<Record>, outcome: Outcome)

  predicate IsIncremental(state: LatestState, timeAfter: Option<int>) {
    if state.latestSuccessStart.None? then false
    else if timeAfter.Some? then state.timeAfter.None? || timeAfter.value >= state.timeAfter.value
    else state.timeAfter.None?
  }

  function CreatedAfter(state: LatestState, timeAfter: Option<int>): Option<int> {
    if IsIncremental(state, timeAfter) then state.latestSuccessStart else timeAfter
  }

  function RemoteOf(state: LatestState, run: Run): Remote {
    Remote(run.listing, run.addressing, CreatedAfter(state, run.timeAfter))
  }

  /** All the rows that the two collectors of a run add. */
  function Obtained(state: LatestState, run: Run): multiset<Record> {
    multiset(Gathered(RemoteOf(state, run), run.hooks)) + run.details
  }

  /** The store after one run. */
  function After(store: Store, run: Run): Store {
    var kept := if IsIncremental(store.state, run.timeAfter) then store.raw else multiset{};
    match run.outcome
    case Success =>
      Store(kept + Obtained(store.state, run), LatestState(run.timeAfter, Some(run.start)))
    case Untouched =>
      store
    case Failure(got) =>
      Store(kept + got, store.state)
  }

  /** A record created then is to be collected by a run with this TimeAfter. */
  predicate InRange(timeAfter: Option<int>, created: int) {
    timeAfter.None? || created >= timeAfter.value
  }

  /**
    A run is incremental exactly when there has been a successful run and every record this run is to
    collect by its TimeAfter is one that run was to collect.
   */
  lemma IncrementalIff(state: LatestState, timeAfter: Option<int>)
    ensures IsIncremental(state, timeAfter) <==>
              && state.latestSuccessStart.Some?
              && forall created | InRange(timeAfter, created) :: InRange(state.timeAfter, created)
  {
    if timeAfter.Some? {
      assert InRange(timeAfter, timeAfter.value);
    } else if state.timeAfter.Some? {
      assert InRange(timeAfter, state.timeAfter.value - 1) && !InRange(state.timeAfter, state.timeAfter.value - 1);
    }
  }

  /** What a run makes of the store, by its outcome. */
  lemma AfterIs(store: Store, run: Run)
    ensures var after := After(store, run);
            var incremental := IsIncremental(store.state, run.timeAfter);
            && (run.outcome.Success? ==> after.state == LatestState(run.timeAfter, Some(run.start)))
            && (!run.outcome.Success? ==> after.state == store.state)
            && (run.outcome.Untouched? ==> after.raw == store.raw)
            && (run.outcome.Failure? ==> after.raw == if incremental then store.raw + run.outcome.got else run.outcome.got)
            && forall r | run.outcome.Success? ::
                 after.raw[r] == (if incremental then store.raw[r] else 0)
                                 + multiset(Gathered(RemoteOf(store.state, run), run.hooks))[r] + run.details[r]
  {
  }

  /**
    An incremental run collects again less than a page of records from before the last successful one,
    and a full run less than a page of records from before its TimeAfter.
   */
  lemma CollectsFewAgain(state: LatestState, run: Run)
    requires Stoppable(RemoteOf(state, run)) && run.hooks.pageSize >= 1
    ensures var rows := Gathered(RemoteOf(state, run), run.hooks);
            && rows <= run.listing
            && (IsIncremental(state, run.timeAfter) ==>
                  state.latestSuccessStart.Some?
                  && |set i | 0 <= i < |rows| && rows[i].created < state.latestSuccessStart.value| < run.hooks.pageSize)
            && (!IsIncremental(state, run.timeAfter) && run.timeAfter.Some? ==>
                  |set i | 0 <= i < |rows| && rows[i].created < run.timeAfter.value| < run.hooks.pageSize)
  {
    var remote := RemoteOf(state, run);
    GathersFewUnwanted(remote, run.hooks);
    var rows := Gathered(remote, run.hooks);
    if remote.filter.Some? {
      assert (set i | 0 <= i < |rows| && rows[i].created < remote.filter.value)
             == (set i | 0 <= i < |rows| && !Wanted(remote.items[i], remote.filter));
    }
  }

  class Database {
    var raw: multiset<Record>
    var state: LatestState

    constructor ()
      ensures raw == multiset{} && state == LatestState(None, None)
    {
      raw, state := multiset{}, LatestState(None, None);
    }

    function Content(): Store
      reads this
    {
      Store(raw, state)
    }
  }

  class ApiCollectorStateManager {
    const db: Database
    const timeAfter: Option<int>
    const executeStart: int
    var latestState: LatestState

    constructor (db: Database, timeAfter: Option<int>, now: int)
      ensures this.db == db && this.timeAfter == timeAfter && executeStart == now && latestState == db.state
    {
      this.db, this.timeAfter, this.executeStart := db, timeAfter, now;
      latestState := db.state;
    }

    method CollectList(remote: Remote, hooks: Hooks, workers: int) returns (rows: seq<Record>)
      requires Stoppable(remote)
      ensures multiset(rows) == multiset(Gathered(remote, hooks))
    {
      var requests;
      rows, requests := Exec(remote, hooks, false, workers);
    }

    /**
      Run the list collector, then the detail collector, which never deletes, and record the new
      state. `outcome` tells whether and where a failure strikes, the write of the state included.
     */
    method Execute(listing: seq<Record>, addressing: Addressing, hooks: Hooks, workers: int, details: multiset<Record>,
                   outcome: Outcome)
      returns (ok: bool)
      requires latestState == db.state
      requires Stoppable(RemoteOf(latestState, Run(timeAfter, executeStart, listing, addressing, hooks, details, outcome)))
      modifies this, db
      ensures ok <==> outcome.Success?
      ensures db.Content() == After(old(db.Content()), Run(timeAfter, executeStart, listing, addressing, hooks, details, outcome))
      ensures latestState == db.state
    {
      var incremental := IsIncremental(latestState, timeAfter);
      var createdAfter := if incremental then latestState.latestSuccessStart else timeAfter;
      if outcome.Untouched? {
        return false;
      }
      if !incremental {
        db.raw := multiset{};
      }
      if outcome.Failure? {
        db.raw := db.raw + outcome.got;
        return false;
      }
      var rows := CollectList(Remote(listing, addressing, createdAfter), hooks, workers);
      db.raw := db.raw + multiset(rows);
      db.raw := db.raw + details;
      latestState := LatestState(timeAfter, Some(executeStart));
      db.state := latestState;
      return true;
    }
  }

  // ---------------------------------------------------------------------------------------------
  // Runs over time

  /** A store, the remote listing as of the latest run, and when that run started. */
  datatype World = World(store: Store, listing: seq<Record>, clock: int)

  /** The remote only gains records, and those are dated no earlier than `since`. */
  ghost predicate Grows(before: seq<Record>, after: seq<Record>, since: int) {
    && (forall r | r in before :: r in after)
    && (forall r | r in after && r !in before :: r.created >= since)
  }

  /** A run the collector's documentation allows at this point in time. */
  ghost predicate Allowed(w: World, run: Run) {
    && run.start >= w.clock
    && Grows(w.listing, run.listing, w.clock)
    && Stoppable(RemoteOf(w.store.state, run))
    && Complete(RemoteOf(w.store.state, run), run.hooks)
    && (run.outcome.Failure? ==> run.outcome.got <= Obtained(w.store.state, run))
  }

  function Next(w: World, run: Run): World {
    World(After(w.store, run), run.listing, run.start)
  }

  /** `r` was created within the window that the saved state claims to have collected. */
  predicate InWindow(state: LatestState, r: Record) {
    && state.latestSuccessStart.Some? && r.created < state.latestSuccessStart.value
    && (state.timeAfter.Some? ==> r.created >= state.timeAfter.value)
  }

  /** The raw table holds every listed record created in `[TimeAfter, LatestSuccessStart)`. */
  ghost predicate Covered(w: World) {
    forall r | r in w.listing && InWindow(w.store.state, r) :: r in w.store.raw
  }

  ghost predicate WorldInv(w: World) {
    && Covered(w)
    && (w.store.state.latestSuccessStart.Some? ==> w.store.state.latestSuccessStart.value <= w.clock)
  }

  /** A successful run, full or incremental, keeps and extends the coverage. */
  lemma SuccessCovers(w: World, run: Run)
    requires WorldInv(w) && Allowed(w, run) && run.outcome.Success?
    ensures WorldInv(Next(w, run))
    ensures Next(w, run).store.state.latestSuccessStart == Some(run.start)
  {
    var remote := RemoteOf(w.store.state, run);
    var rows := Gathered(remote, run.hooks);
    forall r | r in run.listing && InWindow(Next(w, run).store.state, r)
      ensures r in Next(w, run).store.raw
    {
      if Wanted(r, remote.filter) {
        var i :| 0 <= i < |run.listing| && run.listing[i] == r;
        CompleteGathersWanted(remote, run.hooks, i);
        assert r in multiset(rows);
      } else {
        // only an incremental run leaves such a record to the rows it keeps
        assert r in w.listing && InWindow(w.store.state, r);
      }
    }
  }

  /** A run that fails before it changes anything keeps the coverage of the grown listing. */
  lemma UntouchedCovers(w: World, run: Run)
    requires WorldInv(w) && Allowed(w, run) && run.outcome.Untouched?
    ensures WorldInv(Next(w, run))
  {
    forall r | r in run.listing && InWindow(w.store.state, r) ensures r in w.store.raw {
      assert r in w.listing;
    }
  }

  /** A failed incremental run leaves the state alone and only adds rows. */
  lemma FailedIncrementalCovers(w: World, run: Run)
    requires WorldInv(w) && Allowed(w, run) && run.outcome.Failure?
    requires IsIncremental(w.store.state, run.timeAfter)
    ensures WorldInv(Next(w, run))
  {
    forall r | r in run.listing && InWindow(w.store.state, r) ensures r in Next(w, run).store.raw {
      assert r in w.listing;
    }
  }

  /**
    A failed run keeps the coverage, whatever part of its rows it managed to save, exactly when it is
    incremental or the window holds no listed record. A full run deletes before it collects.
   */
  lemma FailedRunCoversIff(w: World, run: Run)
    requires WorldInv(w) && Allowed(w, run) && run.outcome.Failure?
    ensures (forall got | got <= Obtained(w.store.state, run)
                :: Covered(Next(w, run.(outcome := Failure(got)))))
            <==> (IsIncremental(w.store.state, run.timeAfter)
                  || NothingClaimed(w.store.state, run.listing))
  {
    if IsIncremental(w.store.state, run.timeAfter) {
      forall got | got <= Obtained(w.store.state, run)
        ensures Covered(Next(w, run.(outcome := Failure(got))))
      {
        FailedIncrementalCovers(w, run.(outcome := Failure(got)));
      }
    } else {
      var nothing := Next(w, run.(outcome := Failure(multiset{})));
      assert nothing.store.raw == multiset{} && nothing.store.state == w.store.state;
      assert Covered(nothing) <==> forall r | r in run.listing :: !InWindow(w.store.state, r);
    }
  }

  function RunAll(w: World, runs: seq<Run>): World
    decreases |runs|
  {
    if |runs| == 0 then w else RunAll(Next(w, runs[0]), runs[1..])
  }

  /** Nothing of the listing lies in the window that the saved state claims. */
  ghost predicate NothingClaimed(state: LatestState, listing: seq<Record>) {
    forall r | r in listing :: !InWindow(state, r)
  }

  /** Every run is allowed where it happens, and a full run fails midway only when nothing is claimed yet. */
  ghost predicate AllAllowed(w: World, runs: seq<Run>)
    decreases |runs|
  {
    |runs| > 0 ==>
      && Allowed(w, runs[0])
      && (runs[0].outcome.Failure? ==>
            IsIncremental(w.store.state, runs[0].timeAfter) || NothingClaimed(w.store.state, runs[0].listing))
      && AllAllowed(Next(w, runs[0]), runs[1..])
  }

  /** Coverage over whole histories. */
  lemma {:induction false} SyncCoverage(w: World, runs: seq<Run>)
    requires WorldInv(w) && AllAllowed(w, runs)
    ensures WorldInv(RunAll(w, runs))
    decreases |runs|
  {
    if |runs| > 0 {
      if runs[0].outcome.Success? {
        SuccessCovers(w, runs[0]);
      } else if runs[0].outcome.Untouched? {
        UntouchedCovers(w, runs[0]);
      } else if IsIncremental(w.store.state, runs[0].timeAfter) {
        FailedIncrementalCovers(w, runs[0]);
      }
      SyncCoverage(Next(w, runs[0]), runs[1..]);
    }
  }

  /** Coverage from a fresh database. */
  lemma SyncCoverageFromScratch(listing: seq<Record>, clock: int, runs: seq<Run>)
    requires AllAllowed(World(Store(multiset{}, LatestState(None, None)), listing, clock), runs)
    ensures Covered(RunAll(World(Store(multiset{}, LatestState(None, None)), listing, clock), runs))
  {
    SyncCoverage(World(Store(multiset{}, LatestState(None, None)), listing, clock), runs);
  }

  /**
    Why failed full runs are excluded: a run with an earlier TimeAfter deletes the rows and fails, the
    next run is incremental again and succeeds, and an old record is missing from then on.
   */
  lemma FailedFullRunLosesRecord() returns (w: World, failed: Run, later: Run)
    ensures WorldInv(w) && Allowed(w, failed) && failed.outcome.Failure?
    ensures Allowed(Next(w, failed), later) && later.outcome.Success?
    ensures IsIncremental(Next(w, failed).store.state, later.timeAfter)
    ensures !Covered(RunAll(w, [failed, later]))
  {
    var r := Record(1, 5);
    var listing, hooks := [r], Hooks(1, None, None, 1);
    w := World(Store(multiset{r}, LatestState(Some(3), Some(10))), listing, 10);
    failed := Run(Some(1), 15, listing, ByPage, hooks, multiset{}, Failure(multiset{}));
    later := Run(Some(3), 20, listing, ByPage, hooks, multiset{}, Success);
    var w1 := Next(w, failed);
    var remote := RemoteOf(w1.store.state, later);
    assert WantedLen(remote.items, remote.filter) == 0;
    assert Gathered(remote, hooks) == [] && Obtained(w1.store.state, later) == multiset{};
    assert RunAll(w, [failed, later]) == Next(w1, later) by {
      assert [failed, later][1..] == [later] && [later][1..] == [];
      assert RunAll(w1, [later]) == RunAll(Next(w1, later), []);
    }
    assert r in listing && InWindow(Next(w1, later).store.state, r);
  }
}
