/** Rebuilding a whole table under a new struct, row by row, with the old one kept until the end. */
module TransformTables {
  import opened Wrappers
  import opened Sequences
  import opened Tables
  import opened BatchSaves
  import MigrationHelper

  const BATCH_SIZE: nat := 200

  type Transform = Entity -> Option<Entity>

  /** The transformed rows, as far as the transform succeeds. */
  function Transformed(rows: seq<Entity>, transform: Transform): seq<Entity> {
    if |rows| == 0 then []
    else Transformed(rows[..|rows| - 1], transform)
         + match transform(rows[|rows| - 1]) case None => [] case Some(row) => [row]
  }

  /** What a batch has put into an empty table at the end: the last flush happens at close. */
  function Copied(rows: seq<Entity>, close: bool): Table {
    var b := AddAll(Buffer(map[], []), BATCH_SIZE, rows);
    if close then Closed(b) else b.table
  }

  /** No two rows share a key string, and each has one. */
  ghost predicate KeysDiffer(rows: seq<Entity>) {
    && (forall i | 0 <= i < |rows| :: KeyValue(Stripped(rows[i]).pk) != "")
    && (forall i, j | 0 <= i < j < |rows| :: KeyValue(Stripped(rows[i]).pk) != KeyValue(Stripped(rows[j]).pk))
  }

  /** A row with a new key takes the next slot; the last slot triggers the flush. */
  lemma NewKeyAdds(b: Buffer, row: Entity)
    requires KeyValue(Stripped(row).pk) != ""
    requires forall i | 0 <= i < |b.slots| :: KeyValue(b.slots[i].pk) != KeyValue(Stripped(row).pk)
    ensures var slots := b.slots + [Stripped(row)];
            AddTo(b, BATCH_SIZE, row) == if |slots| == BATCH_SIZE then Buffer(Upsert(b.table, slots), []) else Buffer(b.table, slots)
  {
    hide Upsert;
    hide Stripped;
    hide KeyValue;
  }

  lemma SlotsStep(all: seq<Entity>, k: nat, row: Entity)
    requires |all| > 0 && k < |all| && all[|all| - 1] == Stripped(row)
    requires KeyValue(Stripped(row).pk) != ""
    requires forall i | k <= i < |all| - 1 :: KeyValue(all[i].pk) != KeyValue(Stripped(row).pk)
    ensures AddTo(Buffer(Upsert(map[], all[..k]), all[k..|all| - 1]), BATCH_SIZE, row)
            == if |all| - k == BATCH_SIZE then Buffer(Upsert(map[], all), []) else Buffer(Upsert(map[], all[..k]), all[k..])
  {
    hide AddTo;
    hide Upsert;
    hide Stripped;
    hide KeyValue;
    var slots := all[k..|all| - 1];
    SlotsSplit(all, k);
    forall i | 0 <= i < |slots| ensures KeyValue(slots[i].pk) != KeyValue(Stripped(row).pk) {
      assert slots[i] == all[k + i];
    }
    NewKeyAdds(Buffer(Upsert(map[], all[..k]), slots), row);
    UpsertAppend(map[], all[..k], all[k..]);
  }

  lemma SlotsSplit(all: seq<Entity>, k: nat)
    requires k < |all|
    ensures all[k..|all| - 1] + [all[|all| - 1]] == all[k..] && all[..k] + all[k..] == all
  {
  }

  /** The number of rows in full batches. */
  function Full(n: nat): (k: nat)
    ensures k <= n && n - k == n % BATCH_SIZE
  {
    if n == 0 then 0 else if n - Full(n - 1) == BATCH_SIZE then n else Full(n - 1)
  }

  /** A batch is full with 200 rows. */
  lemma FullIs(n: nat)
    ensures Full(n) == n / 200 * 200
  {
    assert n == n / 200 * 200 + n % 200;
  }

  lemma FullStep(n: nat)
    ensures Full(n + 1) == if n + 1 - Full(n) == BATCH_SIZE then n + 1 else Full(n)
  {
  }

  lemma {:induction false} SlotsLeft(rows: seq<Entity>)
    requires KeysDiffer(rows)
    ensures var all, k := StrippedAll(rows), Full(|rows|);
            AddAll(Buffer(map[], []), BATCH_SIZE, rows) == Buffer(Upsert(map[], all[..k]), all[k..])
  {
    var all := StrippedAll(rows);
    if |rows| > 0 {
      var init, last := rows[..|rows| - 1], rows[|rows| - 1];
      SlotsLeft(init);
      hide AddTo;
      hide Upsert;
      hide KeyValue;
      hide Stripped;
      var some, k := StrippedAll(init), Full(|init|);
      SlicesAgree(all, some, k);
      SlotsStep(all, k, last);
      var b := AddAll(Buffer(map[], []), BATCH_SIZE, init);
      assert AddAll(Buffer(map[], []), BATCH_SIZE, rows) == AddTo(b, BATCH_SIZE, last);
      if |all| - k == BATCH_SIZE {
        assert Full(|rows|) == |rows|;
      } else {
        assert Full(|rows|) == k;
      }
    }
  }

  lemma SlicesAgree(all: seq<Entity>, some: seq<Entity>, k: nat)
    requires |all| == |some| + 1 && k <= |some| && some == all[..|some|]
    ensures some[..k] == all[..k] && some[k..] == all[k..|all| - 1]
    ensures all[..|all|] == all && all[|all|..] == []
  {
  }

  /** What the slots hold is in the table already; of rows with the same key the last one counts. */
  ghost predicate Held(table: Table, slots: seq<Entity>) {
    forall i | 0 <= i < |slots| && IsLast(slots, i) :: Has(table, slots[i])
  }

  ghost predicate IsLast(rows: seq<Entity>, i: nat) {
    i < |rows| && forall j | i < j < |rows| :: rows[j].pk != rows[i].pk
  }

  ghost predicate Has(table: Table, row: Entity) {
    row.pk in table && table[row.pk] == row
  }

  lemma {:induction false} UpsertHasLast(table: Table, rows: seq<Entity>, i: nat)
    requires IsLast(rows, i)
    ensures Has(Upsert(table, rows), rows[i])
  {
    var n := |rows| - 1;
    if i < n {
      assert IsLast(rows[..n], i);
      UpsertHasLast(table, rows[..n], i);
    }
  }

  lemma {:induction false} LastOf(rows: seq<Entity>, row: Entity) returns (i: nat)
    requires row in rows
    ensures IsLast(rows, i) && rows[i].pk == row.pk
  {
    i := |rows| - 1;
    if rows[i].pk != row.pk {
      assert rows == rows[..i] + [rows[i]];
      i := LastOf(rows[..i], row);
    }
  }

  /** Upserting rows changes nothing exactly when the table holds them. */
  lemma UpsertNothingIff(table: Table, rows: seq<Entity>)
    ensures Upsert(table, rows) == table <==> Held(table, rows)
  {
    forall i | 0 <= i < |rows| && IsLast(rows, i) ensures Has(Upsert(table, rows), rows[i]) {
      UpsertHasLast(table, rows, i);
    }
    if Held(table, rows) {
      forall pk: Pk
        ensures pk in Upsert(table, rows) <==> pk in table
        ensures pk in table ==> Upsert(table, rows)[pk] == table[pk]
      {
        if row :| row in rows && row.pk == pk {
          var i := LastOf(rows, row);
          assert Has(table, rows[i]) && Has(Upsert(table, rows), rows[i]);
        } else {
          UpsertLeaves(table, rows, pk);
        }
      }
    }
  }

  /** Whether the last flush succeeds makes no difference exactly when the table holds what is in the slots. */
  lemma NothingLostIff(rows: seq<Entity>)
    ensures var b := AddAll(Buffer(map[], []), BATCH_SIZE, rows);
            Copied(rows, false) == Copied(rows, true) <==> Held(b.table, b.slots)
  {
    var b := AddAll(Buffer(map[], []), BATCH_SIZE, rows);
    UpsertNothingIff(b.table, b.slots);
  }

  /** With key strings that differ, what is copied is a prefix of the rows: all of them, or the full batches. */
  lemma CopiedIs(rows: seq<Entity>, close: bool)
    requires KeysDiffer(rows)
    ensures Copied(rows, close) == Upsert(map[], StrippedAll(rows)[..if close then |rows| else Full(|rows|)])
  {
    SlotsLeft(rows);
    hide AddAll;
    hide Upsert;
    hide StrippedAll;
    hide KeysDiffer;
    hide Full;
    Joined(StrippedAll(rows), Full(|rows|));
  }

  lemma Joined(all: seq<Entity>, k: nat)
    requires k <= |all|
    ensures Upsert(Upsert(map[], all[..k]), all[k..]) == Upsert(map[], all[..|all|])
  {
    UpsertAppend(map[], all[..k], all[k..]);
    assert all[..k] + all[k..] == all[..|all|];
  }

  lemma PrefixHas(all: seq<Entity>, n: nat, i: nat)
    requires n <= |all| && i < |all| && forall j | 0 <= j < |all| && j != i :: all[j].pk != all[i].pk
    ensures i < n ==> Has(Upsert(map[], all[..n]), all[i])
    ensures i >= n ==> all[i].pk !in Upsert(map[], all[..n])
  {
    if i < n {
      assert IsLast(all[..n], i);
      UpsertHasLast(map[], all[..n], i);
    } else {
      UpsertLeaves(map[], all[..n], all[i].pk);
    }
  }

  lemma CopiedAt(rows: seq<Entity>, close: bool, i: nat)
    requires KeysDiffer(rows) && i < |rows|
    ensures close || i < Full(|rows|) ==> Has(Copied(rows, close), Stripped(rows[i]))
    ensures !close && i >= Full(|rows|) ==> Stripped(rows[i]).pk !in Copied(rows, close)
  {
    CopiedIs(rows, close);
    DistinctKeys(rows, i);
    PrefixHas(StrippedAll(rows), if close then |rows| else Full(|rows|), i);
  }

  lemma DistinctKeys(rows: seq<Entity>, i: nat)
    requires KeysDiffer(rows) && i < |rows|
    ensures forall j | 0 <= j < |rows| && j != i :: StrippedAll(rows)[j].pk != StrippedAll(rows)[i].pk
  {
    forall j | 0 <= j < |rows| && j != i ensures StrippedAll(rows)[j].pk != StrippedAll(rows)[i].pk {
      assert KeyValue(Stripped(rows[if i < j then i else j]).pk) != KeyValue(Stripped(rows[if i < j then j else i]).pk);
    }
  }

  // ---------------------------------------------------------------------------------------------
  // From the old table to the new one

  /** The rows of a table in the order a cursor yields them. */
  ghost predicate Lists(rows: seq<Entity>, table: Table) {
    && (forall i | 0 <= i < |rows| :: Has(table, rows[i]))
    && (forall pk | pk in table :: exists i :: 0 <= i < |rows| && rows[i].pk == pk)
    && (forall i, j | 0 <= i < j < |rows| :: rows[i].pk != rows[j].pk)
  }

  /** Every row of the old table is in the new one, transformed. */
  ghost predicate Kept(before: Table, after: Table, transform: Transform) {
    forall pk | pk in before :: transform(before[pk]).Some? && Has(after, Stripped(transform(before[pk]).value))
  }

  lemma ListsAll(rows: seq<Entity>, table: Table)
    requires Lists(rows, table)
    ensures |rows| == |table|
  {
    var pks := seq(|rows|, i requires 0 <= i < |rows| => rows[i].pk);
    forall pk ensures pk in table.Keys <==> pk in pks {
      if pk in table {
        var i :| 0 <= i < |rows| && rows[i].pk == pk;
        assert pks[i] == pk;
      }
      if pk in pks {
        var i :| 0 <= i < |pks| && pks[i] == pk;
        assert Has(table, rows[i]);
      }
    }
    DistinctCount(pks, table.Keys);
  }

  lemma {:induction false} TransformedAt(rows: seq<Entity>, transform: Transform)
    ensures |Transformed(rows, transform)| <= |rows|
    ensures |Transformed(rows, transform)| == |rows| ==>
              forall i | 0 <= i < |rows| :: transform(rows[i]).Some? && Transformed(rows, transform)[i] == transform(rows[i]).value
  {
    if |rows| > 0 {
      TransformedAt(rows[..|rows| - 1], transform);
    }
  }

  /**
    A copy whose transformed rows have different key strings keeps every row of the old table exactly
    when the last flush succeeds or the rows fill whole batches.
   */
  lemma KeptIff(before: Table, rows: seq<Entity>, transform: Transform, close: bool)
    requires Lists(rows, before) && |Transformed(rows, transform)| == |rows| && KeysDiffer(Transformed(rows, transform))
    ensures Kept(before, Copied(Transformed(rows, transform), close), transform) <==> close || |before| % BATCH_SIZE == 0
  {
    ListsAll(rows, before);
    TransformedAt(rows, transform);
    var ts := Transformed(rows, transform);
    var n := |rows|;
    assert Full(n) == n <==> n % BATCH_SIZE == 0;
    hide Full;
    hide Copied;
    if close || Full(n) == n {
      forall pk | pk in before
        ensures transform(before[pk]).Some? && Has(Copied(ts, close), Stripped(transform(before[pk]).value))
      {
        var i :| 0 <= i < n && rows[i].pk == pk;
        assert Has(before, rows[i]);
        CopiedAt(ts, close, i);
      }
    } else {
      assert Has(before, rows[n - 1]);
      CopiedAt(ts, close, n - 1);
      assert rows[n - 1].pk in before;
    }
  }

  /** Which statements succeed; a failing migrate may have created the table all the same. */
  datatype Outcomes = Outcomes(
    autoIncrement: bool, rename: bool, migrate: bool, left: bool, open: bool, fetch: nat -> bool, flush: nat -> bool,
    close: bool, dropTmp: bool, undoDrop: bool, undoRename: bool)

  /** The same tables with the same rows, this one aside. */
  ghost predicate SameExcept(a: map<string, Table>, b: map<string, Table>, name: string) {
    forall t | t != name :: (t in a <==> t in b) && (t in a ==> a[t] == b[t])
  }

  ghost predicate SameExceptTwo(a: map<string, Table>, b: map<string, Table>, name: string, other: string) {
    forall t | t != name && t != other :: (t in a <==> t in b) && (t in a ==> a[t] == b[t])
  }

  method RenameTable(db: Database, from: string, to: string, dbOk: bool) returns (ok: bool)
    modifies db
    ensures ok <==> dbOk && from in old(db.tables) && to !in old(db.tables)
    ensures !ok ==> db.tables == old(db.tables)
    ensures ok ==> to in db.tables && db.tables[to] == old(db.tables)[from]
    ensures ok ==> from !in db.tables && SameExceptTwo(db.tables, old(db.tables), from, to)
  {
    ok := dbOk && from in db.tables && to !in db.tables;
    if ok {
      db.tables := (db.tables - {from})[to := db.tables[from]];
    }
  }

  method DropTable(db: Database, name: string, dbOk: bool) returns (ok: bool)
    modifies db
    ensures ok == dbOk
    ensures db.tables == if ok then old(db.tables) - {name} else old(db.tables)
  {
    ok := dbOk;
    if ok {
      db.tables := db.tables - {name};
    }
  }

  /** Creates the table if it is not there. */
  method AutoMigrate(db: Database, name: string, left: bool, dbOk: bool) returns (ok: bool)
    modifies db
    ensures ok == dbOk
    ensures db.tables == if name !in old(db.tables) && (ok || left) then old(db.tables)[name := map[]] else old(db.tables)
  {
    ok := dbOk;
    if name !in db.tables && (ok || left) {
      db.tables := db.tables[name := map[]];
    }
  }

  /** Copy the rows through a batch that is closed by a deferred call whose error nobody looks at. */
  method CopyTableColumns(db: Database, src: string, rows: seq<Entity>, dst: string, transform: Transform, outcomes: Outcomes)
    returns (ok: bool)
    requires src in db.tables && Lists(rows, db.tables[src])
    requires dst in db.tables && db.tables[dst] == map[]
    modifies db
    ensures dst in db.tables && SameExcept(db.tables, old(db.tables), dst)
    ensures ok ==> |Transformed(rows, transform)| == |rows|
    ensures ok ==> db.tables[dst] == Copied(Transformed(rows, transform), outcomes.close)
    ensures ok && KeysDiffer(Transformed(rows, transform)) ==>
              (Kept(old(db.tables)[src], db.tables[dst], transform)
               <==> outcomes.close || |old(db.tables)[src]| % BATCH_SIZE == 0)
    ensures Copyable(rows, transform, outcomes) ==> ok
  {
    hide BatchSave.Valid;
    hide Lists;
    hide Kept;
    hide KeysDiffer;
    if !outcomes.open {
      return false;
    }
    var batch := new BatchSave(db, dst, BATCH_SIZE);
    ok := FillBatch(batch, rows, transform, outcomes);
    label filled:
    var _ := batch.Close(outcomes.close);
    forall t | t != dst
      ensures (t in db.tables <==> t in old(db.tables)) && (t in db.tables ==> db.tables[t] == old(db.tables)[t])
    {
      assert old@filled(db.Rows(t)) == db.Rows(t);
      assert t in old@filled(db.tables) <==> t in db.tables;
    }
    if ok && KeysDiffer(Transformed(rows, transform)) {
      KeptIff(old(db.tables)[src], rows, transform, outcomes.close);
    }
  }

  method FillBatch(batch: BatchSave, rows: seq<Entity>, transform: Transform, outcomes: Outcomes) returns (ok: bool)
    requires batch.Valid() && batch.size == BATCH_SIZE && batch.current == 0
    requires batch.table in batch.db.tables && batch.db.tables[batch.table] == map[]
    modifies batch, batch.db
    ensures batch.Valid()
    ensures batch.table in batch.db.tables && SameExcept(batch.db.tables, old(batch.db.tables), batch.table)
    ensures ok ==> |Transformed(rows, transform)| == |rows|
    ensures ok ==> batch.Buffered() == AddAll(Buffer(map[], []), BATCH_SIZE, Transformed(rows, transform))
    ensures (forall n :: outcomes.fetch(n) && outcomes.flush(n)) && (forall r | r in rows :: transform(r).Some?) ==> ok
  {
    hide BatchSave.Valid;
    hide AddTo;
    var i := 0;
    assert rows[..0] == [];
    while i < |rows|
      invariant i <= |rows| && batch.Valid() && batch.current < BATCH_SIZE
      invariant |Transformed(rows[..i], transform)| == i
      invariant batch.Buffered() == AddAll(Buffer(map[], []), BATCH_SIZE, Transformed(rows[..i], transform))
      invariant batch.table in batch.db.tables && SameExcept(batch.db.tables, old(batch.db.tables), batch.table)
    {
      assert rows[..i + 1][..i] == rows[..i];
      if !outcomes.fetch(i) || transform(rows[i]).None? {
        return false;
      }
      var row := transform(rows[i]).value;
      AddAllStep(Transformed(rows[..i], transform), row);
      assert Transformed(rows[..i + 1], transform) == Transformed(rows[..i], transform) + [row];
      label step:
      ok := batch.Add(row, outcomes.flush(i));
      forall t | t != batch.table
        ensures t in batch.db.tables <==> t in old(batch.db.tables)
        ensures t in batch.db.tables ==> batch.db.tables[t] == old(batch.db.tables)[t]
      {
        assert old@step(batch.db.Rows(t)) == batch.db.Rows(t);
        assert t in old@step(batch.db.tables) <==> t in batch.db.tables;
      }
      if !ok {
        return;
      }
      i := i + 1;
    }
    assert rows[..|rows|] == rows;
    ok := true;
  }

  lemma AddAllStep(rows: seq<Entity>, row: Entity)
    ensures AddAll(Buffer(map[], []), BATCH_SIZE, rows + [row])
            == AddTo(AddAll(Buffer(map[], []), BATCH_SIZE, rows), BATCH_SIZE, row)
  {
    assert (rows + [row])[..|rows|] == rows;
  }

  /** The old table stands under its temporary name; the rest is as it was. */
  ghost predicate Moved(now: map<string, Table>, before: map<string, Table>, name: string, tmp: string) {
    && name != tmp && name in before && tmp !in before
    && tmp in now && now[tmp] == before[name] && SameExceptTwo(now, before, name, tmp)
  }

  lemma StaysMoved(now: map<string, Table>, next: map<string, Table>, before: map<string, Table>, name: string, tmp: string)
    requires Moved(now, before, name, tmp) && SameExcept(next, now, name)
    ensures Moved(next, before, name, tmp)
  {
  }

  /** Create the new table and copy into it; it is dropped when the copy fails. */
  method Rebuild(db: Database, name: string, tmp: string, rows: seq<Entity>, transform: Transform, outcomes: Outcomes,
                 ghost before: map<string, Table>)
    returns (ok: bool)
    requires Moved(db.tables, before, name, tmp) && name !in db.tables && Lists(rows, before[name])
    modifies db
    ensures Moved(db.tables, before, name, tmp)
    ensures ok ==> outcomes.migrate && name in db.tables && |Transformed(rows, transform)| == |rows|
    ensures ok ==> db.tables[name] == Copied(Transformed(rows, transform), outcomes.close)
    ensures ok && KeysDiffer(Transformed(rows, transform)) ==>
              (Kept(before[name], db.tables[name], transform) <==> outcomes.close || |before[name]| % BATCH_SIZE == 0)
    ensures !ok && outcomes.undoDrop ==> (name in db.tables <==> !outcomes.migrate && outcomes.left)
    ensures outcomes.migrate && Copyable(rows, transform, outcomes) ==> ok
  {
    hide Lists;
    hide Kept;
    hide KeysDiffer;
    hide Copied;
    hide Transformed;
    hide Copyable;
    ghost var t0 := db.tables;
    ok := AutoMigrate(db, name, outcomes.left, outcomes.migrate);
    StaysMoved(t0, db.tables, before, name, tmp);
    if ok {
      ghost var t1 := db.tables;
      ok := CopyTableColumns(db, tmp, rows, name, transform, outcomes);
      StaysMoved(t1, db.tables, before, name, tmp);
      if !ok {
        ghost var t2 := db.tables;
        var _ := DropTable(db, name, outcomes.undoDrop);
        StaysMoved(t2, db.tables, before, name, tmp);
      }
    }
  }

  /**
    Rebuild a table: move it to a temporary name, create the new one, copy, drop the old one. `rows`
    is what a cursor on the old table yields. On failure the new table is dropped, if the migrate had
    succeeded, and the old one is moved back.
   */
  method TransformTable(db: Database, name: string, hash: string, rows: seq<Entity>, transform: Transform, outcomes: Outcomes)
    returns (ok: bool)
    requires name in db.tables ==> Lists(rows, db.tables[name])
    modifies db
    ensures var tmp := MigrationHelper.TmpName(name, hash);
            var movable := !outcomes.autoIncrement && outcomes.rename && name in old(db.tables) && tmp !in old(db.tables);
            && (!ok && outcomes.undoDrop && outcomes.undoRename ==>
                  (db.tables == old(db.tables) <==> !(movable && !outcomes.migrate && outcomes.left)))
            && (ok ==> movable && |Transformed(rows, transform)| == |rows| && name in db.tables)
            && (ok ==> db.tables[name] == Copied(Transformed(rows, transform), outcomes.close))
            && (ok && KeysDiffer(Transformed(rows, transform)) ==>
                  (Kept(old(db.tables)[name], db.tables[name], transform)
                   <==> outcomes.close || |old(db.tables)[name]| % BATCH_SIZE == 0))
            && (ok ==> (tmp in db.tables <==> !outcomes.dropTmp) && (tmp in db.tables ==> db.tables[tmp] == old(db.tables)[name]))
            && (ok ==> SameExceptTwo(db.tables, old(db.tables), name, tmp))
            && (movable && outcomes.migrate && Copyable(rows, transform, outcomes) ==> ok)
  {
    hide Lists;
    hide Kept;
    hide KeysDiffer;
    hide Copied;
    hide Transformed;
    hide Copyable;
    var tmp := MigrationHelper.TmpName(name, hash);
    assert |tmp| > |name|;
    if outcomes.autoIncrement {
      return false;
    }
    ok := RenameTable(db, name, tmp, outcomes.rename);
    if !ok {
      return;
    }
    ok := Rebuild(db, name, tmp, rows, transform, outcomes, old(db.tables));
    if ok {
      var _ := DropTable(db, tmp, outcomes.dropTmp);
    } else {
      MoveBack(db, name, tmp, outcomes.undoRename, old(db.tables));
    }
  }

  /** The deferred move of the old table back to its name, possible only if that name is free. */
  method MoveBack(db: Database, name: string, tmp: string, dbOk: bool, ghost before: map<string, Table>)
    requires Moved(db.tables, before, name, tmp)
    modifies db
    ensures dbOk && name !in old(db.tables) ==> db.tables == before
    ensures name in old(db.tables) ==> db.tables == old(db.tables)
  {
    var back := RenameTable(db, tmp, name, dbOk);
    if back {
      MapsEqual(db.tables, before);
    }
  }

  lemma MapsEqual(a: map<string, Table>, b: map<string, Table>)
    requires forall t :: (t in a <==> t in b) && (t in a ==> a[t] == b[t])
    ensures a == b
  {
  }

  ghost predicate Copyable(rows: seq<Entity>, transform: Transform, outcomes: Outcomes) {
    outcomes.open && (forall n :: outcomes.fetch(n) && outcomes.flush(n)) && forall r | r in rows :: transform(r).Some?
  }
}
