/** Database tables as maps from primary key to row, and the plain upsert. */
module Tables {
  /** The formatted values of the primary key fields. */
  type Pk = seq<string>

  datatype Origin = Origin(table: string, params: string, rawId: nat)

  const NO_ORIGIN := Origin("", "", 0)

  datatype Entity = Entity(pk: Pk, payload: string, origin: Origin)

  type Table = map<Pk, Entity>

  /** Insert or update the rows one after the other. */
  function Upsert(table: Table, rows: seq<Entity>): Table {
    if |rows| == 0 then table
    else Upsert(table, rows[..|rows| - 1])[rows[|rows| - 1].pk := rows[|rows| - 1]]
  }

  lemma {:induction false} UpsertAppend(table: Table, a: seq<Entity>, b: seq<Entity>)
    ensures Upsert(table, a + b) == Upsert(Upsert(table, a), b)
  {
    if |b| == 0 {
      assert a + b == a;
    } else {
      assert (a + b)[..|a + b| - 1] == a + b[..|b| - 1];
      UpsertAppend(table, a, b[..|b| - 1]);
    }
  }

  /** Overwriting a row in place or upserting it last is the same if no other row has its key. */
  lemma {:induction false} UpsertReplace(table: Table, rows: seq<Entity>, i: nat, row: Entity)
    requires i < |rows| && rows[i].pk == row.pk
    requires forall j | 0 <= j < |rows| && j != i :: rows[j].pk != row.pk
    ensures Upsert(table, rows[i := row]) == Upsert(table, rows)[row.pk := row]
  {
    var n := |rows| - 1;
    if i < n {
      assert rows[i := row][..n] == rows[..n][i := row];
      UpsertReplace(table, rows[..n], i, row);
    } else {
      assert rows[i := row][..n] == rows[..n];
    }
  }

  /** Keys that no row has are left as they were. */
  lemma {:induction false} UpsertLeaves(table: Table, rows: seq<Entity>, pk: Pk)
    requires forall r | r in rows :: r.pk != pk
    ensures pk in Upsert(table, rows) <==> pk in table
    ensures pk in table ==> Upsert(table, rows)[pk] == table[pk]
  {
    if |rows| > 0 {
      assert rows[|rows| - 1] in rows && forall r | r in rows[..|rows| - 1] :: r in rows;
      UpsertLeaves(table, rows[..|rows| - 1], pk);
    }
  }

  /** A key that some row has ends up with the last such row, whatever the table held before. */
  lemma {:induction false} UpsertSets(table: Table, other: Table, rows: seq<Entity>, row: Entity)
    requires row in rows
    ensures row.pk in Upsert(table, rows) && row.pk in Upsert(other, rows)
    ensures Upsert(table, rows)[row.pk] == Upsert(other, rows)[row.pk]
    ensures Upsert(table, rows)[row.pk] in rows
  {
    var init, last := rows[..|rows| - 1], rows[|rows| - 1];
    assert rows == init + [last];
    if last.pk != row.pk {
      UpsertSets(table, other, init, row);
    }
  }

  /** The rows that do not stem from the given raw table and params. */
  function Purged(rows: Table, table: string, params: string): Table {
    map pk | pk in rows && !(rows[pk].origin.table == table && rows[pk].origin.params == params) :: rows[pk]
  }

  /** A write the database has performed. */
  datatype DbOp = Deleted(table: string) | Saved(table: string)

  class Database {
    var tables: map<string, Table>
    var log: seq<DbOp>

    constructor ()
      ensures tables == map[] && log == []
    {
      tables, log := map[], [];
    }

    /** The rows of a table; an absent table reads as empty. */
    function Rows(name: string): Table
      reads this
    {
      if name in tables then tables[name] else map[]
    }

    /** Bulk upsert; fails as a whole when `dbOk` is false. */
    method CreateOrUpdate(name: string, rows: seq<Entity>, dbOk: bool) returns (ok: bool)
      modifies this
      ensures ok == dbOk
      ensures !ok ==> tables == old(tables) && log == old(log)
      ensures ok ==> Rows(name) == Upsert(old(Rows(name)), rows) && log == old(log) + [Saved(name)]
      ensures ok ==> tables.Keys == old(tables.Keys) + {name}
      ensures ok ==> forall t | t != name :: Rows(t) == old(Rows(t))
    {
      ok := dbOk;
      if ok {
        tables := tables[name := Upsert(Rows(name), rows)];
        log := log + [Saved(name)];
      }
    }

    /** Delete the rows of a table that stem from the given raw table and params. */
    method DeleteByOrigin(name: string, table: string, params: string, dbOk: bool) returns (ok: bool)
      modifies this
      ensures ok == dbOk
      ensures !ok ==> tables == old(tables) && log == old(log)
      ensures ok ==> Rows(name) == Purged(old(Rows(name)), table, params) && log == old(log) + [Deleted(name)]
      ensures ok ==> forall t | t != name :: Rows(t) == old(Rows(t))
    {
      ok := dbOk;
      if ok {
        tables := tables[name := Purged(Rows(name), table, params)];
        log := log + [Deleted(name)];
      }
    }
  }
}
