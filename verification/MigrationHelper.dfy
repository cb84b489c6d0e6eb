/** Column and table migrations as compensating transactions. */
module MigrationHelper {
  import opened Wrappers
  import opened Sequences

  datatype Column = Column(kind: string, cells: seq<int>)

  type Columns = map<string, Column>

  // ---------------------------------------------------------------------------------------------
  // Renaming columns and back

  function TmpName(name: string, hash: string): string {
    name + "_" + hash
  }

  /** The name, an underscore and the hash of the script, so two scripts use different names. */
  lemma TmpNameIs(name: string, hash: string, other: string)
    ensures TmpName(name, hash)[..|name|] == name && TmpName(name, hash)[|name|..] == "_" + hash
    ensures TmpName(name, hash) == TmpName(name, other) ==> hash == other
  {
    assert TmpName(name, hash)[|name|..] == "_" + hash && TmpName(name, other)[|name|..] == "_" + other;
    assert ("_" + hash)[1..] == hash && ("_" + other)[1..] == other;
  }

  lemma TmpNameInjective(a: string, b: string, hash: string)
    requires TmpName(a, hash) == TmpName(b, hash)
    ensures a == b
  {
    assert a == TmpName(a, hash)[..|a|] && b == TmpName(b, hash)[..|b|];
  }

  function TmpNames(cols: seq<string>, hash: string): (out: seq<string>)
    ensures |out| == |cols|
  {
    seq(|cols|, i requires 0 <= i < |cols| => TmpName(cols[i], hash))
  }

  predicate CanRename(t: Columns, from: string, to: string) {
    from in t && to !in t
  }

  function Renamed(t: Columns, from: string, to: string): (out: Columns)
    requires CanRename(t, from, to)
    ensures |out| == |t|
  {
    assert (t - {from}).Keys == t.Keys - {from};
    assert (t - {from})[to := t[from]].Keys == t.Keys - {from} + {to};
    (t - {from})[to := t[from]]
  }

  lemma RenamedAt(t: Columns, from: string, to: string, k: string)
    requires CanRename(t, from, to)
    ensures var r := Renamed(t, from, to);
            && (k in r <==> k == to || (k in t && k != from))
            && (k in r ==> r[k] == if k == to then t[from] else t[k])
  {
  }

  ghost predicate Separate(extra: Columns, t: Columns) {
    forall k | k in extra :: k !in t
  }

  lemma RenameBackAt(t: Columns, from: string, to: string, extra: Columns, k: string)
    requires CanRename(t, from, to) && Separate(extra, t) && from !in extra && to !in extra
    ensures var e := Renamed(t, from, to) + extra;
            && CanRename(e, to, from)
            && (k in Renamed(e, to, from) <==> k in t || k in extra)
            && (k in Renamed(e, to, from) ==> Renamed(e, to, from)[k] == if k in extra then extra[k] else t[k])
  {
    var e := Renamed(t, from, to) + extra;
    RenamedAt(t, from, to, k);
    RenamedAt(t, from, to, to);
    RenamedAt(t, from, to, from);
    RenamedAt(e, to, from, k);
  }

  lemma RenameBack(t: Columns, from: string, to: string, extra: Columns)
    requires CanRename(t, from, to) && Separate(extra, t) && from !in extra && to !in extra
    ensures CanRename(Renamed(t, from, to) + extra, to, from)
    ensures Renamed(Renamed(t, from, to) + extra, to, from) == t + extra
    ensures Separate(extra, Renamed(t, from, to))
  {
    hide Renamed;
    RenameBackAt(t, from, to, extra, from);
    var back := Renamed(Renamed(t, from, to) + extra, to, from);
    forall k ensures k in back <==> k in t || k in extra
      ensures k in back ==> back[k] == if k in extra then extra[k] else t[k]
    {
      RenameBackAt(t, from, to, extra, k);
    }
    SameColumns(back, t + extra);
    forall k | k in extra ensures k !in Renamed(t, from, to) {
      RenamedAt(t, from, to, k);
    }
  }

  lemma SameColumns(a: Columns, b: Columns)
    requires forall k :: (k in a <==> k in b) && (k in a ==> a[k] == b[k])
    ensures a == b
  {
  }

  /** The columns after renaming each in turn to its temporary name, or None if a rename is not possible. */
  function RenamedAll(t: Columns, cols: seq<string>, hash: string): (out: Option<Columns>)
    ensures out.Some? ==> |out.value| == |t|
    decreases |cols|
  {
    if |cols| == 0 then Some(t)
    else
      var last := cols[|cols| - 1];
      match RenamedAll(t, cols[..|cols| - 1], hash)
      case None => None
      case Some(r) => if CanRename(r, last, TmpName(last, hash)) then Some(Renamed(r, last, TmpName(last, hash))) else None
  }

  /** No column to change bears the temporary name of another. */
  ghost predicate Apart(cols: seq<string>, hash: string) {
    forall c, d | c in cols && d in cols :: TmpName(c, hash) != d
  }

  lemma ApartInit(cols: seq<string>, hash: string)
    requires Apart(cols, hash) && |cols| > 0
    ensures Apart(cols[..|cols| - 1], hash)
    ensures cols == cols[..|cols| - 1] + [cols[|cols| - 1]]
    ensures forall c | c in cols[..|cols| - 1] :: TmpName(c, hash) != cols[|cols| - 1]
    ensures forall c | c in cols :: TmpName(cols[|cols| - 1], hash) != c
  {
    var init := cols[..|cols| - 1];
    assert forall c | c in init :: c in cols;
    assert forall c, d | c in init && d in init :: TmpName(c, hash) != d;
    assert cols[|cols| - 1] in cols;
  }

  /** A column to change is gone after the renames; its data is under its temporary name. */
  lemma {:induction false} RenamedAllMoves(t: Columns, cols: seq<string>, hash: string, c: string)
    requires Apart(cols, hash) && RenamedAll(t, cols, hash).Some? && c in cols
    ensures var r := RenamedAll(t, cols, hash).value;
            c in t && c !in r && TmpName(c, hash) !in t && TmpName(c, hash) in r && r[TmpName(c, hash)] == t[c]
    decreases |cols|
  {
    var init, last := cols[..|cols| - 1], cols[|cols| - 1];
    ApartInit(cols, hash);
    if c in init {
      RenamedAllMoves(t, init, hash, c);
      if TmpName(c, hash) == TmpName(last, hash) {
        TmpNameInjective(c, last, hash);
      }
    } else {
      RenamedAllLeaves(t, init, hash, c);
      assert forall d | d in init :: d in cols;
      RenamedAllLeaves(t, init, hash, TmpName(c, hash));
    }
  }

  /** Any other column stays, and no column comes in but under a temporary name. */
  lemma {:induction false} RenamedAllLeaves(t: Columns, cols: seq<string>, hash: string, k: string)
    requires RenamedAll(t, cols, hash).Some? && k !in cols
    ensures var r := RenamedAll(t, cols, hash).value;
            && (k in t ==> k in r && r[k] == t[k])
            && (k in r && k !in t ==> exists c :: c in cols && k == TmpName(c, hash))
    decreases |cols|
  {
    if |cols| > 0 {
      var init, last := cols[..|cols| - 1], cols[|cols| - 1];
      assert cols == init + [last];
      RenamedAllLeaves(t, init, hash, k);
    }
  }

  lemma {:induction false} ColumnsDistinct(t: Columns, cols: seq<string>, hash: string)
    requires Apart(cols, hash) && RenamedAll(t, cols, hash).Some?
    ensures forall i, j | 0 <= i < j < |cols| :: cols[i] != cols[j]
    decreases |cols|
  {
    if |cols| > 0 {
      var init, last := cols[..|cols| - 1], cols[|cols| - 1];
      ApartInit(cols, hash);
      ColumnsDistinct(t, init, hash);
      if last in init {
        RenamedAllMoves(t, init, hash, last);
      }
      assert forall i | 0 <= i < |init| :: cols[i] == init[i] && cols[i] in init;
    }
  }

  // ---------------------------------------------------------------------------------------------
  // The deferred compensations

  function TryRename(t: Columns, from: string, to: string): (out: Columns)
    ensures |out| == |t|
  {
    if CanRename(t, from, to) then Renamed(t, from, to) else t
  }

  /** Undo the renames last to first; a rename that is not possible leaves the columns as they are. */
  function RenamedBack(t: Columns, cols: seq<string>, hash: string): (out: Columns)
    ensures |out| == |t|
    decreases |cols|
  {
    if |cols| == 0 then t
    else
      var last := cols[|cols| - 1];
      RenamedBack(TryRename(t, TmpName(last, hash), last), cols[..|cols| - 1], hash)
  }

  /** The renames are undone exactly; columns added since that are in nobody's way stay. */
  lemma {:induction false} RenamedBackRestores(t: Columns, cols: seq<string>, hash: string, extra: Columns)
    requires RenamedAll(t, cols, hash).Some? && Separate(extra, t)
    requires forall c | c in cols :: c !in extra && TmpName(c, hash) !in extra
    ensures Separate(extra, RenamedAll(t, cols, hash).value)
    ensures RenamedBack(RenamedAll(t, cols, hash).value + extra, cols, hash) == t + extra
    decreases |cols|
  {
    if |cols| > 0 {
      var init, last := cols[..|cols| - 1], cols[|cols| - 1];
      hide Renamed;
      assert cols == init + [last];
      RenamedBackRestores(t, init, hash, extra);
      var r := RenamedAll(t, init, hash).value;
      RenameBack(r, last, TmpName(last, hash), extra);
      var now := RenamedAll(t, cols, hash).value + extra;
      assert TryRename(now, TmpName(last, hash), last) == r + extra;
    }
  }

  /** A column that is neither there nor under its temporary name does not come back. */
  lemma {:induction false} RenamedBackLoses(t: Columns, cols: seq<string>, hash: string, c: string)
    requires c !in t && TmpName(c, hash) !in t && TmpName(c, hash) !in cols
    ensures c !in RenamedBack(t, cols, hash) && TmpName(c, hash) !in RenamedBack(t, cols, hash)
    decreases |cols|
  {
    if |cols| > 0 {
      var init, last := cols[..|cols| - 1], cols[|cols| - 1];
      assert cols == init + [last];
      assert last in cols;
      var next := TryRename(t, TmpName(last, hash), last);
      assert c !in next && TmpName(c, hash) !in next;
      RenamedBackLoses(next, init, hash, c);
    }
  }

  /** A column that is there and bears no temporary name stays, and one that is neither there nor to be renamed does not come. */
  lemma {:induction false} RenamedBackLeaves(t: Columns, cols: seq<string>, hash: string, c: string)
    requires forall d | d in cols :: c != TmpName(d, hash)
    ensures c in t ==> c in RenamedBack(t, cols, hash) && RenamedBack(t, cols, hash)[c] == t[c]
    ensures c !in t && c !in cols ==> c !in RenamedBack(t, cols, hash)
    decreases |cols|
  {
    if |cols| > 0 {
      var init, last := cols[..|cols| - 1], cols[|cols| - 1];
      assert cols == init + [last] && last in cols;
      RenamedBackLeaves(TryRename(t, TmpName(last, hash), last), init, hash, c);
    }
  }

  /** A column whose data is under its temporary name comes back with it. */
  lemma {:induction false} RenamedBackReturns(t: Columns, cols: seq<string>, hash: string, c: string)
    requires Apart(cols, hash) && c in cols && c !in t && TmpName(c, hash) in t
    ensures var back := RenamedBack(t, cols, hash);
            c in back && back[c] == t[TmpName(c, hash)] && TmpName(c, hash) !in back
    decreases |cols|
  {
    var init, last := cols[..|cols| - 1], cols[|cols| - 1];
    ApartInit(cols, hash);
    assert forall d | d in init :: d in cols;
    var next := TryRename(t, TmpName(last, hash), last);
    assert RenamedBack(t, cols, hash) == RenamedBack(next, init, hash);
    hide RenamedBack;
    if c == last {
      RenamedBackLeaves(next, init, hash, c);
      TmpGone(next, init, hash, c);
    } else {
      if TmpName(c, hash) == TmpName(last, hash) {
        TmpNameInjective(c, last, hash);
      }
      RenamedBackReturns(next, init, hash, c);
    }
  }

  /** A temporary name that is gone does not come back. */
  lemma {:induction false} TmpGone(t: Columns, cols: seq<string>, hash: string, c: string)
    requires TmpName(c, hash) !in t && TmpName(c, hash) !in cols
    ensures TmpName(c, hash) !in RenamedBack(t, cols, hash)
    decreases |cols|
  {
    if |cols| > 0 {
      var init, last := cols[..|cols| - 1], cols[|cols| - 1];
      assert cols == init + [last] && last in cols;
      TmpGone(TryRename(t, TmpName(last, hash), last), init, hash, c);
    }
  }

  // ---------------------------------------------------------------------------------------------
  // What the forward steps make of the columns

  function Names(names: seq<string>): set<string> {
    set n | n in names
  }

  /** The columns a struct declares that the table lacks. */
  function Missing(t: Columns, wanted: Columns): Columns {
    map c | c in wanted && c !in t :: wanted[c]
  }

  /** The part of an update that meets an existing column. */
  function Hits(t: Columns, effect: Columns): Columns {
    map c | c in effect && c in t :: effect[c]
  }

  /** Copying the temporary columns to the columns of the old names, converting to the new type. */
  function Copies(t: Columns, cols: seq<string>, hash: string): Columns {
    map c | c in cols && c in t && TmpName(c, hash) in t :: Column(t[c].kind, t[TmpName(c, hash)].cells)
  }

  /** The columns after renames, migrate and update. */
  function Changed(r: Columns, wanted: Columns, effect: Columns): Columns {
    var migrated := r + Missing(r, wanted);
    migrated + Hits(migrated, effect)
  }

  /** A migrate adds the columns of the struct that are missing, a failing one some of them; no column that is there changes. */
  lemma MigratedIs(t: Columns, wanted: Columns, left: set<string>, c: string)
    ensures c in Missing(t, wanted) <==> c in wanted && c !in t
    ensures c in Missing(t, wanted) ==> Missing(t, wanted)[c] == wanted[c]
    ensures c in Partial(t, wanted, left) <==> c in wanted && c !in t && c in left
    ensures c in Partial(t, wanted, left) ==> Partial(t, wanted, left)[c] == wanted[c]
  {
  }

  /** An update writes to the columns it names that are there. */
  lemma UpdatedIs(t: Columns, effect: Columns, c: string)
    ensures c in t + Hits(t, effect) <==> c in t
    ensures c in t ==> (t + Hits(t, effect))[c] == if c in effect then effect[c] else t[c]
  {
  }

  /** What the change leaves behind, beyond the columns it was asked to change, if it is rolled back. */
  function Leftover(r: Columns, cols: seq<string>, wanted: Columns, effect: Columns): Columns {
    map c | c in wanted && c !in r && c !in cols :: if c in effect then effect[c] else wanted[c]
  }

  /** What the update does to columns that were there before and are not changed by name. */
  function Spill(t: Columns, cols: seq<string>, effect: Columns): Columns {
    map c | c in effect && c in t && c !in cols :: effect[c]
  }

  /** The change touches nothing but the columns it was asked to change. */
  ghost predicate Confined(t: Columns, r: Columns, cols: seq<string>, wanted: Columns, effect: Columns) {
    && (forall c | c in wanted :: c in r || c in cols)
    && (forall c | c in effect && c in t && c !in cols :: effect[c] == t[c])
  }

  /** The columns to change are declared by the new struct, and no name doubles as a temporary one. */
  ghost predicate WellPut(cols: seq<string>, hash: string, wanted: Columns, effect: Columns) {
    Apart(cols, hash) && forall c | c in cols :: c in wanted && TmpName(c, hash) !in effect
  }

  lemma {:induction false} RenamedAllSpill(t: Columns, cols: seq<string>, hash: string, e: Columns)
    requires RenamedAll(t, cols, hash).Some? && e.Keys <= t.Keys && forall c | c in cols :: c !in e
    ensures RenamedAll(t + e, cols, hash) == Some(RenamedAll(t, cols, hash).value + e)
    decreases |cols|
  {
    if |cols| > 0 {
      var init, last := cols[..|cols| - 1], cols[|cols| - 1];
      assert cols == init + [last];
      RenamedAllSpill(t, init, hash, e);
      var r := RenamedAll(t, init, hash).value;
      forall c | c in e ensures c in r {
        RenamedAllLeaves(t, init, hash, c);
      }
      RenamedOverlay(r, last, TmpName(last, hash), e);
    }
  }

  lemma RenamedOverlay(t: Columns, from: string, to: string, e: Columns)
    requires CanRename(t, from, to) && e.Keys <= t.Keys && from !in e
    ensures CanRename(t + e, from, to) && Renamed(t + e, from, to) == Renamed(t, from, to) + e
  {
    var a, b := Renamed(t + e, from, to), Renamed(t, from, to) + e;
    forall k ensures (k in a <==> k in b) && (k in a ==> a[k] == b[k]) {
      RenamedAt(t, from, to, k);
      RenamedAt(t + e, from, to, k);
    }
    SameColumns(a, b);
  }

  /** Rolling the change back leaves exactly the leftovers and the spill. */
  lemma RolledBack(t: Columns, cols: seq<string>, hash: string, wanted: Columns, effect: Columns)
    requires WellPut(cols, hash, wanted, effect) && RenamedAll(t, cols, hash).Some?
    ensures var r := RenamedAll(t, cols, hash).value;
            RenamedBack(Changed(r, wanted, effect) - Names(cols), cols, hash)
            == (t + Spill(t, cols, effect)) + Leftover(r, cols, wanted, effect)
  {
    var r := RenamedAll(t, cols, hash).value;
    var e, extra := Spill(t, cols, effect), Leftover(r, cols, wanted, effect);
    RenamedAllSpill(t, cols, hash, e);
    forall k | k in extra ensures k !in t + e {
      RenamedAllLeaves(t, cols, hash, k);
    }
    forall c | c in cols ensures TmpName(c, hash) !in extra {
      RenamedAllMoves(t, cols, hash, c);
    }
    RenamedBackRestores(t + e, cols, hash, extra);
    ChangedIs(t, cols, hash, wanted, effect);
  }

  lemma ChangedAt(r: Columns, cols: seq<string>, wanted: Columns, effect: Columns, k: string)
    ensures var a := Changed(r, wanted, effect) - Names(cols);
            && (k in a <==> k !in cols && (k in r || k in wanted))
            && (k in a ==> a[k] == if k in effect then effect[k] else if k in r then r[k] else wanted[k])
  {
    var migrated := r + Missing(r, wanted);
    assert k in migrated <==> k in r || k in wanted;
    var updated := migrated + Hits(migrated, effect);
    assert k in updated <==> k in r || k in wanted;
  }

  lemma SpillAt(t: Columns, r: Columns, cols: seq<string>, wanted: Columns, effect: Columns, k: string)
    requires k in effect && k in r && k !in cols ==> k in t
    requires k in t && k !in cols ==> k in r
    ensures var b := (r + Spill(t, cols, effect)) + Leftover(r, cols, wanted, effect);
            k !in cols ==>
              && (k in b <==> k in r || k in wanted)
              && (k in b ==> b[k] == if k in effect then effect[k] else if k in r then r[k] else wanted[k])
    ensures var b := (r + Spill(t, cols, effect)) + Leftover(r, cols, wanted, effect);
            k in cols && k !in r ==> k !in b
  {
    var e := r + Spill(t, cols, effect);
    var l := Leftover(r, cols, wanted, effect);
    assert k in l <==> k in wanted && k !in r && k !in cols;
  }

  lemma ChangedIs(t: Columns, cols: seq<string>, hash: string, wanted: Columns, effect: Columns)
    requires WellPut(cols, hash, wanted, effect) && RenamedAll(t, cols, hash).Some?
    ensures var r := RenamedAll(t, cols, hash).value;
            Changed(r, wanted, effect) - Names(cols) == (r + Spill(t, cols, effect)) + Leftover(r, cols, wanted, effect)
  {
    hide Changed;
    hide Leftover;
    hide Spill;
    hide RenamedAll;
    var r := RenamedAll(t, cols, hash).value;
    var a := Changed(r, wanted, effect) - Names(cols);
    var b := (r + Spill(t, cols, effect)) + Leftover(r, cols, wanted, effect);
    forall k ensures (k in a <==> k in b) && (k in a ==> a[k] == b[k]) {
      if k in cols {
        RenamedAllMoves(t, cols, hash, k);
      } else {
        RenamedAllLeaves(t, cols, hash, k);
      }
      ChangedAt(r, cols, wanted, effect, k);
      SpillAt(t, r, cols, wanted, effect, k);
    }
    SameColumns(a, b);
  }

  lemma RestoredIff(t: Columns, r: Columns, cols: seq<string>, wanted: Columns, effect: Columns)
    requires forall k | k in wanted && k !in r && k !in cols :: k !in t
    ensures (t + Spill(t, cols, effect)) + Leftover(r, cols, wanted, effect) == t <==> Confined(t, r, cols, wanted, effect)
  {
    var e, l := Spill(t, cols, effect), Leftover(r, cols, wanted, effect);
    var te := t + e;
    if Confined(t, r, cols, wanted, effect) {
      assert forall k :: k !in l;
      SameColumns(te, t);
      SameColumns(te + l, t);
    } else if c :| c in wanted && c !in r && c !in cols {
      assert c in l && c in te + l;
    } else {
      var c :| c in effect && c in t && c !in cols && effect[c] != t[c];
      assert c in e && c !in l && te[c] == effect[c];
    }
  }

  /** Rolled back, the table is as it was exactly when the change was confined. */
  lemma RollbackRestoresIff(t: Columns, cols: seq<string>, hash: string, wanted: Columns, effect: Columns)
    requires WellPut(cols, hash, wanted, effect) && RenamedAll(t, cols, hash).Some?
    ensures var r := RenamedAll(t, cols, hash).value;
            RenamedBack(Changed(r, wanted, effect) - Names(cols), cols, hash) == t <==> Confined(t, r, cols, wanted, effect)
  {
    RolledBack(t, cols, hash, wanted, effect);
    var r := RenamedAll(t, cols, hash).value;
    forall k | k in wanted && k !in r && k !in cols ensures k !in t {
      RenamedAllLeaves(t, cols, hash, k);
    }
    RestoredIff(t, r, cols, wanted, effect);
  }

  /** Once temporary columns are dropped, rolling back cannot bring their data back. */
  lemma RollbackLoses(t: Columns, cols: seq<string>, hash: string, wanted: Columns, effect: Columns, k: nat, j: nat)
    requires WellPut(cols, hash, wanted, effect) && RenamedAll(t, cols, hash).Some? && j < k <= |cols|
    ensures var r := RenamedAll(t, cols, hash).value;
            var dropped := Changed(r, wanted, effect) - Names(TmpNames(cols, hash)[..k]);
            cols[j] !in RenamedBack(dropped - Names(cols), cols, hash)
            && TmpName(cols[j], hash) !in RenamedBack(dropped - Names(cols), cols, hash)
  {
    var r := RenamedAll(t, cols, hash).value;
    var dropped := Changed(r, wanted, effect) - Names(TmpNames(cols, hash)[..k]);
    assert TmpNames(cols, hash)[..k][j] == TmpName(cols[j], hash);
    RenamedBackLoses(dropped - Names(cols), cols, hash, cols[j]);
  }

  /**
    Rolled back after `k` temporary columns were dropped, the table lacks just the columns these held:
    the others to change are back with their data, and so are all others if the change was confined.
   */
  lemma RollbackKeeps(t: Columns, cols: seq<string>, hash: string, wanted: Columns, effect: Columns, k: nat)
    requires WellPut(cols, hash, wanted, effect) && RenamedAll(t, cols, hash).Some? && k <= |cols|
    ensures var r := RenamedAll(t, cols, hash).value;
            var dropped := Changed(r, wanted, effect) - Names(TmpNames(cols, hash)[..k]);
            var back := RenamedBack(dropped - Names(cols), cols, hash);
            && (forall j | k <= j < |cols| :: cols[j] in t && cols[j] in back && back[cols[j]] == t[cols[j]])
            && (Confined(t, r, cols, wanted, effect) ==> back == t - Names(cols[..k]))
  {
    var r := RenamedAll(t, cols, hash).value;
    var dropped := Changed(r, wanted, effect) - Names(TmpNames(cols, hash)[..k]);
    var back := RenamedBack(dropped - Names(cols), cols, hash);
    forall j | k <= j < |cols| ensures cols[j] in t && cols[j] in back && back[cols[j]] == t[cols[j]] {
      ColumnReturns(t, cols, hash, wanted, effect, k, j);
    }
    if Confined(t, r, cols, wanted, effect) {
      hide RenamedAll;
      hide RenamedBack;
      hide Changed;
      hide Names;
      hide Confined;
      forall c ensures (c in back <==> c in t - Names(cols[..k])) && (c in back ==> back[c] == (t - Names(cols[..k]))[c]) {
        ColumnRolledBack(t, cols, hash, wanted, effect, k, c);
      }
      SameColumns(back, t - Names(cols[..k]));
    }
  }

  lemma ColumnReturns(t: Columns, cols: seq<string>, hash: string, wanted: Columns, effect: Columns, k: nat, j: nat)
    requires WellPut(cols, hash, wanted, effect) && RenamedAll(t, cols, hash).Some? && k <= j < |cols|
    ensures var r := RenamedAll(t, cols, hash).value;
            var dropped := Changed(r, wanted, effect) - Names(TmpNames(cols, hash)[..k]);
            var back := RenamedBack(dropped - Names(cols), cols, hash);
            cols[j] in t && cols[j] in back && back[cols[j]] == t[cols[j]] && TmpName(cols[j], hash) !in back
  {
    var r := RenamedAll(t, cols, hash).value;
    var c := cols[j];
    var tmp := TmpName(c, hash);
    RenamedAllMoves(t, cols, hash, c);
    ColumnsDistinct(t, cols, hash);
    CopiedAt(r, wanted, effect, tmp);
    forall i | 0 <= i < k ensures TmpNames(cols, hash)[i] != tmp {
      if TmpNames(cols, hash)[i] == tmp {
        TmpNameInjective(cols[i], c, hash);
      }
    }
    RenamedBackReturns(Changed(r, wanted, effect) - Names(TmpNames(cols, hash)[..k]) - Names(cols), cols, hash, c);
  }

  lemma ColumnRolledBack(t: Columns, cols: seq<string>, hash: string, wanted: Columns, effect: Columns, k: nat, c: string)
    requires WellPut(cols, hash, wanted, effect) && RenamedAll(t, cols, hash).Some? && k <= |cols|
    requires Confined(t, RenamedAll(t, cols, hash).value, cols, wanted, effect)
    ensures var dropped := Changed(RenamedAll(t, cols, hash).value, wanted, effect) - Names(TmpNames(cols, hash)[..k]);
            var back := RenamedBack(dropped - Names(cols), cols, hash);
            (c in back <==> c in t - Names(cols[..k])) && (c in back ==> back[c] == (t - Names(cols[..k]))[c])
  {
    var r := RenamedAll(t, cols, hash).value;
    ColumnsDistinct(t, cols, hash);
    if j :| 0 <= j < |cols| && cols[j] == c {
      if j < k {
        RollbackLoses(t, cols, hash, wanted, effect, k, j);
        assert cols[..k][j] == c;
      } else {
        RenamedAllMoves(t, cols, hash, c);
        ColumnReturns(t, cols, hash, wanted, effect, k, j);
        assert c !in cols[..k];
      }
    } else if j :| 0 <= j < |cols| && TmpName(cols[j], hash) == c {
      RenamedAllMoves(t, cols, hash, cols[j]);
      if j < k {
        RollbackLoses(t, cols, hash, wanted, effect, k, j);
      } else {
        ColumnReturns(t, cols, hash, wanted, effect, k, j);
      }
    } else {
      OtherColumn(t, cols, hash, wanted, effect, k, c);
    }
  }

  lemma NotDropped(cols: seq<string>, hash: string, k: nat, c: string)
    requires k <= |cols| && c !in cols && forall d | d in cols :: TmpName(d, hash) != c
    ensures c !in Names(TmpNames(cols, hash)[..k]) && c !in Names(cols) && c !in cols[..k]
  {
    forall i | 0 <= i < k ensures TmpNames(cols, hash)[i] != c {
      assert cols[i] in cols;
    }
  }

  lemma OtherColumn(t: Columns, cols: seq<string>, hash: string, wanted: Columns, effect: Columns, k: nat, c: string)
    requires WellPut(cols, hash, wanted, effect) && RenamedAll(t, cols, hash).Some? && k <= |cols|
    requires Confined(t, RenamedAll(t, cols, hash).value, cols, wanted, effect)
    requires c !in cols && forall d | d in cols :: TmpName(d, hash) != c
    ensures var dropped := Changed(RenamedAll(t, cols, hash).value, wanted, effect) - Names(TmpNames(cols, hash)[..k]);
            var back := RenamedBack(dropped - Names(cols), cols, hash);
            (c in back <==> c in t) && (c in back ==> back[c] == t[c]) && c !in cols[..k]
  {
    var r := RenamedAll(t, cols, hash).value;
    RenamedAllLeaves(t, cols, hash, c);
    CopiedAt(r, wanted, effect, c);
    NotDropped(cols, hash, k, c);
    hide TmpNames;
    hide Changed;
    hide RenamedAll;
    RenamedBackLeaves(Changed(r, wanted, effect) - Names(TmpNames(cols, hash)[..k]) - Names(cols), cols, hash, c);
  }

  /** The columns a failing migrate has added. */
  function Partial(t: Columns, wanted: Columns, left: set<string>): Columns {
    map c | c in wanted && c in left && c !in t :: wanted[c]
  }

  /** Rolled back after a failing migrate, the table is as it was exactly when the migrate added nothing. */
  lemma PartialRestoresIff(t: Columns, cols: seq<string>, hash: string, wanted: Columns, left: set<string>)
    requires RenamedAll(t, cols, hash).Some?
    ensures var r := RenamedAll(t, cols, hash).value;
            RenamedBack(r + Partial(r, wanted, left), cols, hash) == t <==> Partial(r, wanted, left) == map[]
  {
    var r := RenamedAll(t, cols, hash).value;
    var p := Partial(r, wanted, left);
    if p == map[] {
      RenamesUndone(t, cols, hash);
      assert r + p == r;
    } else {
      var c :| c in p;
      assert (r + p).Keys == r.Keys + p.Keys && r.Keys !! p.Keys;
      assert |r + p| == |r| + |p|;
    }
  }

  // ---------------------------------------------------------------------------------------------
  // The change itself

  /** Which statements succeed; a false one fails, and a failing migrate leaves some columns behind. */
  datatype Outcomes = Outcomes(
    rename: nat -> bool, migrate: bool, left: set<string>, update: bool, drop: nat -> bool,
    undoDrop: nat -> bool, undoRename: nat -> bool)

  ghost predicate UndoSucceeds(outcomes: Outcomes) {
    forall n: nat :: outcomes.undoDrop(n) && outcomes.undoRename(n)
  }

  /** The step that failed. */
  datatype Stage = Renaming(at: nat) | Migrating | Updating | Dropping(at: nat) | Done

  function EffectOf(update: Option<Columns>): Columns {
    if update.Some? then update.value else map[]
  }

  /** Where the forward steps got to, from the columns `t`. */
  ghost predicate Reached(t: Columns, now: Columns, cols: seq<string>, hash: string, wanted: Columns, left: set<string>,
                          effect: Columns, stage: Stage)
  {
    if stage.Renaming? then stage.at < |cols| && RenamedAll(t, cols[..stage.at], hash) == Some(now)
    else
      && RenamedAll(t, cols, hash).Some?
      && (stage.Dropping? ==> stage.at < |cols|)
      && now == StateAt(RenamedAll(t, cols, hash).value, cols, hash, wanted, left, effect, stage)
  }

  ghost function StateAt(r: Columns, cols: seq<string>, hash: string, wanted: Columns, left: set<string>, effect: Columns,
                         stage: Stage): Columns
    requires stage.Dropping? ==> stage.at < |cols|
  {
    if stage.Migrating? then r + Partial(r, wanted, left)
    else if stage.Dropping? then Changed(r, wanted, effect) - Names(TmpNames(cols, hash)[..stage.at])
    else if stage.Done? then Changed(r, wanted, effect) - Names(TmpNames(cols, hash))
    else Changed(r, wanted, effect)
  }

  /** What the update wrote: the caller's effect, or the copies of the temporary columns. */
  ghost predicate EffectIs(t: Columns, cols: seq<string>, hash: string, wanted: Columns, update: Option<Columns>,
                           effect: Columns, stage: Stage)
  {
    if update.Some? then effect == update.value
    else if stage.Done? || stage.Dropping? then
      RenamedAll(t, cols, hash).Some?
      && var r := RenamedAll(t, cols, hash).value;
         effect == Copies(r + Missing(r, wanted), cols, hash)
    else effect == map[]
  }

  /** Why a step after the renames failed. */
  ghost predicate Blames(r: Columns, cols: seq<string>, hash: string, wanted: Columns, update: Option<Columns>,
                         outcomes: Outcomes, effect: Columns, stage: Stage)
  {
    match stage
    case Migrating => !outcomes.migrate
    case Updating =>
      !outcomes.update
      || (update.None? && exists c :: c in cols && !(c in r + Missing(r, wanted) && TmpName(c, hash) in r + Missing(r, wanted)))
    case Dropping(k) =>
      k < |cols|
      && (!outcomes.drop(k) || TmpName(cols[k], hash) !in Changed(r, wanted, effect) - Names(TmpNames(cols, hash)[..k]))
    case _ => true
  }

  /** With well-put names, only a failing statement stops the change after the renames. */
  lemma OnlyStatementsFail(t: Columns, cols: seq<string>, hash: string, wanted: Columns, update: Option<Columns>,
                           outcomes: Outcomes, effect: Columns, stage: Stage)
    requires RenamedAll(t, cols, hash).Some? && WellPut(cols, hash, wanted, EffectOf(update))
    requires Blames(RenamedAll(t, cols, hash).value, cols, hash, wanted, update, outcomes, effect, stage)
    ensures stage.Updating? ==> !outcomes.update
    ensures stage.Dropping? ==> !outcomes.drop(stage.at)
  {
    var r := RenamedAll(t, cols, hash).value;
    if stage.Updating? && outcomes.update {
      var c :| c in cols && !(c in r + Missing(r, wanted) && TmpName(c, hash) in r + Missing(r, wanted));
      RenamedAllMoves(t, cols, hash, c);
    }
    if stage.Dropping? {
      var c := cols[stage.at];
      RenamedAllMoves(t, cols, hash, c);
      ColumnsDistinct(t, cols, hash);
      if TmpName(c, hash) in TmpNames(cols, hash)[..stage.at] {
        var i :| 0 <= i < stage.at && TmpNames(cols, hash)[i] == TmpName(c, hash);
        TmpNameInjective(c, cols[i], hash);
      }
    }
  }

  class TableSchema {
    var columns: Columns

    method RenameColumn(from: string, to: string, dbOk: bool) returns (ok: bool)
      modifies this
      ensures ok <==> dbOk && CanRename(old(columns), from, to)
      ensures columns == if ok then Renamed(old(columns), from, to) else old(columns)
    {
      ok := dbOk && from in columns && to !in columns;
      if ok {
        columns := (columns - {from})[to := columns[from]];
      }
    }

    /** Drops one column after the other; those before the first failure stay dropped. */
    method DropColumns(names: seq<string>, dbOk: nat -> bool) returns (dropped: nat)
      modifies this
      ensures dropped <= |names|
      ensures columns == old(columns) - Names(names[..dropped])
      ensures dropped < |names| ==> !dbOk(dropped) || names[dropped] !in columns
      ensures (forall n :: dbOk(n)) && Distinct(names) && (forall n | n in names :: n in old(columns)) ==> dropped == |names|
    {
      dropped := 0;
      while dropped < |names|
        invariant dropped <= |names|
        invariant columns == old(columns) - Names(names[..dropped])
      {
        var name := names[dropped];
        if !dbOk(dropped) || name !in columns {
          return;
        }
        assert names[..dropped + 1] == names[..dropped] + [name];
        assert Names(names[..dropped + 1]) == Names(names[..dropped]) + {name};
        columns := columns - {name};
        dropped := dropped + 1;
      }
    }

    method AutoMigrate(wanted: Columns, left: set<string>, dbOk: bool) returns (ok: bool)
      modifies this
      ensures ok == dbOk
      ensures columns == old(columns) + if ok then Missing(old(columns), wanted) else Partial(old(columns), wanted, left)
    {
      ok := dbOk;
      columns := columns + if ok then Missing(columns, wanted) else Partial(columns, wanted, left);
    }

    /** One statement copying every temporary column, or the caller's own update, which may do its part and then fail. */
    method Update(cols: seq<string>, hash: string, update: Option<Columns>, dbOk: bool) returns (ok: bool, effect: Columns)
      modifies this
      ensures columns == old(columns) + Hits(old(columns), effect)
      ensures update.Some? ==> ok == dbOk && effect == update.value
      ensures update.None? ==> (ok <==> dbOk && forall c | c in cols :: c in old(columns) && TmpName(c, hash) in old(columns))
      ensures update.None? ==> effect == if ok then Copies(old(columns), cols, hash) else map[]
    {
      ok := dbOk && (update.Some? || forall c | c in cols :: c in columns && TmpName(c, hash) in columns);
      effect := if update.Some? then update.value else if ok then Copies(columns, cols, hash) else map[];
      columns := columns + Hits(columns, effect);
    }

    /** Rename the columns away; stops at the first rename that fails. */
    method RenameAway(cols: seq<string>, hash: string, dbOk: nat -> bool) returns (k: nat)
      modifies this
      ensures k <= |cols| && RenamedAll(old(columns), cols[..k], hash) == Some(columns)
      ensures k < |cols| ==> !dbOk(k) || !CanRename(columns, cols[k], TmpName(cols[k], hash))
    {
      k := 0;
      while k < |cols|
        invariant k <= |cols| && RenamedAll(old(columns), cols[..k], hash) == Some(columns)
      {
        assert cols[..k + 1][..k] == cols[..k];
        var ok := RenameColumn(cols[k], TmpName(cols[k], hash), dbOk(k));
        if !ok {
          return;
        }
        k := k + 1;
      }
    }

    /** Migrate, update and drop the temporary columns. */
    method Rebuild(cols: seq<string>, hash: string, wanted: Columns, update: Option<Columns>, outcomes: Outcomes)
      returns (stage: Stage, effect: Columns)
      modifies this
      ensures !stage.Renaming? && (stage.Dropping? ==> stage.at < |cols|)
      ensures columns == StateAt(old(columns), cols, hash, wanted, outcomes.left, effect, stage)
      ensures update.Some? ==> effect == update.value
      ensures update.None? && (stage.Done? || stage.Dropping?) ==>
                effect == Copies(old(columns) + Missing(old(columns), wanted), cols, hash)
      ensures update.None? && !stage.Done? && !stage.Dropping? ==> effect == map[]
      ensures stage.Done? || stage.Dropping? ==> outcomes.migrate && outcomes.update
      ensures Blames(old(columns), cols, hash, wanted, update, outcomes, effect, stage)
    {
      hide Missing;
      hide Partial;
      hide Hits;
      hide Copies;
      hide Names;
      effect := EffectOf(update);
      var ok := AutoMigrate(wanted, outcomes.left, outcomes.migrate);
      if !ok {
        return Migrating, effect;
      }
      ok, effect := Update(cols, hash, update, outcomes.update);
      if !ok {
        return Updating, effect;
      }
      ghost var changed := columns;
      assert changed == Changed(old(columns), wanted, effect);
      hide Changed;
      var names := TmpNames(cols, hash);
      var dropped := DropColumns(names, outcomes.drop);
      assert names[..|names|] == names;
      stage := if dropped < |names| then Dropping(dropped) else Done;
    }

    method Forward(cols: seq<string>, hash: string, wanted: Columns, update: Option<Columns>, outcomes: Outcomes)
      returns (stage: Stage, effect: Columns)
      modifies this
      ensures Reached(old(columns), columns, cols, hash, wanted, outcomes.left, effect, stage)
      ensures EffectIs(old(columns), cols, hash, wanted, update, effect, stage)
      ensures stage.Renaming? ==> !outcomes.rename(stage.at) || RenamedAll(old(columns), cols[..stage.at + 1], hash).None?
      ensures stage.Done? || stage.Dropping? ==> outcomes.migrate && outcomes.update
      ensures !stage.Renaming? ==>
                Blames(RenamedAll(old(columns), cols, hash).value, cols, hash, wanted, update, outcomes, effect, stage)
    {
      hide StateAt;
      hide Missing;
      hide Copies;
      hide Blames;
      var k := RenameAway(cols, hash, outcomes.rename);
      if k < |cols| {
        assert cols[..k + 1][..k] == cols[..k];
        return Renaming(k), EffectOf(update);
      }
      assert cols[..k] == cols;
      stage, effect := Rebuild(cols, hash, wanted, update, outcomes);
    }

    /** Rename back in reverse order; a rename that fails does not keep the others from being tried. */
    method UndoRenames(cols: seq<string>, hash: string, dbOk: nat -> bool)
      modifies this
      ensures (forall n :: dbOk(n)) ==> columns == RenamedBack(old(columns), cols, hash)
    {
      var i := |cols|;
      assert cols[..i] == cols;
      while i > 0
        invariant 0 <= i <= |cols|
        invariant (forall n :: dbOk(n)) ==> RenamedBack(columns, cols[..i], hash) == RenamedBack(old(columns), cols, hash)
      {
        i := i - 1;
        assert cols[..i + 1][..i] == cols[..i];
        var _ := RenameColumn(TmpName(cols[i], hash), cols[i], dbOk(i));
      }
    }

    /** The compensation deferred after a migrate, then those of the renames. */
    method UndoChange(cols: seq<string>, hash: string, outcomes: Outcomes)
      modifies this
      ensures UndoSucceeds(outcomes) && Distinct(cols) && (forall c | c in cols :: c in old(columns)) ==>
                columns == RenamedBack(old(columns) - Names(cols), cols, hash)
    {
      var _ := DropColumns(cols, outcomes.undoDrop);
      assert cols[..|cols|] == cols;
      UndoRenames(cols, hash, outcomes.undoRename);
    }

    /**
      Change the type of columns: rename them away, let the migrate add them anew, copy the data over,
      drop the old ones. On failure the deferred compensations run last to first.
     */
    method ChangeColumnsType(cols: seq<string>, hash: string, wanted: Columns, update: Option<Columns>, outcomes: Outcomes)
      returns (stage: Stage)
      modifies this
      ensures stage.Renaming? ==>
                stage.at < |cols| && (!outcomes.rename(stage.at) || RenamedAll(old(columns), cols[..stage.at + 1], hash).None?)
      ensures stage.Migrating? ==> !outcomes.migrate
      ensures stage.Done? || stage.Dropping? ==> outcomes.migrate && outcomes.update
      ensures WellPut(cols, hash, wanted, EffectOf(update)) && stage.Updating? ==> !outcomes.update
      ensures WellPut(cols, hash, wanted, EffectOf(update)) && stage.Dropping? ==> !outcomes.drop(stage.at)
      ensures stage.Done? ==> forall c | c in cols :: TmpName(c, hash) !in columns
      ensures stage.Done? && update.None? && WellPut(cols, hash, wanted, map[]) ==>
                Converted(old(columns), columns, cols, hash, wanted)
      ensures stage.Done? && update.Some? ==>
                RenamedAll(old(columns), cols, hash).Some?
                && columns == Changed(RenamedAll(old(columns), cols, hash).value, wanted, update.value) - Names(TmpNames(cols, hash))
      ensures UndoSucceeds(outcomes) && stage.Renaming? ==> columns == old(columns)
      ensures stage.Migrating? || stage.Updating? || stage.Dropping? ==> RenamedAll(old(columns), cols, hash).Some?
      ensures UndoSucceeds(outcomes) && stage.Migrating? ==>
                (columns == old(columns)
                 <==> Partial(RenamedAll(old(columns), cols, hash).value, wanted, outcomes.left) == map[])
      ensures UndoSucceeds(outcomes) && (stage.Updating? || stage == Dropping(0)) && WellPut(cols, hash, wanted, EffectOf(update)) ==>
                (columns == old(columns)
                 <==> Confined(old(columns), RenamedAll(old(columns), cols, hash).value, cols, wanted, EffectOf(update)))
      ensures UndoSucceeds(outcomes) && stage.Dropping? && WellPut(cols, hash, wanted, EffectOf(update)) ==>
                stage.at < |cols| && forall j | 0 <= j < stage.at :: cols[j] !in columns && TmpName(cols[j], hash) !in columns
      ensures UndoSucceeds(outcomes) && stage.Dropping? && WellPut(cols, hash, wanted, EffectOf(update)) ==>
                forall j | stage.at <= j < |cols| ::
                  cols[j] in old(columns) && cols[j] in columns && columns[cols[j]] == old(columns)[cols[j]]
      ensures UndoSucceeds(outcomes) && stage.Dropping? && WellPut(cols, hash, wanted, EffectOf(update))
              && Confined(old(columns), RenamedAll(old(columns), cols, hash).value, cols, wanted, EffectOf(update)) ==>
                stage.at < |cols| && columns == old(columns) - Names(cols[..stage.at])
    {
      hide Renamed;
      hide CanRename;
      hide Missing;
      hide Partial;
      hide Hits;
      hide Copies;
      hide Names;
      hide StateAt;
      hide Confined;
      hide Changed;
      hide RenamedAll;
      hide RenamedBack;
      hide Converted;
      ghost var effect;
      stage, effect := Forward(cols, hash, wanted, update, outcomes);
      ghost var t, now := old(columns), columns;
      if stage.Renaming? {
        UndoRenames(cols[..stage.at], hash, outcomes.undoRename);
        RenamesUndone(t, cols[..stage.at], hash);
      } else if stage.Migrating? {
        UndoRenames(cols, hash, outcomes.undoRename);
        MigrateUndone(t, now, cols, hash, wanted, outcomes.left, effect);
      } else if stage.Done? {
        DoneIs(t, now, cols, hash, wanted, outcomes.left, update, effect);
      } else {
        UndoChange(cols, hash, outcomes);
        if WellPut(cols, hash, wanted, EffectOf(update)) {
          OnlyStatementsFail(t, cols, hash, wanted, update, outcomes, effect, stage);
          ChangeUndone(t, now, cols, hash, wanted, outcomes.left, update, effect, stage);
        }
      }
    }
  }

  lemma RenamesUndone(t: Columns, cols: seq<string>, hash: string)
    requires RenamedAll(t, cols, hash).Some?
    ensures RenamedBack(RenamedAll(t, cols, hash).value, cols, hash) == t
  {
    var none: Columns := map[];
    RenamedBackRestores(t, cols, hash, none);
    hide RenamedAll;
    hide RenamedBack;
    AddNothing(RenamedAll(t, cols, hash).value);
    AddNothing(t);
  }

  lemma AddNothing(t: Columns)
    ensures t + map[] == t
  {
  }

  lemma MigrateUndone(t: Columns, now: Columns, cols: seq<string>, hash: string, wanted: Columns, left: set<string>, effect: Columns)
    requires Reached(t, now, cols, hash, wanted, left, effect, Migrating)
    ensures RenamedBack(now, cols, hash) == t <==> Partial(RenamedAll(t, cols, hash).value, wanted, left) == map[]
  {
    PartialRestoresIff(t, cols, hash, wanted, left);
  }

  lemma EffectConfined(t: Columns, cols: seq<string>, hash: string, wanted: Columns, update: Option<Columns>,
                       effect: Columns, stage: Stage)
    requires WellPut(cols, hash, wanted, EffectOf(update)) && EffectIs(t, cols, hash, wanted, update, effect, stage)
    requires RenamedAll(t, cols, hash).Some?
    ensures WellPut(cols, hash, wanted, effect)
    ensures var r := RenamedAll(t, cols, hash).value;
            Confined(t, r, cols, wanted, effect) <==> Confined(t, r, cols, wanted, EffectOf(update))
  {
    if update.None? {
      assert forall c | c in effect :: c in cols;
    }
  }

  lemma ChangeUndone(t: Columns, now: Columns, cols: seq<string>, hash: string, wanted: Columns, left: set<string>,
                     update: Option<Columns>, effect: Columns, stage: Stage)
    requires stage.Updating? || stage.Dropping?
    requires Reached(t, now, cols, hash, wanted, left, effect, stage) && EffectIs(t, cols, hash, wanted, update, effect, stage)
    requires WellPut(cols, hash, wanted, EffectOf(update))
    ensures Distinct(cols) && forall c | c in cols :: c in now
    ensures stage.Updating? || stage.at == 0 ==>
              (RenamedBack(now - Names(cols), cols, hash) == t
               <==> Confined(t, RenamedAll(t, cols, hash).value, cols, wanted, EffectOf(update)))
    ensures stage.Dropping? ==>
              stage.at < |cols|
              && forall j | 0 <= j < stage.at :: cols[j] !in RenamedBack(now - Names(cols), cols, hash)
                                                 && TmpName(cols[j], hash) !in RenamedBack(now - Names(cols), cols, hash)
    ensures stage.Dropping? ==>
              forall j | stage.at <= j < |cols| ::
                cols[j] in t && cols[j] in RenamedBack(now - Names(cols), cols, hash)
                && RenamedBack(now - Names(cols), cols, hash)[cols[j]] == t[cols[j]]
    ensures stage.Dropping? && Confined(t, RenamedAll(t, cols, hash).value, cols, wanted, EffectOf(update)) ==>
              stage.at < |cols| && RenamedBack(now - Names(cols), cols, hash) == t - Names(cols[..stage.at])
  {
    var r := RenamedAll(t, cols, hash).value;
    EffectConfined(t, cols, hash, wanted, update, effect, stage);
    ColumnsDistinct(t, cols, hash);
    var k := if stage.Dropping? then stage.at else 0;
    DroppedAt(r, cols, hash, wanted, effect, k);
    RollbackRestoresIff(t, cols, hash, wanted, effect);
    RollbackKeeps(t, cols, hash, wanted, effect, k);
    forall j | 0 <= j < k
      ensures cols[j] !in RenamedBack(now - Names(cols), cols, hash)
      ensures TmpName(cols[j], hash) !in RenamedBack(now - Names(cols), cols, hash)
    {
      RollbackLoses(t, cols, hash, wanted, effect, k, j);
    }
  }

  lemma DroppedAt(r: Columns, cols: seq<string>, hash: string, wanted: Columns, effect: Columns, k: nat)
    requires WellPut(cols, hash, wanted, effect) && k <= |cols|
    ensures var now := Changed(r, wanted, effect) - Names(TmpNames(cols, hash)[..k]);
            forall c | c in cols :: c in now
    ensures k == 0 ==> Changed(r, wanted, effect) - Names(TmpNames(cols, hash)[..k]) == Changed(r, wanted, effect)
  {
    forall n | n in TmpNames(cols, hash)[..k] ensures n !in cols {
      var i :| 0 <= i < k && n == TmpNames(cols, hash)[i];
      assert n == TmpName(cols[i], hash) && cols[i] in cols;
    }
    var empty: set<string> := {};
    assert k == 0 ==> Names(TmpNames(cols, hash)[..k]) == empty;
  }

  lemma DoneIs(t: Columns, now: Columns, cols: seq<string>, hash: string, wanted: Columns, left: set<string>,
               update: Option<Columns>, effect: Columns)
    requires Reached(t, now, cols, hash, wanted, left, effect, Done) && EffectIs(t, cols, hash, wanted, update, effect, Done)
    ensures RenamedAll(t, cols, hash).Some?
    ensures update.Some? ==> now == Changed(RenamedAll(t, cols, hash).value, wanted, update.value) - Names(TmpNames(cols, hash))
    ensures forall c | c in cols :: TmpName(c, hash) !in now
    ensures update.None? && WellPut(cols, hash, wanted, map[]) ==> Converted(t, now, cols, hash, wanted)
  {
    TmpsGone(Changed(RenamedAll(t, cols, hash).value, wanted, effect), cols, hash);
    hide Changed;
    hide RenamedAll;
    if update.None? && WellPut(cols, hash, wanted, map[]) {
      ConvertedColumns(t, now, cols, hash, wanted, left, effect);
    }
  }

  lemma TmpsGone(t: Columns, cols: seq<string>, hash: string)
    ensures forall c | c in cols :: TmpName(c, hash) !in t - Names(TmpNames(cols, hash))
  {
    forall c | c in cols ensures TmpName(c, hash) in Names(TmpNames(cols, hash)) {
      var i :| 0 <= i < |cols| && c == cols[i];
      assert TmpNames(cols, hash)[i] == TmpName(c, hash);
    }
  }

  lemma ConvertedColumns(t: Columns, now: Columns, cols: seq<string>, hash: string, wanted: Columns, left: set<string>, effect: Columns)
    requires Reached(t, now, cols, hash, wanted, left, effect, Done) && EffectIs(t, cols, hash, wanted, None, effect, Done)
    requires WellPut(cols, hash, wanted, map[])
    ensures Converted(t, now, cols, hash, wanted)
  {
    var r := RenamedAll(t, cols, hash).value;
    hide RenamedAll;
    hide Changed;
    hide Names;
    hide Copies;
    hide ConvertedAt;
    forall c ensures ConvertedAt(t, now, cols, hash, wanted, c) {
      ColumnConverted(t, cols, hash, wanted, c);
    }
  }

  lemma NamesOfTmp(cols: seq<string>, hash: string, c: string)
    ensures c in Names(TmpNames(cols, hash)) <==> IsTmp(c, cols, hash)
  {
    if d :| d in cols && c == TmpName(d, hash) {
      var i :| 0 <= i < |cols| && d == cols[i];
      assert TmpNames(cols, hash)[i] == c;
    }
    if c in TmpNames(cols, hash) {
      var i :| 0 <= i < |cols| && c == TmpNames(cols, hash)[i];
      assert cols[i] in cols;
    }
  }

  lemma ColumnConverted(t: Columns, cols: seq<string>, hash: string, wanted: Columns, c: string)
    requires RenamedAll(t, cols, hash).Some? && WellPut(cols, hash, wanted, map[])
    ensures var r := RenamedAll(t, cols, hash).value;
            var effect := Copies(r + Missing(r, wanted), cols, hash);
            ConvertedAt(t, Changed(r, wanted, effect) - Names(TmpNames(cols, hash)), cols, hash, wanted, c)
  {
    hide RenamedAll;
    var r := RenamedAll(t, cols, hash).value;
    NamesOfTmp(cols, hash, c);
    if c in cols {
      RenamedAllMoves(t, cols, hash, c);
    } else {
      RenamedAllLeaves(t, cols, hash, c);
      if d :| d in cols && c == TmpName(d, hash) {
        RenamedAllMoves(t, cols, hash, d);
      }
    }
    var effect := Copies(r + Missing(r, wanted), cols, hash);
    assert c in effect <==> c in cols;
    CopiedAt(r, wanted, effect, c);
  }

  lemma CopiedAt(r: Columns, wanted: Columns, effect: Columns, c: string)
    ensures c in Changed(r, wanted, effect) <==> c in r || c in wanted
    ensures c in Changed(r, wanted, effect) ==>
              Changed(r, wanted, effect)[c] == if c in effect then effect[c] else if c in r then r[c] else wanted[c]
  {
    var migrated := r + Missing(r, wanted);
    assert c in migrated <==> c in r || c in wanted;
  }

  /** Each changed column has its new type and its old data, every other column is as it was, and new ones are the struct's. */
  ghost predicate Converted(before: Columns, after: Columns, cols: seq<string>, hash: string, wanted: Columns) {
    forall c :: ConvertedAt(before, after, cols, hash, wanted, c)
  }

  ghost predicate ConvertedAt(before: Columns, after: Columns, cols: seq<string>, hash: string, wanted: Columns, c: string) {
    && (c in cols ==> c in before && c in wanted && c in after && after[c] == Column(wanted[c].kind, before[c].cells))
    && (c in before && c !in cols ==> c in after && after[c] == before[c])
    && (c in after && c !in before ==> c in wanted)
    && (c in wanted && !IsTmp(c, cols, hash) ==> c in after)
  }

  ghost predicate IsTmp(c: string, cols: seq<string>, hash: string) {
    exists d :: d in cols && c == TmpName(d, hash)
  }
}
