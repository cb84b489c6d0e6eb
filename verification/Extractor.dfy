/** Extraction of raw rows into typed tables through one batch per type. */
module Extractor {
  import opened Wrappers
  import opened Tables
  import opened BatchSaves

  datatype RawRow = RawRow(id: nat, params: string, data: nat)

  /** One result of a plugin's Extract: a row and the name of its type, which is also its table. */
  datatype Product = Product(kind: string, entity: Entity)

  /** What reflection tells about a type. */
  datatype TypeInfo = TypeInfo(hasPrimaryKey: bool, hasOrigin: bool)

  function RowsIn(tables: map<string, Table>, kind: string): Table {
    if kind in tables then tables[kind] else map[]
  }

  /** The entities of one type, in order. */
  function OfKind(products: seq<Product>, kind: string): seq<Entity> {
    if |products| == 0 then []
    else OfKind(products[..|products| - 1], kind)
         + if products[|products| - 1].kind == kind then [products[|products| - 1].entity] else []
  }

  /** `Deleted(kind)` happened exactly once in `ops`, before every `Saved(kind)`. */
  ghost predicate DeletedOnceFirst(ops: seq<DbOp>, kind: string) {
    exists k :: 0 <= k < |ops| && ops[k] == Deleted(kind)
      && (forall i | 0 <= i < |ops| && i != k :: ops[i] != Deleted(kind))
      && (forall i | 0 <= i < k :: ops[i] != Saved(kind))
  }

  ghost predicate Untouched(ops: seq<DbOp>, kind: string) {
    Deleted(kind) !in ops && Saved(kind) !in ops
  }

  lemma OpsGrow(ops: seq<DbOp>, op: DbOp, kind: string)
    requires op != Deleted(kind)
    ensures DeletedOnceFirst(ops, kind) ==> DeletedOnceFirst(ops + [op], kind)
    ensures Untouched(ops, kind) && op != Saved(kind) ==> Untouched(ops + [op], kind)
  {
    if DeletedOnceFirst(ops, kind) {
      var k :| 0 <= k < |ops| && ops[k] == Deleted(kind)
        && (forall i | 0 <= i < |ops| && i != k :: ops[i] != Deleted(kind))
        && (forall i | 0 <= i < k :: ops[i] != Saved(kind));
      assert (ops + [op])[k] == Deleted(kind);
    }
  }

  lemma OpsDelete(ops: seq<DbOp>, kind: string)
    requires Untouched(ops, kind)
    ensures DeletedOnceFirst(ops + [Deleted(kind)], kind)
  {
    assert (ops + [Deleted(kind)])[|ops|] == Deleted(kind);
  }

  /** The log gained one delete, if one was due, and then at most one save, both of this type. */
  ghost predicate Logged(before: seq<DbOp>, after: seq<DbOp>, kind: string, deletes: bool) {
    var deleted := before + if deletes then [Deleted(kind)] else [];
    after == deleted || after == deleted + [Saved(kind)]
  }

  /** Only saves of these types were added to the log. */
  ghost predicate Saves(before: seq<DbOp>, after: seq<DbOp>, kinds: set<string>) {
    before <= after && forall i | |before| <= i < |after| :: after[i].Saved? && after[i].table in kinds
  }

  /** Rows of this origin are deleted before the first insert, when an origin is given at all. */
  function Cleared(rows: Table, table: string, params: string): Table {
    if table != "" && params != "" then Purged(rows, table, params) else rows
  }

  /** What goes are the rows of this table and params, when both are given; every other row stays as it is. */
  lemma ClearedIs(rows: Table, table: string, params: string, pk: Pk)
    requires pk in rows
    ensures pk in Cleared(rows, table, params) <==>
              table == "" || params == "" || rows[pk].origin.table != table || rows[pk].origin.params != params
    ensures pk in Cleared(rows, table, params) ==> Cleared(rows, table, params)[pk] == rows[pk]
  {
  }

  /** One batch per type, all writing to the same database. */
  class BatchSaveDivider {
    const db: Database
    const batchSize: nat
    const table: string
    const params: string
    const schema: string -> TypeInfo
    var batches: map<string, BatchSave>
    ghost var parts: set<BatchSave>

    constructor (db: Database, batchSize: nat, table: string, params: string, schema: string -> TypeInfo)
      requires batchSize >= 1
      ensures Valid() && batches == map[] && parts == {} && this.schema == schema
      ensures this.db == db && this.batchSize == batchSize && this.table == table && this.params == params
    {
      this.db, this.batchSize, this.table, this.params, this.schema := db, batchSize, table, params, schema;
      batches, parts := map[], {};
    }

    ghost predicate Valid()
      reads this, parts
    {
      batchSize >= 1 && forall kind | kind in batches :: BatchOk(batches[kind], kind)
    }

    ghost predicate BatchOk(batch: BatchSave, kind: string)
      reads this, parts
    {
      && batch in parts && batch.db == db && batch.table == kind && batch.size == batchSize
      && batch.Valid() && batch.current < batchSize
    }

    /** The table and cache of a type as they are once its batch exists. */
    ghost function Opened(kind: string): Buffer
      requires Valid()
      reads this, db, parts
    {
      if kind in batches then batches[kind].Buffered()
      else Buffer(Cleared(db.Rows(kind), table, params), [])
    }

    predicate Deletes(kind: string)
      reads this
    {
      kind !in batches && table != "" && params != ""
    }

    /**
      The batch for a type, made on first use after deleting the outdated rows of the type. The
      result is null when the type has no primary key, embeds no origin, or the delete fails.
     */
    method ForType(kind: string, dbOk: bool) returns (batch: BatchSave?)
      requires Valid()
      modifies this, db
      ensures kind in old(batches) ==> batch != null && db.tables == old(db.tables)
      ensures kind !in old(batches) ==>
                (batch != null <==> schema(kind).hasPrimaryKey && schema(kind).hasOrigin && (old(Deletes(kind)) ==> dbOk))
      ensures batch != null ==> Valid() && fresh(parts - old(parts)) && kind in batches && batches == old(batches)[kind := batch]
      ensures batch != null ==> forall t :: Opened(t) == old(Opened(t))
      ensures batch != null ==> forall t | t != kind :: db.Rows(t) == old(db.Rows(t))
      ensures batch != null ==> db.log == old(db.log) + if old(Deletes(kind)) then [Deleted(kind)] else []
    {
      hide BatchSave.Valid;
      if kind in batches {
        return batches[kind];
      }
      if !schema(kind).hasPrimaryKey {
        return null;
      }
      batch := new BatchSave(db, kind, batchSize);
      batches, parts := batches[kind := batch], parts + {batch};
      if !schema(kind).hasOrigin {
        return null;
      }
      if table != "" && params != "" {
        var ok := db.DeleteByOrigin(kind, table, params, dbOk);
        if !ok {
          return null;
        }
      }
    }

    /** Add a row to the batch of a type that has one. */
    method AddKnown(kind: string, entity: Entity, dbOk: bool) returns (ok: bool)
      requires Valid() && kind in batches
      modifies db, parts
      ensures dbOk ==> ok
      ensures ok ==> Valid() && Opened(kind) == AddTo(old(Opened(kind)), batchSize, entity)
      ensures ok ==> forall t | t != kind :: Opened(t) == old(Opened(t))
      ensures ok ==> forall t | t != kind :: db.Rows(t) == old(db.Rows(t))
      ensures ok ==> Logged(old(db.log), db.log, kind, false)
    {
      hide BatchSave.Valid;
      ok := batches[kind].Add(entity, dbOk);
    }

    /** ForType and then Add, as the extractor does for every product. */
    method Put(product: Product, dbOk: bool) returns (ok: bool)
      requires Valid()
      modifies this, db, parts
      ensures dbOk && schema(product.kind).hasPrimaryKey && schema(product.kind).hasOrigin ==> ok
      ensures ok ==> Valid() && fresh(parts - old(parts))
      ensures ok ==> batches.Keys == old(batches.Keys) + {product.kind}
      ensures ok ==> Opened(product.kind) == AddTo(old(Opened(product.kind)), batchSize, product.entity)
      ensures ok ==> forall t | t != product.kind :: Opened(t) == old(Opened(t))
      ensures ok ==> forall t | t != product.kind :: db.Rows(t) == old(db.Rows(t))
      ensures ok ==> Logged(old(db.log), db.log, product.kind, old(Deletes(product.kind)))
    {
      hide BatchSave.Valid;
      hide BatchOk;
      hide Opened;
      hide AddTo;
      var batch := ForType(product.kind, dbOk);
      ok := batch != null;
      if ok {
        ok := AddKnown(product.kind, product.entity, dbOk);
      }
    }

    /** What a type starts from when its first row arrives. */
    ghost function Start(tables0: map<string, Table>, kind: string): Buffer {
      Buffer(Cleared(RowsIn(tables0, kind), table, params), [])
    }

    /** Where one type stands after the rows `done`, when it started from `tables0`. */
    ghost predicate Tracks(tables0: map<string, Table>, kind: string, done: seq<Entity>)
      requires Valid()
      reads this, db, parts
    {
      && (kind in batches <==> done != [])
      && (kind !in batches ==> db.Rows(kind) == RowsIn(tables0, kind))
      && Opened(kind) == AddAll(Start(tables0, kind), batchSize, done)
    }

    ghost predicate TracksAll(tables0: map<string, Table>, done: seq<Product>)
      requires Valid()
      reads this, db, parts
    {
      forall kind :: Tracks(tables0, kind, OfKind(done, kind))
    }

    /** Put a product, following the state of every type. */
    method Feed(product: Product, dbOk: bool, ghost tables0: map<string, Table>, ghost done: seq<Product>)
      returns (ok: bool)
      requires Valid() && TracksAll(tables0, done)
      modifies this, db, parts
      ensures dbOk && schema(product.kind).hasPrimaryKey && schema(product.kind).hasOrigin ==> ok
      ensures ok ==> Valid() && fresh(parts - old(parts)) && TracksAll(tables0, done + [product])
      ensures ok ==> batches.Keys == old(batches.Keys) + {product.kind}
      ensures ok ==> Logged(old(db.log), db.log, product.kind, old(Deletes(product.kind)))
    {
      hide BatchSave.Valid;
      hide Logged;
      hide BatchOk;
      hide Opened;
      hide Start;
      hide AddAll;
      hide AddTo;
      hide OfKind;
      ghost var k := product.kind;
      assert Tracks(tables0, k, OfKind(done, k));
      ok := Put(product, dbOk);
      if ok {
        forall kind ensures Tracks(tables0, kind, OfKind(done + [product], kind)) {
          OfKindOne(done, product, kind);
          if kind == k {
            AddAllOne(Start(tables0, k), batchSize, OfKind(done, k), product.entity);
            assert k in batches && OfKind(done + [product], k) != [];
            assert Opened(k) == AddTo(old(Opened(k)), batchSize, product.entity);
          } else {
            assert old(Tracks(tables0, kind, OfKind(done, kind)));
            assert OfKind(done + [product], kind) == OfKind(done, kind);
            assert kind in batches <==> kind in old(batches);
            assert Opened(kind) == old(Opened(kind));
          }
        }
      }
    }

    /** Close one batch. */
    method CloseOne(kind: string, dbOk: bool) returns (ok: bool)
      requires Valid() && kind in batches
      modifies db, parts
      ensures dbOk ==> ok
      ensures ok ==> Valid() && db.Rows(kind) == Closed(old(Opened(kind)))
      ensures ok ==> forall t | t in batches && t != kind :: Opened(t) == old(Opened(t))
      ensures ok ==> forall t | t != kind :: db.Rows(t) == old(db.Rows(t))
      ensures ok ==> db.log == old(db.log) || db.log == old(db.log) + [Saved(kind)]
    {
      hide BatchSave.Valid;
      ok := batches[kind].Close(dbOk);
    }

    lemma SavesNone(log: seq<DbOp>, kinds: set<string>)
      ensures Saves(log, log, kinds)
    {
    }

    lemma SavesStep(before: seq<DbOp>, mid: seq<DbOp>, after: seq<DbOp>, kinds: set<string>, kind: string)
      requires Saves(before, mid, kinds) && kind in kinds && (after == mid || after == mid + [Saved(kind)])
      ensures Saves(before, after, kinds)
    {
    }

    /** Close the batches, in whatever order the map yields them. */
    method Close(dbOk: bool) returns (ok: bool)
      requires Valid()
      modifies db, parts
      ensures dbOk ==> ok
      ensures ok ==> forall kind | kind in batches :: db.Rows(kind) == Closed(old(Opened(kind)))
      ensures ok ==> forall kind | kind !in batches :: db.Rows(kind) == old(db.Rows(kind))
      ensures ok ==> Saves(old(db.log), db.log, batches.Keys)
    {
      hide BatchOk;
      hide Saves;
      hide BatchSave.Valid;
      hide Closed;
      hide Opened;
      SavesNone(db.log, batches.Keys);
      var todo := batches.Keys;
      while todo != {}
        invariant Valid() && todo <= batches.Keys
        invariant forall kind | kind in todo :: Opened(kind) == old(Opened(kind))
        invariant forall kind | kind in batches.Keys - todo :: db.Rows(kind) == Closed(old(Opened(kind)))
        invariant forall kind | kind !in batches :: db.Rows(kind) == old(db.Rows(kind))
        invariant Saves(old(db.log), db.log, batches.Keys)
      {
        label one:
        var kind :| kind in todo;
        ok := CloseOne(kind, dbOk);
        if !ok {
          return;
        }
        SavesStep(old(db.log), old@one(db.log), db.log, batches.Keys, kind);
        todo := todo - {kind};
      }
      ok := true;
    }
  }

  lemma OfKindOne(done: seq<Product>, product: Product, kind: string)
    ensures OfKind(done + [product], kind)
            == OfKind(done, kind) + if kind == product.kind then [product.entity] else []
  {
    assert (done + [product])[..|done|] == done;
  }

  /** Every type in use was deleted from once, before its first save, and no other type was touched. */
  ghost predicate LogOk(kinds: set<string>, ops: seq<DbOp>, deletes: bool) {
    && (forall kind | kind in kinds && deletes :: DeletedOnceFirst(ops, kind))
    && (forall kind | kind !in kinds :: Untouched(ops, kind))
  }

  lemma LogOkStep(kinds: set<string>, before: seq<DbOp>, after: seq<DbOp>, kind: string, deletes: bool)
    requires LogOk(kinds, before, deletes) && Logged(before, after, kind, kind !in kinds && deletes)
    ensures LogOk(kinds + {kind}, after, deletes)
  {
    forall k ensures k in kinds + {kind} && deletes ==> DeletedOnceFirst(after, k)
      ensures k !in kinds + {kind} ==> Untouched(after, k)
    {
      LogKeeps(before, after, kind, k, kind !in kinds && deletes);
    }
  }

  lemma AddAllOne(b: Buffer, size: nat, rows: seq<Entity>, row: Entity)
    ensures AddAll(b, size, rows + [row]) == AddTo(AddAll(b, size, rows), size, row)
  {
    assert (rows + [row])[..|rows|] == rows;
  }

  lemma LogKeeps(before: seq<DbOp>, after: seq<DbOp>, touched: string, kind: string, deletes: bool)
    requires Logged(before, after, touched, deletes)
    ensures kind != touched && Untouched(before, kind) ==> Untouched(after, kind)
    ensures (kind == touched ==> !deletes) && DeletedOnceFirst(before, kind) ==> DeletedOnceFirst(after, kind)
    ensures kind == touched && deletes && Untouched(before, kind) ==> DeletedOnceFirst(after, kind)
  {
    var deleted := before + if deletes then [Deleted(touched)] else [];
    if deletes {
      if kind != touched {
        OpsGrow(before, Deleted(touched), kind);
      } else if Untouched(before, kind) {
        OpsDelete(before, kind);
      }
    } else {
      assert deleted == before;
    }
    OpsGrow(deleted, Saved(touched), kind);
  }

  /** What happened to the log since `base` is a log of its own. */
  lemma LoggedSince(base: seq<DbOp>, ops: seq<DbOp>, after: seq<DbOp>, kind: string, deletes: bool)
    returns (ops': seq<DbOp>)
    requires Logged(base + ops, after, kind, deletes)
    ensures after == base + ops' && Logged(ops, ops', kind, deletes)
  {
    var deleted := ops + if deletes then [Deleted(kind)] else [];
    assert base + deleted == base + ops + if deletes then [Deleted(kind)] else [];
    assert base + (deleted + [Saved(kind)]) == base + deleted + [Saved(kind)];
    ops' := if after == base + deleted then deleted else deleted + [Saved(kind)];
  }

  /** Appending operations other than deletes of a type keeps its delete the only one and the first. */
  lemma MoreSaves(ops: seq<DbOp>, more: seq<DbOp>, kind: string)
    requires forall i | 0 <= i < |more| :: more[i] != Deleted(kind)
    ensures DeletedOnceFirst(ops, kind) ==> DeletedOnceFirst(ops + more, kind)
    ensures Untouched(ops, kind) && (forall i | 0 <= i < |more| :: more[i] != Saved(kind)) ==> Untouched(ops + more, kind)
  {
    if DeletedOnceFirst(ops, kind) {
      var k :| 0 <= k < |ops| && ops[k] == Deleted(kind)
        && (forall i | 0 <= i < |ops| && i != k :: ops[i] != Deleted(kind))
        && (forall i | 0 <= i < k :: ops[i] != Saved(kind));
      assert (ops + more)[k] == Deleted(kind);
    }
  }

  lemma SavesKeepLogOk(base: seq<DbOp>, ops: seq<DbOp>, after: seq<DbOp>, kinds: set<string>, deletes: bool)
    returns (ops': seq<DbOp>)
    requires LogOk(kinds, ops, deletes) && Saves(base + ops, after, kinds)
    ensures after == base + ops' && LogOk(kinds, ops', deletes)
  {
    var more := after[|base + ops|..];
    ops' := ops + more;
    SplitLog(base, ops, after);
    forall i | 0 <= i < |more| ensures more[i].Saved? && more[i].table in kinds {
      assert more[i] == after[|base + ops| + i];
    }
    hide DeletedOnceFirst;
    hide Untouched;
    forall kind
      ensures kind in kinds && deletes ==> DeletedOnceFirst(ops', kind)
      ensures kind !in kinds ==> Untouched(ops', kind)
    {
      MoreSaves(ops, more, kind);
    }
  }

  lemma SplitLog(base: seq<DbOp>, ops: seq<DbOp>, after: seq<DbOp>)
    requires base + ops <= after
    ensures after == base + (ops + after[|base + ops|..])
  {
  }

  // ---------------------------------------------------------------------------------------------
  // The extractor

  type Extract = RawRow -> Option<seq<Product>>

  /** A product without an origin gets that of its raw row. */
  function WithOrigin(product: Product, table: string, raw: RawRow): Product {
    if product.entity.origin == NO_ORIGIN
    then product.(entity := product.entity.(origin := Origin(table, raw.params, raw.id)))
    else product
  }

  function WithOrigins(products: seq<Product>, table: string, raw: RawRow): (out: seq<Product>)
    ensures |out| == |products|
  {
    seq(|products|, i requires 0 <= i < |products| => WithOrigin(products[i], table, raw))
  }

  /** What one raw row yields; nothing when its extraction fails. */
  function RowYield(raw: RawRow, extract: Extract, table: string): seq<Product> {
    match extract(raw)
    case None => []
    case Some(products) => WithOrigins(products, table, raw)
  }

  /** Everything the raw rows yield, in order. */
  function Yield(raws: seq<RawRow>, extract: Extract, table: string): seq<Product> {
    if |raws| == 0 then []
    else
      Yield(raws[..|raws| - 1], extract, table) + RowYield(raws[|raws| - 1], extract, table)
  }

  lemma {:induction false} YieldJoins(a: seq<RawRow>, b: seq<RawRow>, extract: Extract, table: string)
    ensures Yield(a + b, extract, table) == Yield(a, extract, table) + Yield(b, extract, table)
  {
    if |b| == 0 {
      assert a + b == a;
    } else {
      var init, last := b[..|b| - 1], b[|b| - 1];
      YieldJoins(a, init, extract, table);
      YieldStep(init, last, extract, table);
      YieldStep(a + init, last, extract, table);
      hide Yield;
      LastOfBoth(a, b);
      JoinUp(Yield(a, extract, table), Yield(init, extract, table), Yield([last], extract, table),
             Yield(a + init, extract, table), Yield(b, extract, table), Yield(a + b, extract, table));
    }
  }

  lemma LastOfBoth(a: seq<RawRow>, b: seq<RawRow>)
    requires |b| > 0
    ensures b == b[..|b| - 1] + [b[|b| - 1]] && a + b == a + b[..|b| - 1] + [b[|b| - 1]]
  {
  }

  lemma YieldStep(raws: seq<RawRow>, raw: RawRow, extract: Extract, table: string)
    ensures Yield(raws + [raw], extract, table) == Yield(raws, extract, table) + Yield([raw], extract, table)
  {
    assert (raws + [raw])[..|raws|] == raws && [raw][..0] == [];
    hide RowYield;
    assert Yield([raw], extract, table) == [] + RowYield(raw, extract, table);
  }

  lemma JoinUp(a: seq<Product>, b: seq<Product>, c: seq<Product>, ab: seq<Product>, bc: seq<Product>, abc: seq<Product>)
    requires ab == a + b && bc == b + c && abc == ab + c
    ensures abc == a + bc
  {
  }

  /**
    A raw row yields the products of its extraction in order, changed in their origin only: a product
    without one gets the raw table, and the params and id of the raw row.
   */
  lemma YieldOne(raw: RawRow, extract: Extract, table: string)
    ensures var out := Yield([raw], extract, table);
            match extract(raw)
            case None => out == []
            case Some(products) =>
              && |out| == |products|
              && forall i | 0 <= i < |out| ::
                   && out[i].kind == products[i].kind
                   && out[i].entity.pk == products[i].entity.pk && out[i].entity.payload == products[i].entity.payload
                   && out[i].entity.origin == if products[i].entity.origin == Origin("", "", 0)
                                              then Origin(table, raw.params, raw.id) else products[i].entity.origin
  {
    assert [raw][..0] == [];
  }

  /** A product without an origin is outdated for the next run on the same table and params. */
  lemma YieldedIsOutdated(rows: Table, raw: RawRow, extract: Extract, table: string, i: nat)
    requires extract(raw).Some? && i < |extract(raw).value| && extract(raw).value[i].entity.origin == NO_ORIGIN
    requires table != "" && raw.params != ""
    ensures i < |Yield([raw], extract, table)|
    ensures var e := Stripped(Yield([raw], extract, table)[i].entity);
            e.pk in rows && rows[e.pk] == e ==> e.pk !in Cleared(rows, table, raw.params)
  {
    YieldOne(raw, extract, table);
    StrippedIs(Yield([raw], extract, table)[i].entity);
  }

  /** What one run of the extractor makes of the table of a type with these rows. */
  function Final(rows0: Table, size: nat, rows: seq<Entity>, table: string, params: string): Table {
    if rows == [] then rows0 else Closed(AddAll(Buffer(Cleared(rows0, table, params), []), size, rows))
  }

  function KindsOf(products: seq<Product>): set<string> {
    set p | p in products :: p.kind
  }

  class ApiExtractor {
    const db: Database
    const batchSize: nat
    const table: string
    const params: string
    const extract: Extract
    const schema: string -> TypeInfo

    constructor (db: Database, batchSize: nat, table: string, params: string, extract: Extract, schema: string -> TypeInfo)
      ensures this.batchSize == if batchSize == 0 then 500 else batchSize
      ensures this.db == db && this.table == table && this.params == params
      ensures this.extract == extract && this.schema == schema
    {
      this.db, this.batchSize := db, if batchSize == 0 then 500 else batchSize;
      this.table, this.params, this.extract, this.schema := table, params, extract, schema;
    }

    /** Feed the products of one raw row to the divider. */
    method FeedAll(divider: BatchSaveDivider, products: seq<Product>, dbOk: bool,
                   ghost tables0: map<string, Table>, ghost done: seq<Product>, ghost base: seq<DbOp>)
      returns (ok: bool)
      requires divider.db == db && divider.Valid() && divider.TracksAll(tables0, done)
      requires divider.batches.Keys == KindsOf(done)
      requires Since(base, divider)
      modifies db, divider, divider.parts
      ensures ok ==> divider.Valid() && fresh(divider.parts - old(divider.parts))
      ensures ok ==> divider.TracksAll(tables0, done + products) && divider.batches.Keys == KindsOf(done + products)
      ensures ok ==> Since(base, divider)
      ensures dbOk && (forall p | p in products :: divider.schema(p.kind).hasPrimaryKey && divider.schema(p.kind).hasOrigin) ==> ok
    {
      hide BatchSave.Valid;
      hide BatchSaveDivider.TracksAll;
      hide BatchSaveDivider.Valid;
      hide Logged;
      hide LogOk;
      assert done + products[..0] == done;
      for i := 0 to |products|
        invariant divider.Valid() && fresh(divider.parts - old(divider.parts))
        invariant divider.TracksAll(tables0, done + products[..i])
        invariant divider.batches.Keys == KindsOf(done + products[..i])
        invariant Since(base, divider)
      {
        label step:
        ghost var ops := Ops(base, divider);
        assert products[i] in products && base + ops == db.log;
        ok := divider.Feed(products[i], dbOk, tables0, done + products[..i]);
        if !ok {
          return;
        }
        assert done + products[..i + 1] == done + products[..i] + [products[i]];
        ghost var ops' := LoggedSince(base, ops, db.log, products[i].kind, old@step(divider.Deletes(products[i].kind)));
        LogOkStep(old@step(divider.batches.Keys), ops, ops', products[i].kind, divider.table != "" && divider.params != "");
        assert db.log[|base|..] == ops';
      }
      assert products[..|products|] == products;
      ok := true;
    }

    ghost function Ops(base: seq<DbOp>, divider: BatchSaveDivider): seq<DbOp>
      requires base <= db.log
      reads db
    {
      db.log[|base|..]
    }

    /** The log since `base` is in order for the types of the divider. */
    ghost predicate Since(base: seq<DbOp>, divider: BatchSaveDivider)
      reads this, db, divider
    {
      base <= db.log && LogOk(divider.batches.Keys, Ops(base, divider), divider.table != "" && divider.params != "")
    }

    /**
      Extract every raw row and save what it yields, type by type. `dbOk(n)` tells whether the
      database operations succeed while the n-th raw row is handled, and, after the last, at close.
     */
    method Execute(raws: seq<RawRow>, dbOk: nat -> bool) returns (ok: bool)
      requires batchSize >= 1
      modifies db
      ensures Extractable(raws) && (forall n :: dbOk(n)) ==> ok
      ensures ok ==> forall raw | raw in raws :: extract(raw).Some?
      ensures ok ==> forall kind :: db.Rows(kind)
                       == Final(old(db.Rows(kind)), batchSize, OfKind(Yield(raws, extract, table), kind), table, params)
      ensures ok ==> forall kind ::
                && OthersStay(old(db.Rows(kind)), db.Rows(kind), Yield(raws, extract, table), kind, table, params)
                && LastStays(db.Rows(kind), Yield(raws, extract, table), kind)
      ensures ok ==> old(db.log) <= db.log
      ensures ok ==> LogOk(KindsOf(Yield(raws, extract, table)), db.log[|old(db.log)|..], table != "" && params != "")
    {
      hide BatchSave.Valid;
      hide BatchSaveDivider.BatchOk;
      hide BatchSaveDivider.TracksAll;
      hide LogOk;
      hide Final;
      hide OfKind;
      hide Yield;
      hide WithOrigins;
      hide KindsOf;
      hide Since;
      hide Extractable;
      var divider := new BatchSaveDivider(db, batchSize, table, params, schema);
      ghost var tables0, base := db.tables, db.log;
      Begin(divider, base);
      for i := 0 to |raws|
        invariant divider.Valid() && fresh(divider.parts)
        invariant divider.TracksAll(tables0, Yield(raws[..i], extract, table))
        invariant divider.batches.Keys == KindsOf(Yield(raws[..i], extract, table))
        invariant forall raw | raw in raws[..i] :: extract(raw).Some?
        invariant Since(base, divider)
      {
        NextRow(raws, i);
        match extract(raws[i]) {
          case None =>
            return false;
          case Some(products) =>
            ok := FeedAll(divider, WithOrigins(products, table, raws[i]), dbOk(i),
                          tables0, Yield(raws[..i], extract, table), base);
            if !ok {
              return;
            }
        }
      }
      assert raws[..|raws|] == raws;
      assert base == old(db.log);
      ok := Finish(divider, dbOk(|raws|), tables0, Yield(raws, extract, table), base);
      if ok {
        hide OthersStay;
        hide LastStays;
        forall kind
          ensures OthersStay(old(db.Rows(kind)), db.Rows(kind), Yield(raws, extract, table), kind, table, params)
          ensures LastStays(db.Rows(kind), Yield(raws, extract, table), kind)
        {
          FinalOfAll(old(db.Rows(kind)), batchSize, Yield(raws, extract, table), kind, table, params);
        }
      }
    }

    lemma NextRow(raws: seq<RawRow>, i: nat)
      requires i < |raws|
      ensures extract(raws[i]).Some? ==>
                Yield(raws[..i + 1], extract, table)
                == Yield(raws[..i], extract, table) + WithOrigins(extract(raws[i]).value, table, raws[i])
      ensures Extractable(raws) ==>
                extract(raws[i]).Some?
                && forall p | p in WithOrigins(extract(raws[i]).value, table, raws[i]) ::
                     schema(p.kind).hasPrimaryKey && schema(p.kind).hasOrigin
      ensures forall raw | raw in raws[..i + 1] :: raw in raws[..i] || raw == raws[i]
    {
      assert raws[..i + 1][..i] == raws[..i] && raws[i] in raws;
    }

    /** Close the batches. */
    method Finish(divider: BatchSaveDivider, dbOk: bool,
                  ghost tables0: map<string, Table>, ghost done: seq<Product>, ghost base: seq<DbOp>)
      returns (ok: bool)
      requires divider.db == db && divider.Valid() && divider.TracksAll(tables0, done)
      requires divider.batches.Keys == KindsOf(done) && Since(base, divider)
      modifies db, divider.parts
      ensures dbOk ==> ok
      ensures ok ==> forall kind :: db.Rows(kind) == Final(RowsIn(tables0, kind), divider.batchSize, OfKind(done, kind),
                                                           divider.table, divider.params)
      ensures ok ==> base <= db.log && LogOk(KindsOf(done), db.log[|base|..], divider.table != "" && divider.params != "")
    {
      hide BatchSave.Valid;
      hide BatchSaveDivider.BatchOk;
      hide LogOk;
      ghost var ops := Ops(base, divider);
      assert base + ops == db.log;
      ok := divider.Close(dbOk);
      if ok {
        ghost var ops' := SavesKeepLogOk(base, ops, db.log, divider.batches.Keys, divider.table != "" && divider.params != "");
        assert db.log[|base|..] == ops';
        forall kind
          ensures db.Rows(kind) == Final(RowsIn(tables0, kind), divider.batchSize, OfKind(done, kind), divider.table, divider.params)
        {
          assert old(divider.Tracks(tables0, kind, OfKind(done, kind)));
        }
      }
    }

    lemma Begin(divider: BatchSaveDivider, base: seq<DbOp>)
      requires divider.batches == map[] && divider.db == db && base == db.log && divider.Valid()
      ensures Since(base, divider) && divider.TracksAll(db.tables, []) && KindsOf([]) == {}
      ensures Yield([], extract, table) == []
    {
    }

    /** Nothing but the database can stop the run: every raw row extracts, to types fit for batches. */
    ghost predicate Extractable(raws: seq<RawRow>) {
      forall raw | raw in raws :: extract(raw).Some?
        && forall p | p in extract(raw).value :: schema(p.kind).hasPrimaryKey && schema(p.kind).hasOrigin
    }
  }

  // ---------------------------------------------------------------------------------------------
  // Idempotence

  /** Extracting the same rows once more changes nothing, whatever the table held at first. */
  lemma ExtractTwice(rows0: Table, size: nat, rows: seq<Entity>, table: string, params: string)
    requires size >= 1
    ensures var once := Final(rows0, size, rows, table, params);
            Final(once, size, rows, table, params) == once
  {
    if rows != [] {
      var (out, slots) := Written(size, rows);
      var start := Cleared(rows0, table, params);
      FinalIs(rows0, size, rows, table, params);
      FinalIs(Upsert(start, out + slots), size, rows, table, params);
      ClearedTwice(rows0, table, params);
      UpsertTwice(start, out + slots, table, params);
    }
  }

  lemma ClearedTwice(rows0: Table, table: string, params: string)
    ensures Cleared(Cleared(rows0, table, params), table, params) == Cleared(rows0, table, params)
  {
  }

  /** Deleting what is outdated and upserting the same rows once more changes nothing. */
  lemma UpsertTwice(rows0: Table, w: seq<Entity>, table: string, params: string)
    requires Cleared(rows0, table, params) == rows0
    ensures var once := Upsert(rows0, w); Upsert(Cleared(once, table, params), w) == once
  {
    var once := Upsert(rows0, w);
    var again := Upsert(Cleared(once, table, params), w);
    hide Upsert;
    forall pk: Pk
      ensures pk in again <==> pk in once
      ensures pk in once ==> again[pk] == once[pk]
    {
      if r :| r in w && r.pk == pk {
        UpsertSets(rows0, Cleared(once, table, params), w, r);
      } else {
        UpsertLeaves(rows0, w, pk);
        UpsertLeaves(Cleared(once, table, params), w, pk);
        ClearedAt(rows0, once, table, params, pk);
      }
    }
  }

  /** A row that was not outdated in one table is not in another that holds the same row. */
  lemma ClearedAt(rows0: Table, once: Table, table: string, params: string, pk: Pk)
    requires Cleared(rows0, table, params) == rows0
    requires (pk in once <==> pk in rows0) && (pk in rows0 ==> once[pk] == rows0[pk])
    ensures pk in Cleared(once, table, params) <==> pk in once
    ensures pk in once ==> Cleared(once, table, params)[pk] == once[pk]
  {
    if table != "" && params != "" && pk in rows0 {
      assert pk in Purged(rows0, table, params);
    }
  }

  lemma FinalIs(rows0: Table, size: nat, rows: seq<Entity>, table: string, params: string)
    requires size >= 1 && rows != []
    ensures var (out, slots) := Written(size, rows);
            Final(rows0, size, rows, table, params) == Upsert(Cleared(rows0, table, params), out + slots)
  {
    var (out, slots) := Written(size, rows);
    WritesIgnoreTable(Cleared(rows0, table, params), size, rows);
    UpsertAppend(Cleared(rows0, table, params), out, slots);
  }

  /** When key strings determine keys, a run is: delete the outdated rows, upsert the new ones in order. */
  lemma FinalIsUpsert(rows0: Table, size: nat, rows: seq<Entity>, table: string, params: string)
    requires size >= 1 && rows != [] && KeysDetermine(Strips(set r | r in rows))
    ensures Final(rows0, size, rows, table, params) == Upsert(Cleared(rows0, table, params), StrippedAll(rows))
  {
    AddAllRefines(Cleared(rows0, table, params), size, rows, Strips(set r | r in rows));
  }

  // ---------------------------------------------------------------------------------------------
  // What a run leaves behind

  ghost predicate Yielded(products: seq<Product>, kind: string, pk: Pk) {
    exists p :: p in products && p.kind == kind && Stripped(p.entity).pk == pk
  }

  /** The last product of a type with this key. */
  ghost predicate LastOfKey(products: seq<Product>, i: nat, kind: string, pk: Pk) {
    && i < |products| && products[i].kind == kind && Stripped(products[i].entity).pk == pk
    && forall j | i < j < |products| && products[j].kind == kind :: Stripped(products[j].entity).pk != pk
  }

  /** When key strings determine keys among the yielded rows of a type, the last row with a key is what the table holds. */
  lemma LastYieldedStays(rows0: Table, size: nat, products: seq<Product>, kind: string, table: string, params: string,
                         i: nat, pk: Pk)
    requires size >= 1 && LastOfKey(products, i, kind, pk)
    requires KeysDetermine(Strips(set r | r in OfKind(products, kind)))
    ensures var after := Final(rows0, size, OfKind(products, kind), table, params);
            pk in after && after[pk] == Stripped(products[i].entity)
  {
    var rows := OfKind(products, kind);
    SplitAt(products, i, kind);
    var before, later := OfKind(products[..i], kind), OfKind(products[i + 1..], kind);
    assert rows == before + [products[i].entity] + later;
    FinalIsUpsert(rows0, size, rows, table, params);
    forall r | r in later ensures Stripped(r).pk != pk {
      OfKindFrom(products[i + 1..], kind);
      var j :| i < j < |products| && products[j] == Product(kind, r);
    }
    LastUpserted(Cleared(rows0, table, params), StrippedAll(rows), |before|);
  }

  /**
    A row that is not yielded stays as it was exactly when nothing of its type is yielded, no origin is
    given, or it is of another table or other params; otherwise it goes, and no other row comes.
   */
  ghost predicate OthersStay(before: Table, after: Table, products: seq<Product>, kind: string, table: string, params: string) {
    forall pk | !Yielded(products, kind, pk) ::
      && (pk in after <==>
            pk in before && (kind !in KindsOf(products) || table == "" || params == ""
                             || before[pk].origin.table != table || before[pk].origin.params != params))
      && (pk in after ==> after[pk] == before[pk])
  }

  /** Of the rows yielded with a key the last one is in the table, if key strings determine keys. */
  ghost predicate LastStays(after: Table, products: seq<Product>, kind: string) {
    KeysDetermine(Strips(set r | r in OfKind(products, kind))) ==>
      forall i: nat, pk | i < |products| && LastOfKey(products, i, kind, pk) :: pk in after && after[pk] == Stripped(products[i].entity)
  }

  lemma FinalOfAll(rows0: Table, size: nat, products: seq<Product>, kind: string, table: string, params: string)
    requires size >= 1
    ensures var after := Final(rows0, size, OfKind(products, kind), table, params);
            OthersStay(rows0, after, products, kind, table, params) && LastStays(after, products, kind)
  {
    var after := Final(rows0, size, OfKind(products, kind), table, params);
    hide Final;
    hide Yielded;
    hide LastOfKey;
    hide KeysDetermine;
    forall pk | !Yielded(products, kind, pk)
      ensures pk in after <==>
                pk in rows0 && (kind !in KindsOf(products) || table == "" || params == ""
                                || rows0[pk].origin.table != table || rows0[pk].origin.params != params)
      ensures pk in after ==> after[pk] == rows0[pk]
    {
      StaleStaysIff(rows0, size, products, kind, table, params, pk);
    }
    if KeysDetermine(Strips(set r | r in OfKind(products, kind))) {
      forall i: nat, pk | i < |products| && LastOfKey(products, i, kind, pk) ensures pk in after && after[pk] == Stripped(products[i].entity) {
        LastYieldedStays(rows0, size, products, kind, table, params, i, pk);
      }
    }
  }

  lemma SplitAt(products: seq<Product>, i: nat, kind: string)
    requires i < |products| && products[i].kind == kind
    ensures OfKind(products, kind) == OfKind(products[..i], kind) + [products[i].entity] + OfKind(products[i + 1..], kind)
  {
    assert products == products[..i + 1] + products[i + 1..] && products[..i + 1] == products[..i] + [products[i]];
    OfKindJoins(products[..i + 1], products[i + 1..], kind);
    OfKindOne(products[..i], products[i], kind);
  }

  lemma {:induction false} LastUpserted(rows0: Table, rows: seq<Entity>, i: nat)
    requires i < |rows| && forall j | i < j < |rows| :: rows[j].pk != rows[i].pk
    ensures rows[i].pk in Upsert(rows0, rows) && Upsert(rows0, rows)[rows[i].pk] == rows[i]
  {
    if i < |rows| - 1 {
      LastUpserted(rows0, rows[..|rows| - 1], i);
    }
  }

  lemma {:induction false} OfKindFrom(products: seq<Product>, kind: string)
    ensures forall e | e in OfKind(products, kind) :: Product(kind, e) in products
    ensures OfKind(products, kind) == [] <==> kind !in KindsOf(products)
  {
    if |products| > 0 {
      var init, last := products[..|products| - 1], products[|products| - 1];
      OfKindFrom(init, kind);
      assert products == init + [last];
      assert KindsOf(products) == KindsOf(init) + {last.kind};
    }
  }

  lemma {:induction false} OfKindJoins(a: seq<Product>, b: seq<Product>, kind: string)
    ensures OfKind(a + b, kind) == OfKind(a, kind) + OfKind(b, kind)
  {
    if |b| == 0 {
      assert a + b == a;
    } else {
      assert (a + b)[..|a + b| - 1] == a + b[..|b| - 1];
      OfKindJoins(a, b[..|b| - 1], kind);
    }
  }

  /**
    A row that the run does not yield stays as it was exactly when nothing of its type is yielded, no
    origin is given, or it is of another table or other params; otherwise it goes.
   */
  lemma StaleStaysIff(rows0: Table, size: nat, products: seq<Product>, kind: string, table: string, params: string, pk: Pk)
    requires size >= 1 && !Yielded(products, kind, pk)
    ensures var after := Final(rows0, size, OfKind(products, kind), table, params);
            && (pk in after <==>
                  pk in rows0 && (kind !in KindsOf(products) || table == "" || params == ""
                                  || rows0[pk].origin.table != table || rows0[pk].origin.params != params))
            && (pk in after ==> after[pk] == rows0[pk])
  {
    var rows := OfKind(products, kind);
    OfKindFrom(products, kind);
    if rows != [] {
      var (out, slots) := Written(size, rows);
      FinalIs(rows0, size, rows, table, params);
      forall w | w in out + slots ensures w.pk != pk {
        WritesOnlyRows(size, rows, w);
        var r :| r in rows && w == Stripped(r);
        assert Product(kind, r) in products;
      }
      UpsertLeaves(Cleared(rows0, table, params), out + slots, pk);
    }
  }

  /** Running the extractor twice on the same raw rows leaves every table as one run does. */
  method RunTwice(extractor: ApiExtractor, raws: seq<RawRow>, dbOk: nat -> bool) returns (ok: bool)
    requires extractor.batchSize >= 1
    modifies extractor.db
    ensures extractor.Extractable(raws) && (forall n :: dbOk(n)) ==> ok
    ensures ok ==> forall kind :: extractor.db.Rows(kind)
                     == Final(old(extractor.db.Rows(kind)), extractor.batchSize,
                              OfKind(Yield(raws, extractor.extract, extractor.table), kind), extractor.table, extractor.params)
  {
    ok := extractor.Execute(raws, dbOk);
    if ok {
      label once:
      ok := extractor.Execute(raws, dbOk);
      if ok {
        forall kind ensures extractor.db.Rows(kind) == old@once(extractor.db.Rows(kind)) {
          ExtractTwice(old(extractor.db.Rows(kind)), extractor.batchSize,
                       OfKind(Yield(raws, extractor.extract, extractor.table), kind), extractor.table, extractor.params);
        }
      }
    }
  }
}
