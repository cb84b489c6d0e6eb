/** Batched writing: a slot buffer with a key index in front of the plain upsert. */
module BatchSaves {
  import opened Wrappers
  import opened Tables

  // ---------------------------------------------------------------------------------------------
  // Keys

  function StripZeroByte(s: string): string {
    if |s| == 0 then ""
    else (if s[0] == '\0' then "" else [s[0]]) + StripZeroByte(s[1..])
  }

  function Stripped(e: Entity): Entity {
    e.(pk := seq(|e.pk|, i requires 0 <= i < |e.pk| => StripZeroByte(e.pk[i])), payload := StripZeroByte(e.payload))
  }

  function StrippedAll(rows: seq<Entity>): (out: seq<Entity>)
    ensures |out| == |rows|
  {
    seq(|rows|, i requires 0 <= i < |rows| => Stripped(rows[i]))
  }

  /** Zero bytes go, and nothing else: every other character stays as often as it was. */
  lemma {:induction false} StripCounts(s: string, c: char)
    ensures multiset(StripZeroByte(s))[c] == if c == '\0' then 0 else multiset(s)[c]
    ensures c in StripZeroByte(s) <==> c in s && c != '\0'
  {
    if |s| > 0 {
      StripCounts(s[1..], c);
      StripFirst(s);
      var rest := StripZeroByte(s[1..]);
      hide StripZeroByte;
      CountFirst(s[0], s[1..], c);
      CountFirst(s[0], rest, c);
    }
  }

  lemma StripFirst(s: string)
    requires |s| > 0
    ensures s == [s[0]] + s[1..]
    ensures StripZeroByte(s) == if s[0] == '\0' then StripZeroByte(s[1..]) else [s[0]] + StripZeroByte(s[1..])
  {
  }

  lemma CountFirst(x: char, rest: string, c: char)
    ensures multiset([x] + rest)[c] == multiset(rest)[c] + if x == c then 1 else 0
    ensures c in [x] + rest <==> x == c || c in rest
  {
  }

  /** What stays keeps its order. */
  lemma {:induction false} StripJoins(a: string, b: string)
    ensures StripZeroByte(a + b) == StripZeroByte(a) + StripZeroByte(b)
  {
    if |a| == 0 {
      assert a + b == b;
    } else {
      assert (a + b)[1..] == a[1..] + b;
      StripJoins(a[1..], b);
    }
  }

  ghost predicate FreeOfZeros(e: Entity) {
    '\0' !in e.payload && forall i | 0 <= i < |e.pk| :: '\0' !in e.pk[i]
  }

  /** A row without zero bytes is saved as it is; any row keeps its origin and the number of its key fields. */
  lemma StrippedIs(e: Entity)
    ensures FreeOfZeros(e) ==> Stripped(e) == e
    ensures FreeOfZeros(Stripped(e)) && Stripped(e).origin == e.origin && |Stripped(e).pk| == |e.pk|
    ensures forall c: char | c != '\0' :: multiset(Stripped(e).payload)[c] == multiset(e.payload)[c]
    ensures forall i, c: char | 0 <= i < |e.pk| && c != '\0' :: multiset(Stripped(e).pk[i])[c] == multiset(e.pk[i])[c]
  {
    StripCounts(e.payload, '\0');
    forall i | 0 <= i < |e.pk| ensures '\0' !in Stripped(e).pk[i] {
      StripCounts(e.pk[i], '\0');
    }
    forall c: char | c != '\0' ensures multiset(Stripped(e).payload)[c] == multiset(e.payload)[c] {
      StripCounts(e.payload, c);
    }
    forall i, c: char | 0 <= i < |e.pk| && c != '\0' ensures multiset(Stripped(e).pk[i])[c] == multiset(e.pk[i])[c] {
      StripCounts(e.pk[i], c);
    }
    if FreeOfZeros(e) {
      StripPlain(e.payload);
      forall i | 0 <= i < |e.pk| ensures Stripped(e).pk[i] == e.pk[i] {
        StripPlain(e.pk[i]);
      }
      assert Stripped(e).pk == e.pk;
    }
  }

  lemma StrippedAllIs(rows: seq<Entity>)
    requires forall r | r in rows :: FreeOfZeros(r)
    ensures StrippedAll(rows) == rows
  {
    forall i | 0 <= i < |rows| ensures StrippedAll(rows)[i] == rows[i] {
      StrippedIs(rows[i]);
    }
  }

  function NonEmpty(ss: seq<string>): seq<string> {
    if |ss| == 0 then [] else (if ss[0] == "" then [] else [ss[0]]) + NonEmpty(ss[1..])
  }

  function Join(ss: seq<string>): string {
    if |ss| == 0 then "" else if |ss| == 1 then ss[0] else ss[0] + ":" + Join(ss[1..])
  }

  /** The key string of `getKeyValue`: the non-empty key fields joined by colons. */
  function KeyValue(pk: Pk): string {
    Join(NonEmpty(pk))
  }

  /** Empty key fields are left out, so the place of an empty field does not show. */
  lemma EmptyFieldsCollide(s: string)
    requires s != ""
    ensures KeyValue(["", s]) == KeyValue([s, ""]) == KeyValue([s]) == s && KeyValue([""]) == KeyValue([]) == ""
  {
    assert ["", s][1..] == [s] && [s, ""][1..] == [""] && [s][1..] == [] && [""][1..] == [];
    assert NonEmpty([s]) == [s] + NonEmpty([]) && NonEmpty([""]) == [] + NonEmpty([]);
    assert NonEmpty(["", s]) == [] + NonEmpty([s]) && NonEmpty([s, ""]) == [s] + NonEmpty([""]);
  }

  ghost predicate PlainFields(ss: seq<string>) {
    forall s | s in ss :: s != "" && ':' !in s
  }

  lemma {:induction false} NonEmptyPlain(ss: seq<string>)
    requires PlainFields(ss)
    ensures NonEmpty(ss) == ss
  {
    if |ss| > 0 {
      assert ss[0] in ss && forall s | s in ss[1..] :: s in ss;
      NonEmptyPlain(ss[1..]);
    }
  }

  lemma JoinStart(ss: seq<string>)
    requires |ss| > 0
    ensures ss[0] <= Join(ss)
    ensures |ss| == 1 ==> Join(ss) == ss[0]
    ensures |ss| > 1 ==> |Join(ss)| > |ss[0]| && Join(ss)[|ss[0]|] == ':' && Join(ss)[|ss[0]| + 1..] == Join(ss[1..])
  {
  }

  lemma FirstFieldsAgree(ss: seq<string>, tt: seq<string>)
    requires |ss| > 0 && |tt| > 0 && PlainFields(ss) && PlainFields(tt) && Join(ss) == Join(tt)
    ensures |ss[0]| >= |tt[0]|
  {
    JoinStart(ss);
    JoinStart(tt);
    assert tt[0] in tt && ':' !in tt[0];
  }

  /** Key strings determine keys whose fields are non-empty and free of colons. */
  lemma {:induction false} JoinInjective(ss: seq<string>, tt: seq<string>)
    requires PlainFields(ss) && PlainFields(tt) && Join(ss) == Join(tt)
    ensures ss == tt
  {
    if |ss| > 0 {
      assert ss[0] in ss;
      JoinStart(ss);
    }
    if |tt| > 0 {
      assert tt[0] in tt;
      JoinStart(tt);
    }
    if |ss| > 0 && |tt| > 0 {
      FirstFieldsAgree(ss, tt);
      FirstFieldsAgree(tt, ss);
      assert ss[0] == Join(ss)[..|ss[0]|] == tt[0];
      assert (forall s | s in ss[1..] :: s in ss) && (forall t | t in tt[1..] :: t in tt);
      if |ss| > 1 && |tt| > 1 {
        JoinInjective(ss[1..], tt[1..]);
      }
      assert ss == [ss[0]] + ss[1..] && tt == [tt[0]] + tt[1..];
    }
  }

  lemma PlainKeysDetermine(p: Pk, q: Pk)
    requires PlainFields(p) && PlainFields(q) && KeyValue(p) == KeyValue(q)
    ensures p == q
  {
    NonEmptyPlain(p);
    NonEmptyPlain(q);
    JoinInjective(p, q);
  }

  /** A single key column always determines the key. */
  lemma SingleKeyDetermines(a: string, b: string)
    requires KeyValue([a]) == KeyValue([b])
    ensures a == b
  {
    assert [a][1..] == [] && [b][1..] == [];
    assert forall s: string :: NonEmpty([s]) == if s == "" then [] else [s];
  }

  // ---------------------------------------------------------------------------------------------
  // The buffer as a value

  /** The table and the slots in use. */
  datatype Buffer = Buffer(table: Table, slots: seq<Entity>)

  function FindKey(slots: seq<Entity>, key: string): (at: Option<nat>)
    ensures at.Some? ==> at.value < |slots| && KeyValue(slots[at.value].pk) == key
    ensures at.None? ==> forall i | 0 <= i < |slots| :: KeyValue(slots[i].pk) != key
  {
    if |slots| == 0 then None
    else if KeyValue(slots[|slots| - 1].pk) == key then Some(|slots| - 1)
    else FindKey(slots[..|slots| - 1], key)
  }

  function AddTo(b: Buffer, size: nat, row: Entity): Buffer {
    var r := Stripped(row);
    var at := if KeyValue(r.pk) == "" then None else FindKey(b.slots, KeyValue(r.pk));
    if at.Some? then b.(slots := b.slots[at.value := r])
    else if |b.slots| + 1 == size then Buffer(Upsert(b.table, b.slots + [r]), [])
    else b.(slots := b.slots + [r])
  }

  function AddAll(b: Buffer, size: nat, rows: seq<Entity>): Buffer {
    if |rows| == 0 then b else AddTo(AddAll(b, size, rows[..|rows| - 1]), size, rows[|rows| - 1])
  }

  function Closed(b: Buffer): Table {
    Upsert(b.table, b.slots)
  }

  ghost predicate SlotsOk(b: Buffer, size: nat) {
    && |b.slots| < size
    && forall i, j | 0 <= i < j < |b.slots| ::
         KeyValue(b.slots[i].pk) == KeyValue(b.slots[j].pk) ==> KeyValue(b.slots[i].pk) == ""
  }

  ghost function Strips(rows: set<Entity>): set<Entity> {
    set r | r in rows :: Stripped(r)
  }

  /** Equal key strings mean equal primary keys, among these rows. */
  ghost predicate KeysDetermine(rows: set<Entity>) {
    forall a, b | a in rows && b in rows :: KeyValue(a.pk) == KeyValue(b.pk) != "" ==> a.pk == b.pk
  }

  ghost predicate From(rows: set<Entity>, slots: seq<Entity>) {
    forall s | s in slots :: s in rows
  }

  lemma AddRefines(b: Buffer, size: nat, row: Entity, rows: set<Entity>)
    requires SlotsOk(b, size) && KeysDetermine(rows) && Stripped(row) in rows && From(rows, b.slots)
    ensures var b' := AddTo(b, size, row);
            && SlotsOk(b', size) && From(rows, b'.slots)
            && Closed(b') == Closed(b)[Stripped(row).pk := Stripped(row)]
  {
    var r := Stripped(row);
    var at := if KeyValue(r.pk) == "" then None else FindKey(b.slots, KeyValue(r.pk));
    if at.Some? {
      OverwriteRefines(b, size, at.value, r, rows);
    } else {
      PlaceRefines(b, size, r, rows);
    }
  }

  lemma PlaceRefines(b: Buffer, size: nat, r: Entity, rows: set<Entity>)
    requires SlotsOk(b, size) && r in rows && From(rows, b.slots)
    requires KeyValue(r.pk) != "" ==> forall i | 0 <= i < |b.slots| :: KeyValue(b.slots[i].pk) != KeyValue(r.pk)
    ensures |b.slots| + 1 < size ==> SlotsOk(b.(slots := b.slots + [r]), size)
    ensures From(rows, b.slots + [r])
    ensures Upsert(b.table, b.slots + [r]) == Upsert(b.table, b.slots)[r.pk := r]
  {
    assert (b.slots + [r])[..|b.slots|] == b.slots;
  }

  lemma OverwriteRefines(b: Buffer, size: nat, i: nat, r: Entity, rows: set<Entity>)
    requires SlotsOk(b, size) && KeysDetermine(rows) && r in rows && From(rows, b.slots)
    requires i < |b.slots| && KeyValue(b.slots[i].pk) == KeyValue(r.pk) != ""
    ensures SlotsOk(b.(slots := b.slots[i := r]), size) && From(rows, b.slots[i := r])
    ensures Upsert(b.table, b.slots[i := r]) == Upsert(b.table, b.slots)[r.pk := r]
  {
    assert b.slots[i] in rows;
    forall j | 0 <= j < |b.slots| && j != i ensures KeyValue(b.slots[j].pk) != KeyValue(r.pk) {
      assert KeyValue(b.slots[if i < j then i else j].pk) != KeyValue(b.slots[if i < j then j else i].pk);
    }
    UpsertReplace(b.table, b.slots, i, r);
  }

  lemma {:induction false} AddAllRefines(table: Table, size: nat, adds: seq<Entity>, rows: set<Entity>)
    requires size >= 1 && KeysDetermine(rows) && forall r | r in adds :: Stripped(r) in rows
    ensures var b := AddAll(Buffer(table, []), size, adds);
            SlotsOk(b, size) && From(rows, b.slots) && Closed(b) == Upsert(table, StrippedAll(adds))
  {
    if |adds| > 0 {
      var init, last := adds[..|adds| - 1], adds[|adds| - 1];
      AddAllRefines(table, size, init, rows);
      var b := AddAll(Buffer(table, []), size, init);
      assert Stripped(last) in rows;
      AddRefines(b, size, last, rows);
      assert AddAll(Buffer(table, []), size, adds) == AddTo(b, size, last);
      var all := StrippedAll(adds);
      assert all[..|all| - 1] == StrippedAll(init) && all[|all| - 1] == Stripped(last);
      assert Upsert(table, all) == Upsert(table, StrippedAll(init))[Stripped(last).pk := Stripped(last)];
    }
  }

  /** Two rows whose different keys share a key string: the first one is lost. */
  lemma CollisionLosesRow(a: Entity, b: Entity, size: nat)
    requires size >= 2 && KeyValue(Stripped(a).pk) == KeyValue(Stripped(b).pk) != ""
    requires Stripped(a).pk != Stripped(b).pk
    ensures Closed(AddAll(Buffer(map[], []), size, [a, b])) != Upsert(map[], StrippedAll([a, b]))
  {
    var start := Buffer(map[], []);
    assert [a, b][..1] == [a] && [a][..0] == [];
    assert AddAll(start, size, [a]) == AddTo(AddAll(start, size, []), size, a) == Buffer(map[], [Stripped(a)]);
    assert AddAll(start, size, [a, b]) == Buffer(map[], [Stripped(b)]);
    assert [Stripped(b)][..0] == [];
    assert Stripped(a).pk !in Upsert(map[], [Stripped(b)]);
    assert StrippedAll([a, b])[..1] == [Stripped(a)];
    assert Stripped(a).pk in Upsert(map[], StrippedAll([a, b])) by {
      assert StrippedAll([a, b])[0] in StrippedAll([a, b]);
      UpsertSets(map[], map[], StrippedAll([a, b]), Stripped(a));
    }
  }

  /**
    With at least two slots, batching equals plain upsert on every sequence of rows drawn from
    `rows` and every table exactly when key strings determine primary keys among `rows`.
   */
  lemma BatchingRefinesIff(rows: set<Entity>, size: nat)
    requires size >= 2
    ensures (forall table: Table, adds: seq<Entity> | (forall r | r in adds :: r in rows) ::
               Closed(AddAll(Buffer(table, []), size, adds)) == Upsert(table, StrippedAll(adds)))
            <==> KeysDetermine(Strips(rows))
  {
    if KeysDetermine(Strips(rows)) {
      forall table: Table, adds: seq<Entity> | forall r | r in adds :: r in rows
        ensures Closed(AddAll(Buffer(table, []), size, adds)) == Upsert(table, StrippedAll(adds))
      {
        AddAllRefines(table, size, adds, Strips(rows));
      }
    } else {
      var a, b :| a in rows && b in rows
        && KeyValue(Stripped(a).pk) == KeyValue(Stripped(b).pk) != "" && Stripped(a).pk != Stripped(b).pk;
      var adds := [a, b];
      CollisionLosesRow(a, b, size);
      assert forall r | r in adds :: r in rows;
      var empty: Table := map[];
      assert Closed(AddAll(Buffer(empty, []), size, adds)) != Upsert(empty, StrippedAll(adds));
    }
  }

  /** Composite keys whose fields contain colons do collide. */
  lemma CompositeKeysCollide() returns (a: Entity, b: Entity)
    ensures !KeysDetermine(Strips({a, b}))
  {
    a := Entity(["x:y", "z"], "", NO_ORIGIN);
    b := Entity(["x", "y:z"], "", NO_ORIGIN);
    PairKey("x:y", "z");
    PairKey("x", "y:z");
    assert a.pk[1] != b.pk[1];
    hide KeyValue;
    hide Stripped;
    SameText();
    SharedKey(a, b);
  }

  lemma SameText()
    ensures "x:y" + ":" + "z" == "x" + ":" + "y:z" != ""
  {
  }

  lemma PairKey(s: string, t: string)
    requires s != "" && t != "" && '\0' !in s && '\0' !in t
    ensures Stripped(Entity([s, t], "", NO_ORIGIN)).pk == [s, t]
    ensures KeyValue([s, t]) == s + ":" + t
  {
    StrippedPair(s, t);
    NonEmptyPair(s, t);
  }

  lemma SharedKey(a: Entity, b: Entity)
    requires KeyValue(Stripped(a).pk) == KeyValue(Stripped(b).pk) != "" && Stripped(a).pk != Stripped(b).pk
    ensures !KeysDetermine(Strips({a, b}))
  {
    hide KeyValue;
    hide Stripped;
    assert Stripped(a) in Strips({a, b}) && Stripped(b) in Strips({a, b});
  }

  lemma {:induction false} StripPlain(s: string)
    requires '\0' !in s
    ensures StripZeroByte(s) == s
  {
    if |s| > 0 {
      assert s[0] in s && forall c | c in s[1..] :: c in s;
      StripPlain(s[1..]);
    }
  }

  lemma StrippedPair(s: string, t: string)
    requires '\0' !in s && '\0' !in t
    ensures Stripped(Entity([s, t], "", NO_ORIGIN)).pk == [s, t]
  {
    StripPlain(s);
    StripPlain(t);
  }

  lemma NonEmptyPair(s: string, t: string)
    requires s != "" && t != ""
    ensures KeyValue([s, t]) == s + ":" + t
  {
    assert [s, t][1..] == [t] && [t][1..] == [];
    assert NonEmpty([t]) == [t] + NonEmpty([]);
    assert NonEmpty([s, t]) == [s] + NonEmpty([t]) == [s, t];
    assert Join([t]) == t;
  }

  /** The rows written to the table so far, and those still in the slots, whatever the table holds. */
  function Written(size: nat, rows: seq<Entity>): (seq<Entity>, seq<Entity>) {
    if |rows| == 0 then ([], [])
    else
      var (out, slots) := Written(size, rows[..|rows| - 1]);
      var b := AddTo(Buffer(map[], slots), size, rows[|rows| - 1]);
      if b.slots == [] then (out + (slots + [Stripped(rows[|rows| - 1])]), []) else (out, b.slots)
  }

  /** What a batch writes does not depend on the table. */
  lemma {:induction false} WritesIgnoreTable(table: Table, size: nat, rows: seq<Entity>)
    requires size >= 1
    ensures var (out, slots) := Written(size, rows);
            AddAll(Buffer(table, []), size, rows) == Buffer(Upsert(table, out), slots)
  {
    if |rows| > 0 {
      var init, r := rows[..|rows| - 1], rows[|rows| - 1];
      WritesIgnoreTable(table, size, init);
      var (out, slots) := Written(size, init);
      UpsertAppend(table, out, slots + [Stripped(r)]);
    }
  }

  /** Only rows that were added are written. */
  lemma {:induction false} WritesOnlyRows(size: nat, rows: seq<Entity>, w: Entity)
    requires w in Written(size, rows).0 || w in Written(size, rows).1
    ensures exists r :: r in rows && w == Stripped(r)
  {
    if |rows| > 0 {
      var init, last := rows[..|rows| - 1], rows[|rows| - 1];
      assert last in rows && forall r | r in init :: r in rows;
      if w != Stripped(last) {
        WritesOnlyRows(size, init, w);
      }
    }
  }

  // ---------------------------------------------------------------------------------------------
  // The buffer in memory

  lemma {:induction false} FindKeyIs(slots: seq<Entity>, key: string, i: nat)
    requires i < |slots| && KeyValue(slots[i].pk) == key
    requires forall j | 0 <= j < |slots| && j != i :: KeyValue(slots[j].pk) != key
    ensures FindKey(slots, key) == Some(i)
  {
    var n := |slots| - 1;
    if i < n {
      assert KeyValue(slots[n].pk) != key;
      FindKeyIs(slots[..n], key, i);
    }
  }

  class BatchSave {
    const db: Database
    const table: string
    const size: nat
    var slots: seq<Entity>
    var current: nat
    var valueIndex: map<string, nat>

    /** The key index points every indexed key at the slot holding it, and no key is held twice. */
    ghost predicate Valid()
      reads this
    {
      && |slots| == size && current <= size
      && (forall key | key in valueIndex ::
            key != "" && valueIndex[key] < current && KeyValue(slots[valueIndex[key]].pk) == key)
      && (forall i | 0 <= i < current && KeyValue(slots[i].pk) != "" ::
            KeyValue(slots[i].pk) in valueIndex && valueIndex[KeyValue(slots[i].pk)] == i)
    }

    ghost function Cached(): seq<Entity>
      requires Valid()
      reads this
    {
      slots[..current]
    }

    ghost function Buffered(): Buffer
      requires Valid()
      reads this, db
    {
      Buffer(db.Rows(table), Cached())
    }

    constructor (db: Database, table: string, size: nat)
      ensures Valid()
      ensures this.db == db && this.table == table && this.size == size && current == 0
    {
      this.db, this.table, this.size := db, table, size;
      slots := seq(size, _ => Entity([], "", NO_ORIGIN));
      current, valueIndex := 0, map[];
    }

    lemma IndexFinds(key: string)
      requires Valid() && key != ""
      ensures FindKey(slots[..current], key) == if key in valueIndex then Some(valueIndex[key]) else None
    {
      if key in valueIndex {
        FindKeyIs(slots[..current], key, valueIndex[key]);
      }
    }

    /**
      Cache a row; flush when the last slot fills up. With a full buffer, which only a failed flush
      leaves behind, there is no slot to write to.
     */
    method Add(row: Entity, dbOk: bool) returns (ok: bool)
      requires Valid() && current < size
      modifies this, db
      ensures Valid()
      ensures ok ==> current < size && Buffered() == AddTo(old(Buffered()), size, row)
      ensures ok ==> db.log == old(db.log) || db.log == old(db.log) + [Saved(table)]
      ensures ok ==> forall t | t != table :: db.Rows(t) == old(db.Rows(t))
      ensures old(db.tables).Keys <= db.tables.Keys <= old(db.tables).Keys + {table}
      ensures !ok ==> !dbOk && current == size && Cached() == old(Cached()) + [Stripped(row)]
      ensures !ok ==> db.tables == old(db.tables) && db.log == old(db.log)
    {
      var r := Stripped(row);
      var key := KeyValue(r.pk);
      if key != "" {
        IndexFinds(key);
        if key in valueIndex {
          Overwrite(valueIndex[key], r);
          return true;
        }
      }
      Place(r);
      if current == size {
        ok := Flush(dbOk);
      } else {
        ok := true;
      }
    }

    /** Replace the row of a slot by another row with the same key string. */
    method Overwrite(index: nat, r: Entity)
      requires Valid() && index < current && KeyValue(slots[index].pk) == KeyValue(r.pk)
      modifies this`slots
      ensures Valid() && Cached() == old(Cached())[index := r]
    {
      slots := slots[index := r];
    }

    /** Put a row whose key is not indexed into the next slot. */
    method Place(r: Entity)
      requires Valid() && current < size && KeyValue(r.pk) !in valueIndex
      modifies this
      ensures Valid() && current == old(current) + 1 && Cached() == old(Cached()) + [r]
    {
      if KeyValue(r.pk) != "" {
        valueIndex := valueIndex[KeyValue(r.pk) := current];
      }
      slots := slots[current := r];
      current := current + 1;
    }

    method Flush(dbOk: bool) returns (ok: bool)
      requires Valid()
      modifies this, db
      ensures Valid() && ok == (dbOk || old(current) == 0)
      ensures ok ==> current == 0 && db.Rows(table) == Closed(old(Buffered()))
      ensures ok ==> db.log == old(db.log) || db.log == old(db.log) + [Saved(table)]
      ensures ok ==> forall t | t != table :: db.Rows(t) == old(db.Rows(t))
      ensures old(db.tables).Keys <= db.tables.Keys <= old(db.tables).Keys + {table}
      ensures !ok ==> !dbOk && current == old(current) && Cached() == old(Cached())
      ensures !ok ==> db.tables == old(db.tables) && db.log == old(db.log)
    {
      if current == 0 {
        return true;
      }
      ok := db.CreateOrUpdate(table, slots[..current], dbOk);
      if ok {
        current := 0;
        valueIndex := map[];
      }
    }

    method Close(dbOk: bool) returns (ok: bool)
      requires Valid()
      modifies this, db
      ensures Valid() && ok == (dbOk || old(current) == 0)
      ensures ok ==> current == 0 && db.Rows(table) == Closed(old(Buffered()))
      ensures ok ==> db.log == old(db.log) || db.log == old(db.log) + [Saved(table)]
      ensures ok ==> forall t | t != table :: db.Rows(t) == old(db.Rows(t))
      ensures old(db.tables).Keys <= db.tables.Keys <= old(db.tables).Keys + {table}
      ensures !ok ==> !dbOk && db.tables == old(db.tables) && db.log == old(db.log)
    {
      ok := true;
      if current > 0 {
        ok := Flush(dbOk);
      }
    }
  }

  /**
    A whole batch against a database whose flushes succeed: it equals upserting the rows one by one,
    as they are given if they hold no zero byte.
   */
  method SaveAll(db: Database, table: string, size: nat, rows: seq<Entity>)
    requires size >= 1 && KeysDetermine(Strips(set r | r in rows))
    modifies db
    ensures db.Rows(table) == Upsert(old(db.Rows(table)), StrippedAll(rows))
    ensures (forall r | r in rows :: FreeOfZeros(r)) ==> db.Rows(table) == Upsert(old(db.Rows(table)), rows)
    ensures forall t | t != table :: db.Rows(t) == old(db.Rows(t))
  {
    var batch := new BatchSave(db, table, size);
    ghost var start := batch.Buffered();
    for i := 0 to |rows|
      invariant batch.Valid() && batch.current < size
      invariant batch.Buffered() == AddAll(start, size, rows[..i])
      invariant forall t | t != table :: db.Rows(t) == old(db.Rows(t))
    {
      assert rows[..i + 1][..i] == rows[..i];
      var _ := batch.Add(rows[i], true);
    }
    assert rows[..|rows|] == rows;
    AddAllRefines(start.table, size, rows, Strips(set r | r in rows));
    var _ := batch.Close(true);
    if forall r | r in rows :: FreeOfZeros(r) {
      StrippedAllIs(rows);
    }
  }
}
