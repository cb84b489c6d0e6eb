/** Changing the type of columns row by row: a change of columns whose update runs through a batch. */
module ColumnTransforms {
  import opened Wrappers
  import opened MigrationHelper
  import TransformTables

  /** The cells of a row by column. */
  type Row = map<string, int>

  type RowTransform = Row -> Option<string -> int>

  /** Which steps of the update succeed; a flush happens with the row that fills the batch. */
  datatype Steps = Steps(open: bool, fetch: nat -> bool, flush: nat -> bool, close: bool)

  function RowAt(t: Columns, i: nat): Row {
    map c | c in t && i < |t[c].cells| :: t[c].cells[i]
  }

  ghost predicate HasRows(t: Columns, n: nat) {
    forall c | c in t :: |t[c].cells| == n
  }

  predicate Transformable(t: Columns, n: nat, transform: RowTransform) {
    forall i | 0 <= i < n :: transform(RowAt(t, i)).Some?
  }

  /** A column of the new struct as the update finds it. */
  function Found(t: Columns, cols: seq<string>, wanted: Columns, c: string): Column
    requires c in wanted
  {
    if c in t && c !in cols then t[c] else wanted[c]
  }

  /** The columns once the first `written` rows have reached the table. */
  function WrittenTo(t: Columns, cols: seq<string>, wanted: Columns, n: nat, written: nat, transform: RowTransform): (out: Columns)
    requires HasRows(t, n) && HasRows(wanted, n) && written <= n && Transformable(t, written, transform)
    ensures out.Keys == wanted.Keys
  {
    map c | c in wanted :: Column(Found(t, cols, wanted, c).kind,
      seq(n, i requires 0 <= i < n =>
        if i < written then transform(RowAt(t, i)).value(c) else Found(t, cols, wanted, c).cells[i]))
  }

  /** Every row of the new columns is what the transform makes of the old row. */
  ghost predicate AllTransformed(before: Columns, after: Columns, wanted: Columns, n: nat, transform: RowTransform) {
    forall c | c in wanted ::
      c in after && |after[c].cells| == n
      && forall i | 0 <= i < n :: transform(RowAt(before, i)).Some? && after[c].cells[i] == transform(RowAt(before, i)).value(c)
  }

  /** From row `from` on, the transformed rows are the rows as the update finds them. */
  ghost predicate RestIsFound(before: Columns, cols: seq<string>, wanted: Columns, from: nat, n: nat, transform: RowTransform) {
    forall c, i | c in wanted && from <= i < n ::
      i < |Found(before, cols, wanted, c).cells| && transform(RowAt(before, i)).Some?
      && Found(before, cols, wanted, c).cells[i] == transform(RowAt(before, i)).value(c)
  }

  /** The transform hands on every other column of the table as it is, and the new struct has no more than these. */
  ghost predicate OthersHandedOn(t: Columns, cols: seq<string>, wanted: Columns, n: nat, transform: RowTransform) {
    && (forall c | c in wanted :: c in t || c in cols)
    && forall c, i | c in wanted && c in t && c !in cols && 0 <= i < n && i < |t[c].cells| && transform(RowAt(t, i)).Some? ::
         transform(RowAt(t, i)).value(c) == t[c].cells[i]
  }

  ghost predicate NoneFails(t: Columns, n: nat, transform: RowTransform, steps: Steps) {
    steps.open && (forall i :: steps.fetch(i) && steps.flush(i)) && Transformable(t, n, transform)
  }

  /**
    Transform the rows one by one into a batch. The batch is closed by a deferred call whose error
    nobody looks at, also when the update fails. Rows keep their keys, which differ.
   */
  method TransformRows(t: Columns, n: nat, transform: RowTransform, steps: Steps) returns (ok: bool, written: nat)
    ensures written <= n && Transformable(t, written, transform)
    ensures ok ==> Transformable(t, n, transform) && written == if steps.close then n else TransformTables.Full(n)
    ensures NoneFails(t, n, transform, steps) ==> ok
  {
    hide TransformTables.Full;
    hide RowAt;
    if !steps.open {
      return false, 0;
    }
    assert TransformTables.Full(0) == 0;
    var flushed := 0;
    for i := 0 to n
      invariant Transformable(t, i, transform) && flushed == TransformTables.Full(i)
    {
      TransformTables.FullStep(i);
      if !steps.fetch(i) || transform(RowAt(t, i)).None? {
        return false, if steps.close then i else flushed;
      }
      if i + 1 - flushed == TransformTables.BATCH_SIZE {
        if !steps.flush(i) {
          return false, if steps.close then i + 1 else flushed;
        }
        flushed := i + 1;
      }
    }
    ok, written := true, if steps.close then n else flushed;
  }

  /** When the change is done, a column of the struct is what the update made of it. */
  lemma ColumnAfter(t: Columns, cols: seq<string>, hash: string, wanted: Columns, effect: Columns, c: string)
    requires RenamedAll(t, cols, hash).Some? && WellPut(cols, hash, wanted, wanted) && effect.Keys == wanted.Keys && c in wanted
    ensures var now := Changed(RenamedAll(t, cols, hash).value, wanted, effect) - Names(TmpNames(cols, hash));
            c in now && now[c] == effect[c]
  {
    NamesOfTmp(cols, hash, c);
    CopiedAt(RenamedAll(t, cols, hash).value, wanted, effect, c);
  }

  /** A column of the table that the struct does not have stays as it was. */
  lemma ColumnKind(t: Columns, cols: seq<string>, hash: string, wanted: Columns, effect: Columns, c: string)
    requires RenamedAll(t, cols, hash).Some? && WellPut(cols, hash, wanted, wanted) && effect.Keys == wanted.Keys
    ensures var now := Changed(RenamedAll(t, cols, hash).value, wanted, effect) - Names(TmpNames(cols, hash));
            && (c in wanted ==> c in now && now[c] == effect[c])
            && (c in t && c !in wanted ==> c in now && now[c] == t[c])
  {
    if c in wanted {
      ColumnAfter(t, cols, hash, wanted, effect, c);
    } else if c in t {
      RenamedAllLeaves(t, cols, hash, c);
      NamesOfTmp(cols, hash, c);
      if d :| d in cols && c == TmpName(d, hash) {
        RenamedAllMoves(t, cols, hash, d);
      }
      CopiedAt(RenamedAll(t, cols, hash).value, wanted, effect, c);
    }
  }

  /** Every row is transformed exactly when the last flush succeeds or the rest needs no change. */
  lemma AllTransformedIff(t: Columns, cols: seq<string>, hash: string, wanted: Columns, n: nat, transform: RowTransform, close: bool)
    requires RenamedAll(t, cols, hash).Some? && WellPut(cols, hash, wanted, wanted)
    requires HasRows(t, n) && HasRows(wanted, n) && Transformable(t, n, transform)
    ensures var effect := WrittenTo(t, cols, wanted, n, if close then n else TransformTables.Full(n), transform);
            var now := Changed(RenamedAll(t, cols, hash).value, wanted, effect) - Names(TmpNames(cols, hash));
            AllTransformed(t, now, wanted, n, transform) <==> close || RestIsFound(t, cols, wanted, TransformTables.Full(n), n, transform)
  {
    hide RowAt;
    hide Found;
    hide WrittenTo;
    hide Changed;
    hide RenamedAll;
    hide WellPut;
    hide AllTransformed;
    hide RestIsFound;
    hide TransformTables.Full;
    var written := if close then n else TransformTables.Full(n);
    var effect := WrittenTo(t, cols, wanted, n, written, transform);
    var now := Changed(RenamedAll(t, cols, hash).value, wanted, effect) - Names(TmpNames(cols, hash));
    forall c | c in wanted ensures c in now && now[c] == effect[c] {
      ColumnAfter(t, cols, hash, wanted, effect, c);
    }
    WrittenIff(t, now, cols, wanted, n, written, transform);
    NothingLeft(t, cols, wanted, n, transform);
  }

  /** Every row is transformed exactly when those that were not written come out as they were found. */
  lemma WrittenIff(t: Columns, now: Columns, cols: seq<string>, wanted: Columns, n: nat, written: nat, transform: RowTransform)
    requires HasRows(t, n) && HasRows(wanted, n) && written <= n && Transformable(t, n, transform)
    requires forall c | c in wanted :: c in now && now[c] == WrittenTo(t, cols, wanted, n, written, transform)[c]
    ensures AllTransformed(t, now, wanted, n, transform) <==> RestIsFound(t, cols, wanted, written, n, transform)
  {
    forall c, i | c in wanted && 0 <= i < n
      ensures |now[c].cells| == n && |Found(t, cols, wanted, c).cells| == n
      ensures now[c].cells[i] == if i < written then transform(RowAt(t, i)).value(c) else Found(t, cols, wanted, c).cells[i]
    {
    }
    hide RowAt;
    hide Found;
    hide WrittenTo;
  }

  lemma NothingLeft(t: Columns, cols: seq<string>, wanted: Columns, n: nat, transform: RowTransform)
    ensures RestIsFound(t, cols, wanted, n, n, transform)
  {
  }

  /** An update that hands on the other columns does no more than it was asked to. */
  lemma HandedOnIsConfined(t: Columns, cols: seq<string>, hash: string, wanted: Columns, n: nat, written: nat, transform: RowTransform)
    requires RenamedAll(t, cols, hash).Some? && HasRows(t, n) && HasRows(wanted, n) && written <= n
    requires Transformable(t, written, transform) && OthersHandedOn(t, cols, wanted, n, transform)
    ensures Confined(t, RenamedAll(t, cols, hash).value, cols, wanted, WrittenTo(t, cols, wanted, n, written, transform))
  {
    forall c | c in wanted && c !in cols ensures c in RenamedAll(t, cols, hash).value {
      RenamedAllLeaves(t, cols, hash, c);
    }
    hide RenamedAll;
    var effect := WrittenTo(t, cols, wanted, n, written, transform);
    forall c | c in effect && c in t && c !in cols ensures effect[c] == t[c] {
      assert effect[c].cells == t[c].cells;
    }
  }

  /** Change columns with such an update. */
  method TransformColumns(schema: TableSchema, cols: seq<string>, hash: string, wanted: Columns, n: nat, transform: RowTransform,
                          steps: Steps, outcomes: Outcomes)
    returns (stage: Stage)
    requires HasRows(schema.columns, n) && HasRows(wanted, n)
    modifies schema
    ensures stage.Done? ==> forall c | c in cols :: TmpName(c, hash) !in schema.columns
    ensures stage.Done? && WellPut(cols, hash, wanted, wanted) ==>
              (AllTransformed(old(schema.columns), schema.columns, wanted, n, transform)
               <==> steps.close || RestIsFound(old(schema.columns), cols, wanted, TransformTables.Full(n), n, transform))
    ensures stage.Done? && WellPut(cols, hash, wanted, wanted) ==>
              && (forall c | c in wanted ::
                    c in schema.columns
                    && schema.columns[c].kind == if c in old(schema.columns) && c !in cols then old(schema.columns)[c].kind
                                                 else wanted[c].kind)
              && (forall c | c in old(schema.columns) && c !in wanted ::
                    c in schema.columns && schema.columns[c] == old(schema.columns)[c])
    ensures WellPut(cols, hash, wanted, wanted) && NoneFails(old(schema.columns), n, transform, steps) ==> !stage.Updating?
    ensures UndoSucceeds(outcomes) && WellPut(cols, hash, wanted, wanted) && stage.Updating?
            && OthersHandedOn(old(schema.columns), cols, wanted, n, transform) ==>
              schema.columns == old(schema.columns)
  {
    ghost var t := schema.columns;
    var ok, written := TransformRows(schema.columns, n, transform, steps);
    var effect := WrittenTo(schema.columns, cols, wanted, n, written, transform);
    stage := schema.ChangeColumnsType(cols, hash, wanted, Some(effect), outcomes.(update := ok));
    if WellPut(cols, hash, wanted, wanted) {
      assert WellPut(cols, hash, wanted, effect);
      if stage.Done? {
        AllTransformedIff(t, cols, hash, wanted, n, transform, steps.close);
        forall c
          ensures c in wanted ==> c in schema.columns && schema.columns[c].kind == Found(t, cols, wanted, c).kind
          ensures c in t && c !in wanted ==> c in schema.columns && schema.columns[c] == t[c]
        {
          ColumnKind(t, cols, hash, wanted, effect, c);
        }
      } else if stage.Updating? && OthersHandedOn(t, cols, wanted, n, transform) {
        HandedOnIsConfined(t, cols, hash, wanted, n, written, transform);
      }
    }
  }
}
