/** A SELECT from its EXECUTE response to its last row: execute, the cursor and the server together. */
module Select {
  import opened Bytes
  import opened Wire
  import opened Codec
  import opened Layout
  import opened LobHandle
  import opened Cursor
  import opened Streaming
  import opened Drain
  import opened Execute
  import opened Prepare

  // ---------- Well-typed rows ----------

  /** A column value: NULL, a value of the declared type, a LOB locator, or a self-described value. */
  datatype Field = NoField(marker: int32) | Plain(tree: Tree) | Located(packed: bytes) | SelfTyped(slot: Slot)

  predicate IsLob(dt: byte) { dt == TYPE_BLOB || dt == TYPE_CLOB }

  /** The field suits the declared type of its column. */
  predicate FieldOk(dt: byte, f: Field)
  {
    match f
    case NoField(marker) => marker < 0
    case Plain(t) =>
      && dt != TYPE_NULL && !IsLob(dt) && Fits(dt, t) && Depth(t) <= MAX_COLLECTION_DEPTH
      && |Print(dt, t)| < TWO_31
    case Located(packed) => IsLob(dt) && WellPacked(packed) && |packed| < TWO_31
    case SelfTyped(slot) => dt == TYPE_NULL && SlotOk(slot) && !slot.NoValue?
  }

  function FieldCell(dt: byte, f: Field): (c: Cell)
    requires FieldOk(dt, f)
    ensures CellOk(c)
  {
    match f
    case NoField(marker) => CNull(marker)
    case Plain(t) => CData(Print(dt, t))
    case Located(packed) => CData(packed)
    case SelfTyped(slot) => SlotCell(slot)
  }

  function FieldValue(dt: byte, f: Field): (v: Value)
  {
    match f
    case NoField(_) => Nil
    case Plain(t) => Meaning(t)
    case Located(packed) => Lob(packed, dt == TYPE_CLOB)
    case SelfTyped(slot) => SlotValue(slot)
  }

  lemma FieldDecodes(dt: byte, f: Field)
    requires FieldOk(dt, f) && !f.NoField?
    ensures DecodeCell(dt, false, FieldCell(dt, f).data) == Ok(FieldValue(dt, f))
  {
    match f
    case Plain(t) => PrintedTree(dt, t, 0);
    case Located(_) =>
    case SelfTyped(slot) => SlotDecodes(dt, slot);
  }

  predicate RowFits(types: seq<byte>, fs: seq<Field>)
  {
    |fs| == |types| && forall i :: 0 <= i < |fs| ==> FieldOk(types[i], fs[i])
  }

  function RowCells(types: seq<byte>, fs: seq<Field>): (cells: seq<Cell>)
    requires RowFits(types, fs)
    ensures |cells| == |fs| && forall i :: 0 <= i < |cells| ==> CellOk(cells[i])
  {
    if fs == [] then [] else [FieldCell(types[0], fs[0])] + RowCells(types[1..], fs[1..])
  }

  function RowValues(types: seq<byte>, fs: seq<Field>): (row: Row)
    requires |fs| == |types|
    ensures |row| == |fs| && forall i :: 0 <= i < |row| ==> row[i] == FieldValue(types[i], fs[i])
  {
    if fs == [] then [] else [FieldValue(types[0], fs[0])] + RowValues(types[1..], fs[1..])
  }

  /** A well-typed row always decodes, to the values of its fields. */
  lemma {:induction false} RowDecodes(types: seq<byte>, fs: seq<Field>)
    requires RowFits(types, fs)
    ensures DecodeRow(types, false, RowCells(types, fs)) == Ok(RowValues(types, fs))
  {
    if fs != [] {
      if !fs[0].NoField? {
        FieldDecodes(types[0], fs[0]);
      }
      RowDecodes(types[1..], fs[1..]);
      assert RowCells(types, fs)[1..] == RowCells(types[1..], fs[1..]);
    }
  }

  // ---------- Tables ----------

  ghost predicate TableFits(types: seq<byte>, table: seq<seq<Field>>) {
    forall i :: 0 <= i < |table| ==> RowFits(types, table[i])
  }

  /** `rows` are the table on the wire. */
  ghost predicate IsTable(types: seq<byte>, table: seq<seq<Field>>, rows: seq<WireRow>)
    requires TableFits(types, table)
  {
    |rows| == |table| && forall i :: 0 <= i < |table| ==> rows[i].cells == RowCells(types, table[i])
  }

  function TableValues(types: seq<byte>, table: seq<seq<Field>>): (rows: seq<Row>)
    requires forall i :: 0 <= i < |table| ==> |table[i]| == |types|
    ensures |rows| == |table|
  {
    if table == [] then [] else [RowValues(types, table[0])] + TableValues(types, table[1..])
  }

  lemma {:induction false} TableDecodes(types: seq<byte>, table: seq<seq<Field>>, rows: seq<WireRow>)
    requires TableFits(types, table) && IsTable(types, table, rows)
    ensures Deliverable(types, false, rows) == TableValues(types, table)
    decreases |table|
  {
    if table != [] {
      RowDecodes(types, table[0]);
      TableDecodes(types, table[1..], rows[1..]);
    }
  }

  // ---------- The whole query ----------

  /**
   For every well-typed table, however the server cuts it into an inline batch and FETCH batches and at
   every version: execute succeeds, and the i-th call of Next delivers the i-th row; every later call is
   the end.
   */
  lemma SelectDelivers(types: seq<byte>, version: int, h: SentHeader, rest: bytes, fetched: Option<bytes>,
                       table: seq<seq<Field>>, rows: seq<WireRow>, answers: Answers, k: nat, handle: int32, size: int32,
                       n: nat)
    requires TableOk(|types|, rows) && TableFits(types, table) && IsTable(types, table, rows)
    requires HeaderOk(h) && h.rc == |rows| && HonestInline(rows, |types|, version, rest)
    requires Serves(answers, rows, |types|, version)
    ensures var o := Outcome(CMD_SELECT, types, version, Some(PrintHeader(version, h, rest)), fetched);
            && o.Ran? && o.rc == |table| && o.cursor.Some? && o.cursor.value.pos <= |o.cursor.value.tuples|
            && Delivers(Calls(o.cursor.value, Replies(answers, k, handle, size, o.cursor.value, n)).1,
                        TableValues(types, table))
  {
    SelectOpens(types, version, h, rest, fetched, table, rows);
    var c := Open(types, version, h.rc, rest).value;
    DrainedFrom(answers, rows, k, handle, size, c, n);
  }

  /** execute opens a cursor with the whole table ahead, every row of which decodes. */
  lemma SelectOpens(types: seq<byte>, version: int, h: SentHeader, rest: bytes, fetched: Option<bytes>,
                    table: seq<seq<Field>>, rows: seq<WireRow>)
    requires TableOk(|types|, rows) && TableFits(types, table) && IsTable(types, table, rows)
    requires HeaderOk(h) && h.rc == |rows| && HonestInline(rows, |types|, version, rest)
    ensures var r := Open(types, version, h.rc, rest);
            && r.Ok?
            && Outcome(CMD_SELECT, types, version, Some(PrintHeader(version, h, rest)), fetched) ==
               Ran(h.rc, Some(r.value))
            && Synced(rows, r.value) && !r.value.closed && RestDecodes(rows, r.value)
            && Ahead(rows, r.value) == TableValues(types, table)
  {
    HeaderRoundTrip(version, h, rest);
    SelectOutcome(types, version, PrintHeader(version, h, rest), h.rc, rest, fetched);
    TableDecodes(types, table, rows);
    OpenHonest(rows, types, version, h.rc, rest);
    AheadIsWhole(rows, Open(types, version, h.rc, rest).value);
  }

  lemma SelectOutcome(types: seq<byte>, version: int, reply: bytes, rc: int32, rest: bytes, fetched: Option<bytes>)
    requires ReadHeader(version, reply) == Got(rc, rest)
    ensures var r := Open(types, version, rc, rest);
            Outcome(CMD_SELECT, types, version, Some(reply), fetched) ==
            if r.Err? then NotRun else Ran(rc, Some(r.value))
  {
  }

  // ---------- The rows of a CALL ----------

  /**
   The cursor a CALL opens: when the server announces all its rows and they decode, nothing is lost
   however few of them the first FETCH brought, and nothing more is asked for once all are in.
   */
  lemma CallCursorOpens(cmd: byte, types: seq<byte>, version: int, h: SentHeader, rest: bytes, fetched: bytes,
                        rows: seq<WireRow>)
    requires (cmd == 24 || cmd == 126) && TableOk(|types|, rows) && AllDecode(types, true, rows)
    requires HeaderOk(h) && h.rc == |rows| > 0 && HonestReply(rows, |types|, 1, version, fetched)
    ensures var o := Outcome(cmd, types, version, Some(PrintHeader(version, h, rest)), Some(fetched));
            && o.Ran? && o.rc == |rows| && o.cursor.Some?
            && var c := o.cursor.value;
            && Synced(rows, c) && !c.closed && c.cols == types && c.version == version && RestDecodes(rows, c)
            && Ahead(rows, c) == Deliverable(types, true, rows)
            && (c.nextIndex == |rows| + 1 ==> c.fetchedAll)
  {
    HeaderRoundTrip(version, h, rest);
    var c := FreshCursor(types, true, version);
    assert rows[0..] == rows && Ahead(rows, c) == [] + Deliverable(types, true, rows) == Deliverable(types, true, rows);
    DeliverableIsWhole(types, true, rows);
    FetchHonest(rows, c, fetched);
    var (d, e) := Fetch(c, Some(fetched));
    NothingLeft(rows, d);
    var f := d.(fetchedAll := d.fetchedAll || d.nextIndex > |rows|);
    CallOutcome(cmd, types, version, PrintHeader(version, h, rest), h.rc, rest, Some(fetched));
    assert Ahead(rows, f) == Ahead(rows, d) && Left(rows, f) == Left(rows, d);
    AheadIsWhole(rows, f);
  }

  lemma CallOutcome(cmd: byte, types: seq<byte>, version: int, reply: bytes, rc: int32, rest: bytes,
                    fetched: Option<bytes>)
    requires IsCallCmd(cmd) && rc > 0 && ReadHeader(version, reply) == Got(rc, rest)
    ensures var (d, e) := Fetch(FreshCursor(types, true, version), fetched);
            Outcome(cmd, types, version, Some(reply), fetched) ==
            if e.Some? then NotRun else Ran(rc, Some(d.(fetchedAll := d.fetchedAll || d.nextIndex > rc)))
  {
  }

  /** Draining it delivers every row of the CALL in order, then the end. */
  lemma CallDeliversAll(cmd: byte, types: seq<byte>, version: int, h: SentHeader, rest: bytes, fetched: bytes,
                        rows: seq<WireRow>, answers: Answers, k: nat, handle: int32, size: int32, n: nat)
    requires (cmd == 24 || cmd == 126) && TableOk(|types|, rows) && AllDecode(types, true, rows)
    requires HeaderOk(h) && h.rc == |rows| > 0 && HonestReply(rows, |types|, 1, version, fetched)
    requires Serves(answers, rows, |types|, version)
    ensures var o := Outcome(cmd, types, version, Some(PrintHeader(version, h, rest)), Some(fetched));
            && o.Ran? && o.cursor.Some? && o.cursor.value.pos <= |o.cursor.value.tuples|
            && Delivers(Calls(o.cursor.value, Replies(answers, k, handle, size, o.cursor.value, n)).1,
                        Deliverable(types, true, rows))
  {
    CallCursorOpens(cmd, types, version, h, rest, fetched, rows);
    var c := Outcome(cmd, types, version, Some(PrintHeader(version, h, rest)), Some(fetched)).cursor.value;
    DrainedFrom(answers, rows, k, handle, size, c, n);
  }

  // ---------- From PREPARE on ----------

  function DeclaredTypes(cs: seq<WireColumn>): (ts: seq<byte>)
    ensures |ts| == |cs| && forall i :: 0 <= i < |cs| ==> ts[i] == Declared(cs[i])
  {
    if cs == [] then [] else [Declared(cs[0])] + DeclaredTypes(cs[1..])
  }

  /** The columns a PREPARE response prints decide the types its rows are decoded by. */
  lemma PreparedTypes(sqlLen: nat, handle: int32, life: bytes, params: int32, updatable: byte, cs: seq<WireColumn>,
                      rest: bytes)
    requires handle >= 0 && |life| == 4 && 0 <= params <= sqlLen
    requires |cs| < TWO_31 && forall i :: 0 <= i < |cs| ==> ColumnOk(cs[i])
    ensures var r := ParsePrepare(sqlLen, PrintPrepare(handle, life, 21, params, updatable, cs, rest));
            && r.Ok? && r.value.handle == handle && r.value.cmdType == 21 && r.value.params == params
            && Types(r.value.cols) == DeclaredTypes(cs)
  {
    PrepareRoundTrip(sqlLen, handle, life, 21, params, updatable, cs, rest);
    TypesDeclared(cs);
  }

  lemma TypesDeclared(cs: seq<WireColumn>)
    requires forall i :: 0 <= i < |cs| ==> ColumnOk(cs[i])
    ensures Types(DenotedAll(true, cs)) == DeclaredTypes(cs)
  {
    var ds := DenotedAll(true, cs);
    forall i | 0 <= i < |cs|
      ensures DecodeType(ds[i]) == Declared(cs[i])
    {
      DecodedAsDeclared(true, cs[i]);
    }
    SameTypes(ds, DeclaredTypes(cs));
  }

  lemma SameTypes(ds: seq<Column>, ts: seq<byte>)
    requires |ds| == |ts| && forall i :: 0 <= i < |ds| ==> DecodeType(ds[i]) == ts[i]
    ensures Types(ds) == ts
  {
  }

  /** A query from its PREPARE response to its last row: tables well typed by the declared columns arrive whole. */
  lemma PreparedSelectDelivers(sqlLen: nat, handle: int32, life: bytes, params: int32, updatable: byte,
                               cs: seq<WireColumn>, more: bytes, version: int, h: SentHeader, rest: bytes,
                               fetched: Option<bytes>, table: seq<seq<Field>>, rows: seq<WireRow>,
                               answers: Answers, k: nat, size: int32, n: nat)
    requires handle >= 0 && |life| == 4 && 0 <= params <= sqlLen
    requires |cs| < TWO_31 && forall i :: 0 <= i < |cs| ==> ColumnOk(cs[i])
    requires TableOk(|cs|, rows) && TableFits(DeclaredTypes(cs), table) && IsTable(DeclaredTypes(cs), table, rows)
    requires HeaderOk(h) && h.rc == |rows| && HonestInline(rows, |cs|, version, rest)
    requires Serves(answers, rows, |cs|, version)
    ensures var prep := ParsePrepare(sqlLen, PrintPrepare(handle, life, 21, params, updatable, cs, more));
            && prep.Ok?
            && var o := Outcome(21, Types(prep.value.cols), version, Some(PrintHeader(version, h, rest)), fetched);
            && o.Ran? && o.cursor.Some? && o.cursor.value.pos <= |o.cursor.value.tuples|
            && Delivers(Calls(o.cursor.value, Replies(answers, k, handle, size, o.cursor.value, n)).1,
                        TableValues(DeclaredTypes(cs), table))
  {
    PreparedTypes(sqlLen, handle, life, params, updatable, cs, more);
    SelectDelivers(DeclaredTypes(cs), version, h, rest, fetched, table, rows, answers, k, handle, size, n);
  }
}
