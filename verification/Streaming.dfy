/**
 A cursor over an honest server refines "the server's rows, in order, once". The server is any
 result set and any way of cutting it into an inline batch and FETCH batches.
 */
module Streaming {
  import opened Bytes
  import opened Wire
  import opened Codec
  import opened Cursor

  // ---------- What the server holds and sends ----------

  /** A column value on the wire: any negative size is NULL. */
  datatype Cell = CNull(marker: int32) | CData(data: bytes)

  datatype WireRow = WireRow(oid: bytes, cells: seq<Cell>)

  predicate CellOk(c: Cell) { if c.CNull? then c.marker < 0 else |c.data| < TWO_31 }

  predicate RowOk(width: nat, r: WireRow)
  {
    |r.oid| == 8 && |r.cells| == width && forall i :: 0 <= i < |r.cells| ==> CellOk(r.cells[i])
  }

  predicate TableOk(width: nat, rows: seq<WireRow>)
  {
    |rows| + 1 < TWO_31 && forall i :: 0 <= i < |rows| ==> RowOk(width, rows[i])
  }

  function PrintCell(c: Cell): (b: bytes)
    requires CellOk(c)
  {
    if c.CNull? then Put32(c.marker) else Put32(|c.data|) + c.data
  }

  function PrintCells(cells: seq<Cell>): (b: bytes)
    requires forall i :: 0 <= i < |cells| ==> CellOk(cells[i])
  {
    if cells == [] then [] else PrintCell(cells[0]) + PrintCells(cells[1..])
  }

  function PrintRow(index: int32, width: nat, r: WireRow): (b: bytes)
    requires RowOk(width, r)
  {
    Put32(index) + (r.oid + PrintCells(r.cells))
  }

  /** Consecutive rows from the 1-based cursor index `start`. */
  function PrintRun(start: nat, width: nat, run: seq<WireRow>): (b: bytes)
    requires start + |run| <= TWO_31 && forall i :: 0 <= i < |run| ==> RowOk(width, run[i])
    decreases |run|
  {
    if run == [] then [] else PrintRow(start, width, run[0]) + PrintRun(start + 1, width, run[1..])
  }

  /** The Go row, when every column of it decodes. */
  function DecodeRow(cols: seq<byte>, isCall: bool, cells: seq<Cell>): (r: Result<Row>)
  {
    if cols == [] || cells == [] then Ok([])
    else
      match if cells[0].CNull? then Ok(Nil) else DecodeCell(cols[0], isCall, cells[0].data)
      case Err(e) => Err(e)
      case Ok(v) =>
        match DecodeRow(cols[1..], isCall, cells[1..])
        case Err(e) => Err(e)
        case Ok(vs) => Ok([v] + vs)
  }

  /** The rows a client can be given: every decodable row, in order. */
  function Deliverable(cols: seq<byte>, isCall: bool, rows: seq<WireRow>): (out: seq<Row>)
    ensures |out| <= |rows|
  {
    if rows == [] then []
    else
      var rest := Deliverable(cols, isCall, rows[1..]);
      match DecodeRow(cols, isCall, rows[0].cells)
      case Ok(row) => [row] + rest
      case Err(_) => rest
  }

  /** The rows before the first one that does not decode. */
  function GoodRows(cols: seq<byte>, isCall: bool, rows: seq<WireRow>): (out: seq<Row>)
    ensures |out| <= |rows|
  {
    if rows == [] then []
    else
      match DecodeRow(cols, isCall, rows[0].cells)
      case Ok(row) => [row] + GoodRows(cols, isCall, rows[1..])
      case Err(_) => []
  }

  /** A FETCH answer: k rows from `start`, then the tail holding the completed flag on V5 and later. */
  datatype Batch = Batch(k: nat, tail: bytes)

  predicate Honest(rows: seq<WireRow>, start: int, version: int, b: Batch)
  {
    && 1 <= start <= |rows| + 1
    && start - 1 + b.k <= |rows|
    && (b.k == 0 <==> start == |rows| + 1)
    && (version >= 5 && b.tail != [] && b.tail[0] == 1 ==> start - 1 + b.k == |rows|)
  }

  /** The rows of a batch that starts at a 1-based index. */
  function RunOf(rows: seq<WireRow>, start: int, k: nat): (run: seq<WireRow>)
    requires 1 <= start && start - 1 + k <= |rows|
    ensures |run| == k
  {
    rows[start - 1..start - 1 + k]
  }

  /** s is the batch b on the wire: the count, the run of rows from `start`, the tail. */
  ghost predicate IsBatch(rows: seq<WireRow>, width: nat, start: int, version: int, b: Batch, s: bytes)
    requires TableOk(width, rows)
  {
    && Honest(rows, start, version, b)
    && s == Put32(b.k) + (PrintRun(start, width, RunOf(rows, start, b.k)) + b.tail)
  }

  /** A response payload: a non-negative status, then an honest batch. */
  ghost predicate HonestReply(rows: seq<WireRow>, width: nat, start: int, version: int, p: bytes)
    requires TableOk(width, rows)
  {
    exists status: int32, b: Batch, s: bytes ::
      status >= 0 && IsBatch(rows, width, start, version, b, s) && p == Put32(status) + s
  }

  // ---------- Parsing what the server printed ----------

  lemma CellRoundTrip(dt: byte, isCall: bool, c: Cell, rest: bytes)
    requires CellOk(c)
    ensures ParseCell(dt, isCall, PrintCell(c) + rest) ==
            Leaving(if c.CNull? then Ok(Nil) else DecodeCell(dt, isCall, c.data), rest)
  {
    if c.CNull? {
      ReadI32Put(c.marker, rest);
    } else {
      Assoc(Put32(|c.data|), c.data, rest);
      ReadI32Put(|c.data|, c.data + rest);
      ReadBytesPut(c.data, rest);
    }
  }

  lemma {:induction false} CellsRoundTrip(cols: seq<byte>, isCall: bool, cells: seq<Cell>, rest: bytes)
    requires |cells| == |cols| && forall i :: 0 <= i < |cells| ==> CellOk(cells[i])
    ensures ParseCells(cols, isCall, PrintCells(cells) + rest) == Leaving(DecodeRow(cols, isCall, cells), rest)
  {
    if cols == [] {
      assert PrintCells(cells) + rest == rest;
    } else {
      Assoc(PrintCell(cells[0]), PrintCells(cells[1..]), rest);
      CellRoundTrip(cols[0], isCall, cells[0], PrintCells(cells[1..]) + rest);
      CellsRoundTrip(cols[1..], isCall, cells[1..], rest);
    }
  }

  lemma RowRoundTrip(cols: seq<byte>, isCall: bool, index: int32, r: WireRow, rest: bytes)
    requires RowOk(|cols|, r)
    ensures var t, d := ParseTuple(cols, isCall, PrintRow(index, |cols|, r) + rest), DecodeRow(cols, isCall, r.cells);
            t == if d.Ok? then Tuple(index, d.value, rest) else Skipped(index, d.error)
  {
    var cells := PrintCells(r.cells);
    Assoc(Put32(index), r.oid + cells, rest);
    Assoc(r.oid, cells, rest);
    ReadI32Put(index, r.oid + (cells + rest));
    ReadBytesPut(r.oid, cells + rest);
    CellsRoundTrip(cols, isCall, r.cells, rest);
  }

  /** The parse of a run printed from `start`: rows up to the first bad one, and the index after it. */
  function RunBlock(cols: seq<byte>, isCall: bool, start: nat, run: seq<WireRow>, tail: bytes): (b: Block)
    requires start + |run| < TWO_31
    decreases |run|
  {
    if run == [] then Block([], start, None, tail)
    else
      match DecodeRow(cols, isCall, run[0].cells)
      case Err(e) => Block([], start + 1, Some(e), [])
      case Ok(row) => Stack([row], RunBlock(cols, isCall, start + 1, run[1..], tail))
  }

  lemma {:induction false} RunRoundTrip(cols: seq<byte>, isCall: bool, start: nat, run: seq<WireRow>, tail: bytes)
    requires start + |run| < TWO_31 && forall i :: 0 <= i < |run| ==> RowOk(|cols|, run[i])
    ensures ParseTuples(|run|, cols, isCall, PrintRun(start, |cols|, run) + tail, start) ==
            RunBlock(cols, isCall, start, run, tail)
    decreases |run|
  {
    if run == [] {
      assert PrintRun(start, |cols|, run) + tail == tail;
    } else {
      var rest := PrintRun(start + 1, |cols|, run[1..]);
      Assoc(PrintRow(start, |cols|, run[0]), rest, tail);
      RowRoundTrip(cols, isCall, start, run[0], rest + tail);
      RunRoundTrip(cols, isCall, start + 1, run[1..], tail);
      RunStep(cols, isCall, start, run, PrintRun(start, |cols|, run) + tail, rest + tail, tail);
    }
  }

  lemma RunStep(cols: seq<byte>, isCall: bool, start: nat, run: seq<WireRow>, s: bytes, t: bytes, tail: bytes)
    requires run != [] && start + |run| < TWO_31
    requires var d := DecodeRow(cols, isCall, run[0].cells);
             ParseTuple(cols, isCall, s) == if d.Ok? then Tuple(start, d.value, t) else Skipped(start, d.error)
    requires ParseTuples(|run[1..]|, cols, isCall, t, start + 1) == RunBlock(cols, isCall, start + 1, run[1..], tail)
    ensures ParseTuples(|run|, cols, isCall, s, start) == RunBlock(cols, isCall, start, run, tail)
  {
  }

  lemma {:induction false} RunBlockShape(cols: seq<byte>, isCall: bool, start: nat, run: seq<WireRow>, tail: bytes)
    requires start + |run| < TWO_31
    ensures var b, good := RunBlock(cols, isCall, start, run, tail), GoodRows(cols, isCall, run);
            && b.rows == good
            && (|good| == |run| ==> b.failure.None? && b.rest == tail && b.next == start + |good|)
            && (|good| < |run| ==> b.failure.Some? && b.next == start + |good| + 1)
    decreases |run|
  {
    if run != [] {
      RunBlockShape(cols, isCall, start + 1, run[1..], tail);
    }
  }

  // ---------- One fetch, and one Next ----------

  /** The cursor is consistent with the server's result set. */
  ghost predicate Synced(rows: seq<WireRow>, c: State)
  {
    && TableOk(|c.cols|, rows)
    && c.pos <= |c.tuples|
    && 1 <= c.nextIndex <= |rows| + 1
    && (c.fetchedAll ==> c.nextIndex == |rows| + 1)
  }

  /** Rows still to be given to the caller. */
  ghost function Ahead(rows: seq<WireRow>, c: State): (out: seq<Row>)
    requires Synced(rows, c)
  {
    c.tuples[c.pos..] + Deliverable(c.cols, c.isCall, rows[c.nextIndex - 1..])
  }

  /** Calls still to be answered with a row or a decode error. */
  ghost function Left(rows: seq<WireRow>, c: State): (n: nat)
    requires Synced(rows, c)
  {
    |c.tuples| - c.pos + (|rows| - (c.nextIndex - 1))
  }

  /** Taking the good rows of a run, and passing over the row after them, loses nothing deliverable. */
  lemma {:induction false} AheadOfRun(cols: seq<byte>, isCall: bool, rows: seq<WireRow>, lo: nat, k: nat, next: nat)
    requires lo + k <= |rows|
    requires var g := |GoodRows(cols, isCall, rows[lo..lo + k])|; next == lo + g + (if g < k then 1 else 0)
    ensures next <= |rows|
    ensures Deliverable(cols, isCall, rows[lo..]) ==
            GoodRows(cols, isCall, rows[lo..lo + k]) + Deliverable(cols, isCall, rows[next..])
    decreases k
  {
    if k > 0 {
      DropFirst(rows, lo, k);
      var run, more := rows[lo + 1..lo + 1 + (k - 1)], rows[lo + 1..];
      var d := DecodeRow(cols, isCall, rows[lo].cells);
      if d.Ok? {
        AheadOfRun(cols, isCall, rows, lo + 1, k - 1, next);
        Assoc([d.value], GoodRows(cols, isCall, run), Deliverable(cols, isCall, rows[next..]));
      }
    }
  }

  lemma DropFirst(rows: seq<WireRow>, lo: nat, k: nat)
    requires 0 < k && lo + k <= |rows|
    ensures rows[lo..lo + k][1..] == rows[lo + 1..lo + 1 + (k - 1)] && rows[lo..lo + k][0] == rows[lo]
    ensures rows[lo..][1..] == rows[lo + 1..] && rows[lo..][0] == rows[lo]
  {
  }

  /** What consuming a batch of k rows does to a cursor: same rows ahead, one call fewer left after an error. */
  ghost predicate Consumed(rows: seq<WireRow>, c: State, k: nat, d: State, failed: bool)
    requires Synced(rows, c)
  {
    && Synced(rows, d) && d.pos == 0
    && d.cols == c.cols && d.isCall == c.isCall && d.version == c.version && d.closed == c.closed
    && Ahead(rows, d) == Ahead(rows, c)
    && Left(rows, d) == Left(rows, c) - (if failed then 1 else 0)
    && (if failed then k > 0 else |d.tuples| == k)
  }

  /** An honest batch is read as the block of its run. */
  lemma BatchParses(rows: seq<WireRow>, c: State, b: Batch, s: bytes)
    requires Synced(rows, c) && IsBatch(rows, |c.cols|, c.nextIndex, c.version, b, s)
    ensures Consume(c, s) == Absorb(c, b.k, BatchBlock(rows, c, b))
  {
    RunParses(c, b.k, RunOf(rows, c.nextIndex, b.k), b.tail);
  }

  lemma RunParses(c: State, k: nat, run: seq<WireRow>, tail: bytes)
    requires 0 <= c.nextIndex && c.nextIndex + k < TWO_31 && |run| == k
    requires forall i :: 0 <= i < |run| ==> RowOk(|c.cols|, run[i])
    ensures Consume(c, Put32(k) + (PrintRun(c.nextIndex, |c.cols|, run) + tail)) ==
            Absorb(c, k, RunBlock(c.cols, c.isCall, c.nextIndex, run, tail))
  {
    RunRoundTrip(c.cols, c.isCall, c.nextIndex, run, tail);
    ConsumeParses(c, k, PrintRun(c.nextIndex, |c.cols|, run) + tail,
                  RunBlock(c.cols, c.isCall, c.nextIndex, run, tail));
  }

  function BatchBlock(rows: seq<WireRow>, c: State, b: Batch): (parsed: Block)
    requires |rows| + 1 < TWO_31 && Honest(rows, c.nextIndex, c.version, b)
  {
    RunBlock(c.cols, c.isCall, c.nextIndex, RunOf(rows, c.nextIndex, b.k), b.tail)
  }

  lemma ConsumeParses(c: State, k: int32, s: bytes, parsed: Block)
    requires k >= 0 && ParseTuples(k, c.cols, c.isCall, s, c.nextIndex) == parsed
    ensures Consume(c, Put32(k) + s) == Absorb(c, k, parsed)
  {
    ReadI32Put(k, s);
  }

  /**
   Consuming an honest batch: without a bad row every row of it is buffered; at a bad row exactly
   that row is passed over and reported.
   */
  lemma ConsumeHonest(rows: seq<WireRow>, c: State, b: Batch, s: bytes)
    requires Synced(rows, c) && !c.fetchedAll && c.tuples == [] && c.pos == 0
    requires IsBatch(rows, |c.cols|, c.nextIndex, c.version, b, s)
    ensures Consumed(rows, c, b.k, Consume(c, s).0, Consume(c, s).1.Some?)
  {
    BatchParses(rows, c, b, s);
    AfterRun(rows, c, b);
  }

  lemma AfterRun(rows: seq<WireRow>, c: State, b: Batch)
    requires Synced(rows, c) && !c.fetchedAll && c.tuples == [] && c.pos == 0
    requires Honest(rows, c.nextIndex, c.version, b)
    ensures var r := Absorb(c, b.k, BatchBlock(rows, c, b));
            Consumed(rows, c, b.k, r.0, r.1.Some?)
  {
    var d := Absorb(c, b.k, BatchBlock(rows, c, b)).0;
    Absorbed(rows, c, b);
    var good := GoodRows(c.cols, c.isCall, RunOf(rows, c.nextIndex, b.k));
    AheadOfBatch(rows, c, b.k, d.nextIndex, good);
    Refilled(rows, c, d, good);
  }

  lemma AheadOfBatch(rows: seq<WireRow>, c: State, k: nat, next: int, good: seq<Row>)
    requires 1 <= c.nextIndex && c.nextIndex - 1 + k <= |rows|
    requires good == GoodRows(c.cols, c.isCall, RunOf(rows, c.nextIndex, k))
    requires next == c.nextIndex + |good| + (if |good| < k then 1 else 0)
    ensures 1 <= next <= |rows| + 1
    ensures Deliverable(c.cols, c.isCall, rows[c.nextIndex - 1..]) ==
            good + Deliverable(c.cols, c.isCall, rows[next - 1..])
  {
    AheadOfRun(c.cols, c.isCall, rows, c.nextIndex - 1, k, next - 1);
  }

  lemma Absorbed(rows: seq<WireRow>, c: State, b: Batch)
    requires Synced(rows, c) && !c.fetchedAll && c.tuples == [] && c.pos == 0
    requires Honest(rows, c.nextIndex, c.version, b)
    ensures var (d, e) := Absorb(c, b.k, BatchBlock(rows, c, b));
            var good := GoodRows(c.cols, c.isCall, RunOf(rows, c.nextIndex, b.k));
            && Synced(rows, d) && d.tuples == good
            && d.nextIndex == c.nextIndex + |good| + (if |good| < b.k then 1 else 0)
            && e.Some? == (|good| < b.k)
            && d == c.(tuples := d.tuples, nextIndex := d.nextIndex, fetchedAll := d.fetchedAll)
  {
    var parsed := BatchBlock(rows, c, b);
    RunBlockShape(c.cols, c.isCall, c.nextIndex, RunOf(rows, c.nextIndex, b.k), b.tail);
    assert [] + parsed.rows == parsed.rows;
  }

  lemma Refilled(rows: seq<WireRow>, c: State, d: State, good: seq<Row>)
    requires Synced(rows, c) && c.tuples == [] && c.pos == 0
    requires Synced(rows, d) && d.pos == 0 && d.cols == c.cols && d.isCall == c.isCall && d.tuples == good
    requires Deliverable(c.cols, c.isCall, rows[c.nextIndex - 1..]) ==
             good + Deliverable(c.cols, c.isCall, rows[d.nextIndex - 1..])
    ensures Ahead(rows, d) == Ahead(rows, c)
  {
    assert d.tuples[0..] == d.tuples;
  }

  /** A FETCH is answered by a transport failure, a server error, or an honest batch. */
  ghost predicate Served(rows: seq<WireRow>, c: State, reply: Option<bytes>)
    requires TableOk(|c.cols|, rows)
  {
    reply.Some? ==> ReadStatus(reply.value).Fail? || HonestReply(rows, |c.cols|, c.nextIndex, c.version, reply.value)
  }

  /** What an honest FETCH does: an error costs the one row it reports, and an empty buffer means none was left. */
  ghost predicate Refreshed(rows: seq<WireRow>, c: State, d: State, e: Option<Answer>)
    requires Synced(rows, c)
  {
    && (e.Some? ==> e.value.Failed?)
    && Synced(rows, d) && d.pos == 0 && SameCursor(c, d) && Ahead(rows, d) == Ahead(rows, c)
    && Left(rows, d) == Left(rows, c) - (if e.Some? then 1 else 0)
    && (e.None? ==> (d.tuples == [] <==> Left(rows, c) == 0))
  }

  lemma FetchHonest(rows: seq<WireRow>, c: State, p: bytes)
    requires Synced(rows, c) && !c.fetchedAll && c.pos == |c.tuples|
    requires HonestReply(rows, |c.cols|, c.nextIndex, c.version, p)
    ensures Refreshed(rows, c, Fetch(c, Some(p)).0, Fetch(c, Some(p)).1)
  {
    var status: int32, b: Batch, s: bytes :|
      status >= 0 && IsBatch(rows, |c.cols|, c.nextIndex, c.version, b, s) && p == Put32(status) + s;
    FetchBatch(rows, c, status, b, s);
  }

  lemma FetchBatch(rows: seq<WireRow>, c: State, status: int32, b: Batch, s: bytes)
    requires Synced(rows, c) && !c.fetchedAll && c.pos == |c.tuples|
    requires status >= 0 && IsBatch(rows, |c.cols|, c.nextIndex, c.version, b, s)
    ensures var (d, e) := Fetch(c, Some(Put32(status) + s));
            Refreshed(rows, c, d, e)
  {
    var empty := c.(tuples := [], pos := 0);
    EmptyBuffer(rows, c, empty);
    ConsumeHonest(rows, empty, b, s);
    var (d, e) := Consume(empty, s);
    FetchIsConsume(c, status, s);
    assert e.None? ==> (d.tuples == [] <==> b.k == 0);
  }

  /** Dropping a used-up buffer changes nothing ahead. */
  lemma EmptyBuffer(rows: seq<WireRow>, c: State, empty: State)
    requires Synced(rows, c) && c.pos == |c.tuples| && empty == c.(tuples := [], pos := 0)
    ensures Synced(rows, empty) && Ahead(rows, empty) == Ahead(rows, c) && Left(rows, empty) == Left(rows, c)
  {
    assert c.tuples[c.pos..] == empty.tuples[empty.pos..];
  }

  lemma FetchIsConsume(c: State, status: int32, s: bytes)
    requires status >= 0
    ensures var (d, e) := Consume(c.(tuples := [], pos := 0), s);
            Fetch(c, Some(Put32(status) + s)) == (d, if e.Some? then Some(Failed(e.value)) else None)
  {
    ReadI32Put(status, s);
  }

  /** One call of Next: the row at the head of what is ahead, or the end exactly when nothing is left. */
  ghost predicate Stepped(rows: seq<WireRow>, c: State, a: Answer, d: State)
    requires Synced(rows, c)
  {
    && Synced(rows, d) && d.cols == c.cols && d.isCall == c.isCall && d.version == c.version && d.closed == c.closed
    && match a
       case Delivered(row) => Ahead(rows, c) == [row] + Ahead(rows, d) && Left(rows, d) + 1 == Left(rows, c)
       case EndOfRows => Left(rows, c) == 0 && Left(rows, d) == 0 && Ahead(rows, d) == Ahead(rows, c) == []
       case Failed(_) => Ahead(rows, d) == Ahead(rows, c) && (d == c || Left(rows, d) + 1 == Left(rows, c))
       case TransportFailed => d == c
       case RowsClosed => false
  }

  lemma NextServed(rows: seq<WireRow>, c: State, reply: Option<bytes>)
    requires Synced(rows, c) && !c.closed && Served(rows, c, reply)
    ensures Stepped(rows, c, Next(c, reply).1, Next(c, reply).0)
    ensures reply.Some? && ReadStatus(reply.value).Got? ==>
              var (d, a) := Next(c, reply);
              if Left(rows, c) == 0 then a.EndOfRows? && Left(rows, d) == 0
              else (a.Delivered? || a.Failed?) && Left(rows, d) + 1 == Left(rows, c)
  {
    NothingLeft(rows, c);
    if c.pos < |c.tuples| {
      TakeHead(rows, c);
    } else if !c.fetchedAll && reply.Some? && ReadStatus(reply.value).Got? {
      NextFetched(rows, c, reply);
    }
  }

  /** The branch of Next that asks the server. */
  lemma NextFetched(rows: seq<WireRow>, c: State, reply: Option<bytes>)
    requires Synced(rows, c) && NeedsFetch(c) && reply.Some?
    requires HonestReply(rows, |c.cols|, c.nextIndex, c.version, reply.value)
    ensures var (d, a) := Next(c, reply);
            && Stepped(rows, c, a, d)
            && if Left(rows, c) == 0 then a.EndOfRows? && Left(rows, d) == 0
               else (a.Delivered? || a.Failed?) && Left(rows, d) + 1 == Left(rows, c)
  {
    FetchHonest(rows, c, reply.value);
    var (d, e) := Fetch(c, reply);
    assert Next(c, reply) == AfterFetch(d, e);
    if e.None? && d.pos < |d.tuples| {
      TakeHead(rows, d);
    } else {
      NothingLeft(rows, d);
    }
  }

  lemma TakeHead(rows: seq<WireRow>, c: State)
    requires Synced(rows, c) && c.pos < |c.tuples|
    ensures var d := c.(pos := c.pos + 1);
            && Synced(rows, d) && Left(rows, d) + 1 == Left(rows, c)
            && Ahead(rows, c) == [c.tuples[c.pos]] + Ahead(rows, d)
  {
    var more := Deliverable(c.cols, c.isCall, rows[c.nextIndex - 1..]);
    assert c.tuples[c.pos..] == [c.tuples[c.pos]] + c.tuples[c.pos + 1..];
    Assoc([c.tuples[c.pos]], c.tuples[c.pos + 1..], more);
  }

  lemma NothingLeft(rows: seq<WireRow>, c: State)
    requires Synced(rows, c)
    ensures |Ahead(rows, c)| <= Left(rows, c)
  {
  }

  // ---------- Every run ----------

  /** Successive calls of Next, each with the answer its FETCH would get. */
  function Calls(c: State, replies: seq<Option<bytes>>): (r: (State, seq<Answer>))
    requires c.pos <= |c.tuples|
    ensures |r.1| == |replies| && r.0.pos <= |r.0.tuples|
    decreases |replies|
  {
    if replies == [] then (c, [])
    else
      var (d, a) := Next(c, replies[0]);
      var (f, later) := Calls(d, replies[1..]);
      (f, [a] + later)
  }

  ghost predicate ServedThroughout(rows: seq<WireRow>, c: State, replies: seq<Option<bytes>>)
    requires TableOk(|c.cols|, rows) && c.pos <= |c.tuples|
    decreases |replies|
  {
    replies == [] || (Served(rows, c, replies[0]) && ServedThroughout(rows, Next(c, replies[0]).0, replies[1..]))
  }

  function RowsOf(answers: seq<Answer>): (out: seq<Row>)
  {
    if answers == [] then []
    else (if answers[0].Delivered? then [answers[0].row] else []) + RowsOf(answers[1..])
  }

  /**
   Exactly once, in order, through every error: what was delivered and what is still ahead together
   are the deliverable rows of the result set, and an end of rows means everything was delivered.
   */
  lemma {:induction false} NothingLostOrRepeated(rows: seq<WireRow>, c: State, replies: seq<Option<bytes>>)
    requires Synced(rows, c) && !c.closed && ServedThroughout(rows, c, replies)
    ensures var (d, answers) := Calls(c, replies);
            && Synced(rows, d)
            && Ahead(rows, c) == RowsOf(answers) + Ahead(rows, d)
            && (EndOfRows in answers ==> RowsOf(answers) == Ahead(rows, c))
    decreases |replies|
  {
    if replies == [] {
      assert [] + Ahead(rows, c) == Ahead(rows, c);
    } else {
      NextServed(rows, c, replies[0]);
      var (d, a) := Next(c, replies[0]);
      NothingLostOrRepeated(rows, d, replies[1..]);
      var (f, later) := Calls(d, replies[1..]);
      if a.Delivered? {
        Assoc([a.row], RowsOf(later), Ahead(rows, f));
      } else {
        assert [] + RowsOf(later) == RowsOf(later);
      }
      assert RowsOf([a] + later) == (if a.Delivered? then [a.row] else []) + RowsOf(later);
      assert a.EndOfRows? ==> RowsOf(later) == [];
    }
  }

  /** Every FETCH that may be sent is answered by an honest batch. */
  ghost predicate AnsweredThroughout(rows: seq<WireRow>, c: State, replies: seq<Option<bytes>>)
    requires TableOk(|c.cols|, rows) && c.pos <= |c.tuples|
    decreases |replies|
  {
    replies == [] ||
    (replies[0].Some? && HonestReply(rows, |c.cols|, c.nextIndex, c.version, replies[0].value) &&
     AnsweredThroughout(rows, Next(c, replies[0]).0, replies[1..]))
  }

  lemma HonestStatus(rows: seq<WireRow>, width: nat, start: int, version: int, p: bytes)
    requires TableOk(width, rows) && HonestReply(rows, width, start, version, p)
    ensures ReadStatus(p).Got?
  {
    var status: int32, b: Batch, s: bytes :|
      status >= 0 && IsBatch(rows, width, start, version, b, s) && p == Put32(status) + s;
    ReadI32Put(status, s);
  }

  /** The first `left` answers are rows or errors, every later one is the end. */
  ghost predicate EndsAfter(answers: seq<Answer>, left: nat) {
    forall i :: 0 <= i < |answers| ==> (answers[i].EndOfRows? <==> i >= left)
  }

  lemma EndsAfterCons(a: Answer, later: seq<Answer>, left: nat)
    requires a.EndOfRows? <==> left == 0
    requires EndsAfter(later, if left == 0 then 0 else left - 1)
    ensures EndsAfter([a] + later, left)
  {
    assert forall i :: 1 <= i < |later| + 1 ==> ([a] + later)[i] == later[i - 1];
  }

  /**
   A full drain is prompt at every batching and version: the first Left calls each give a row or a
   decode error, one per server row, and every later call gives the end of rows.
   */
  lemma {:induction false} DrainIsPrompt(rows: seq<WireRow>, c: State, replies: seq<Option<bytes>>)
    requires Synced(rows, c) && !c.closed && AnsweredThroughout(rows, c, replies)
    ensures EndsAfter(Calls(c, replies).1, Left(rows, c))
    decreases |replies|
  {
    if replies != [] {
      HonestStatus(rows, |c.cols|, c.nextIndex, c.version, replies[0].value);
      NextServed(rows, c, replies[0]);
      var (d, a) := Next(c, replies[0]);
      DrainIsPrompt(rows, d, replies[1..]);
      EndsAfterCons(a, Calls(d, replies[1..]).1, Left(rows, c));
    }
  }

  /** The answers are exactly these rows, then the end. */
  ghost predicate Delivers(answers: seq<Answer>, rows: seq<Row>) {
    forall i :: 0 <= i < |answers| ==> answers[i] == if i < |rows| then Delivered(rows[i]) else EndOfRows
  }

  lemma DeliversCons(a: Answer, later: seq<Answer>, rows: seq<Row>, rest: seq<Row>)
    requires if a.Delivered? then rows == [a.row] + rest else a.EndOfRows? && rows == rest == []
    requires Delivers(later, rest)
    ensures Delivers([a] + later, rows)
  {
    assert forall i :: 1 <= i < |later| + 1 ==> ([a] + later)[i] == later[i - 1];
  }

  /** When every row still ahead decodes, the i-th call delivers exactly the i-th row. */
  lemma {:induction false} ExactlyOnceInOrder(rows: seq<WireRow>, c: State, replies: seq<Option<bytes>>)
    requires Synced(rows, c) && !c.closed && AnsweredThroughout(rows, c, replies)
    requires |Ahead(rows, c)| == Left(rows, c)
    ensures Delivers(Calls(c, replies).1, Ahead(rows, c))
    decreases |replies|
  {
    if replies != [] {
      HonestStatus(rows, |c.cols|, c.nextIndex, c.version, replies[0].value);
      NextServed(rows, c, replies[0]);
      var (d, a) := Next(c, replies[0]);
      NothingLeft(rows, d);
      ExactlyOnceInOrder(rows, d, replies[1..]);
      DeliversCons(a, Calls(d, replies[1..]).1, Ahead(rows, c), Ahead(rows, d));
    }
  }

  // ---------- Opening a cursor ----------

  /** What follows the EXECUTE header: nothing to speak of, or a result code and an honest first batch. */
  ghost predicate HonestInline(rows: seq<WireRow>, width: nat, version: int, rest: bytes)
    requires TableOk(width, rows)
  {
    |rest| <= 4 || exists b: Batch :: IsBatch(rows, width, 1, version, b, rest[4..])
  }

  /** Whatever comes inline, an opened cursor has the whole result set ahead of it; opening fails only on a bad row. */
  lemma OpenHonest(rows: seq<WireRow>, cols: seq<byte>, version: int, rc: int32, rest: bytes)
    requires TableOk(|cols|, rows) && rc == |rows| && HonestInline(rows, |cols|, version, rest)
    ensures var r := Open(cols, version, rc, rest);
            if r.Ok? then Synced(rows, r.value) && !r.value.closed && Left(rows, r.value) == |rows|
                          && Ahead(rows, r.value) == Deliverable(cols, false, rows)
            else |Deliverable(cols, false, rows)| < |rows|
  {
    var c := State(cols, false, version, [], 0, 1, false, false);
    assert rows[0..] == rows && c.tuples[0..] + Deliverable(cols, false, rows) == Deliverable(cols, false, rows);
    if rc > 0 && |rest| > 4 {
      var b: Batch :| IsBatch(rows, |cols|, 1, version, b, rest[4..]);
      ConsumeHonest(rows, c, b, rest[4..]);
      NothingLeft(rows, Consume(c, rest[4..]).0);
    }
  }
}
