/** Result iteration: Rows.Next, fetchNext, consumeFetch (cubrid/rows.go) and how execute opens a cursor. */
module Cursor {
  import opened Bytes
  import opened Wire
  import opened Arguments
  import opened Codec
  import opened LobHandle

  type Row = seq<Value>

  /** tuples[pos..] are fetched and not yet returned; nextIndex is the 1-based index to fetch next. */
  datatype State = State(cols: seq<byte>, isCall: bool, version: int, tuples: seq<Row>, pos: nat,
                         nextIndex: int32, fetchedAll: bool, closed: bool)

  datatype Answer =
    | Delivered(row: Row)
    | EndOfRows
    | Failed(error: Error)
    | TransportFailed
    | RowsClosed

  /** idx + 1 in int32. */
  function Succ(i: int32): (j: int32) { if i == 0x7FFF_FFFF then -0x8000_0000 else i + 1 }

  /** One column value, by its declared type; CALL rows and NULL-typed columns describe themselves. */
  function DecodeCell(dt: byte, isCall: bool, data: bytes): (r: Result<Value>)
  {
    if isCall || dt == TYPE_NULL then DecodeSelfDescribed(data)
    else if dt == TYPE_BLOB || dt == TYPE_CLOB then
      if WellPacked(data) then Ok(Lob(data, dt == TYPE_CLOB)) else Err(BadLobHandle)
    else DecodeValue(dt, data, 0)
  }

  function ParseCell(dt: byte, isCall: bool, s: bytes): (p: Parsed<Value>)
  {
    match ReadI32(s)
    case Fail(e) => Fail(e)
    case Got(sz, t) =>
      if sz < 0 then Got(Nil, t)
      else
        match ReadBytes(t, sz)
        case Fail(e) => Fail(e)
        case Got(data, u) => Leaving(DecodeCell(dt, isCall, data), u)
  }

  function ParseCells(cols: seq<byte>, isCall: bool, s: bytes): (p: Parsed<Row>)
    ensures p.Got? ==> |p.value| == |cols|
  {
    if cols == [] then Got([], s)
    else
      match ParseCell(cols[0], isCall, s)
      case Fail(e) => Fail(e)
      case Got(v, t) => Onto([v], ParseCells(cols[1..], isCall, t))
  }

  function Onto(row: Row, p: Parsed<Row>): (q: Parsed<Row>)
    ensures row == [] ==> q == p
    ensures p.Got? && p.value == [] ==> q == Got(row, p.rest)
  {
    match p
    case Fail(e) => Fail(e)
    case Got(vs, t) =>
      assert row == [] ==> row + vs == vs;
      assert vs == [] ==> row + vs == row;
      Got(row + vs, t)
  }

  /** Unindexed: the cursor index itself was cut short. Skipped: the index was read, the row was not. */
  datatype Tuple =
    | Unindexed(error: Error)
    | Skipped(index: int32, error: Error)
    | Tuple(index: int32, row: Row, rest: bytes)

  function ParseTuple(cols: seq<byte>, isCall: bool, s: bytes): (t: Tuple)
    ensures t.Tuple? ==> |t.row| == |cols|
  {
    match ReadI32(s)
    case Fail(e) => Unindexed(e)
    case Got(idx, t) =>
      match ReadBytes(t, 8)
      case Fail(e) => Skipped(idx, e)
      case Got(_, u) =>
        match ParseCells(cols, isCall, u)
        case Fail(e) => Skipped(idx, e)
        case Got(row, v) => Tuple(idx, row, v)
  }

  /** The index to fetch next, after what was read of a tuple. */
  function NextAfter(p: Tuple, now: int32): (next: int32) { if p.Unindexed? then now else Succ(p.index) }

  datatype Block = Block(rows: seq<Row>, next: int32, failure: Option<Error>, rest: bytes)

  function ParseTuples(n: nat, cols: seq<byte>, isCall: bool, s: bytes, next: int32): (b: Block)
    ensures forall i :: 0 <= i < |b.rows| ==> |b.rows[i]| == |cols|
  {
    if n == 0 then Block([], next, None, s)
    else
      match ParseTuple(cols, isCall, s)
      case Unindexed(e) => Block([], next, Some(e), [])
      case Skipped(i, e) => Block([], Succ(i), Some(e), [])
      case Tuple(i, row, t) => Stack([row], ParseTuples(n - 1, cols, isCall, t, Succ(i)))
  }

  function Stack(rows: seq<Row>, b: Block): (c: Block)
    ensures rows == [] ==> c == b
    ensures b.rows == [] ==> c.rows == rows
  {
    assert rows == [] ==> rows + b.rows == b.rows;
    assert b.rows == [] ==> rows + b.rows == rows;
    b.(rows := rows + b.rows)
  }

  /** What no fetch changes. */
  predicate SameCursor(c: State, d: State)
  {
    d.cols == c.cols && d.isCall == c.isCall && d.version == c.version && d.closed == c.closed
  }

  /** What consumeFetch leaves behind: the rows before any failure, and the end-of-rows flag. */
  function Absorb(c: State, n: int, b: Block): (r: (State, Option<Error>))
    ensures SameCursor(c, r.0) && r.0.pos == c.pos && |r.0.tuples| >= |c.tuples|
  {
    var d := c.(tuples := c.tuples + b.rows, nextIndex := b.next);
    if b.failure.Some? then (d, b.failure)
    else if c.version >= 5 && |b.rest| >= 1 then (d.(fetchedAll := b.rest[0] == 1), None)
    else if n == 0 then (d.(fetchedAll := true), None)
    else (d, None)
  }

  /** consumeFetch. */
  function Consume(c: State, s: bytes): (r: (State, Option<Error>))
    ensures SameCursor(c, r.0) && r.0.pos == c.pos && |r.0.tuples| >= |c.tuples|
  {
    match ReadI32(s)
    case Fail(e) => (c, Some(e))
    case Got(n, t) => Absorb(c, n, ParseTuples(if n < 0 then 0 else n, c.cols, c.isCall, t, c.nextIndex))
  }

  /** fetchNext; `reply` is the response payload, None a transport failure. */
  function Fetch(c: State, reply: Option<bytes>): (r: (State, Option<Answer>))
    ensures SameCursor(c, r.0) && (c.pos <= |c.tuples| ==> r.0.pos <= |r.0.tuples|)
  {
    match reply
    case None => (c, Some(TransportFailed))
    case Some(p) =>
      match ReadStatus(p)
      case Fail(e) => (c, Some(Failed(e)))
      case Got(_, t) =>
        var (d, e) := Consume(c.(tuples := [], pos := 0), t);
        (d, if e.Some? then Some(Failed(e.value)) else None)
  }

  /** Rows.Next; `reply` is what a FETCH would be answered, if one is sent. */
  function Next(c: State, reply: Option<bytes>): (r: (State, Answer))
    requires c.pos <= |c.tuples|
    ensures SameCursor(c, r.0) && r.0.pos <= |r.0.tuples|
  {
    if c.closed then (c, RowsClosed)
    else if c.pos < |c.tuples| then (c.(pos := c.pos + 1), Delivered(c.tuples[c.pos]))
    else if c.fetchedAll then (c, EndOfRows)
    else var (d, e) := Fetch(c, reply); AfterFetch(d, e)
  }

  /** The rest of Next once a FETCH was made. */
  function AfterFetch(d: State, e: Option<Answer>): (r: (State, Answer))
    requires d.pos <= |d.tuples|
    ensures SameCursor(d, r.0) && r.0.pos <= |r.0.tuples|
  {
    if e.Some? then (d, e.value)
    else if d.pos >= |d.tuples| then (d, EndOfRows)
    else (d.(pos := d.pos + 1), Delivered(d.tuples[d.pos]))
  }

  /** How execute opens a SELECT cursor: rc rows in all, the first ones inline when bytes remain. */
  function Open(cols: seq<byte>, version: int, rc: int32, rest: bytes): (r: Result<State>)
    ensures r.Ok? ==> SameCursor(State(cols, false, version, [], 0, 1, false, false), r.value)
    ensures r.Ok? ==> r.value.pos <= |r.value.tuples|
  {
    var c := State(cols, false, version, [], 0, 1, false, false);
    if rc > 0 && |rest| > 4 then
      var (d, e) := Consume(c, rest[4..]);
      if e.Some? then Err(e.value) else Ok(d)
    else Ok(c.(fetchedAll := rc == 0))
  }

  /** Next has to ask the server. */
  predicate NeedsFetch(c: State) { !c.closed && c.pos >= |c.tuples| && !c.fetchedAll }

  /**
   When a batch ends a result set: on V5 and later by its flag byte alone, before that by being empty;
   otherwise what was known stays.
   */
  lemma CompletedBy(c: State, n: int32, b: Block)
    requires b.failure.None?
    ensures var d := Absorb(c, n, b).0;
            if c.version >= 5 && b.rest != [] then d.fetchedAll == (b.rest[0] == 1)
            else d.fetchedAll == (c.fetchedAll || n == 0)
  {
  }

  /** Closed rows give no more rows and ask for none. */
  lemma ClosedIsClosed(c: State, reply: Option<bytes>)
    requires c.closed && c.pos <= |c.tuples|
    ensures !NeedsFetch(c) && Next(c, reply) == (c, RowsClosed)
  {
  }

  /** Once the end is known and the buffer is used up, no call asks the server and every call says the end. */
  lemma EndIsSilent(c: State, reply: Option<bytes>)
    requires !c.closed && c.fetchedAll && c.pos == |c.tuples|
    ensures !NeedsFetch(c) && Next(c, reply) == (c, EndOfRows)
  {
  }

  /** A result set of no rows is never fetched; without inline rows any other one is. */
  lemma OpensUnfetched(cols: seq<byte>, version: int, rc: int32, rest: bytes)
    requires rc <= 0 || |rest| <= 4
    ensures var r := Open(cols, version, rc, rest);
            r.Ok? && r.value.tuples == [] && r.value.nextIndex == 1 && (NeedsFetch(r.value) <==> rc != 0)
  {
  }

  // ---------- The FETCH request ----------

  const FN_FETCH: byte := 8

  /** Handle, start index, rows wanted, not sensitive, result set 0. */
  function FetchArgs(handle: int32, start: int32, size: int32): (bodies: seq<bytes>)
  {
    [Put32(handle), Put32(start), Put32(size), [0], Put32(0)]
  }

  function FetchRequest(handle: int32, start: int32, size: int32): (b: bytes)
  {
    [FN_FETCH] + Args(FetchArgs(handle, start, size))
  }

  /** The start index as the peer reads it off a request. */
  function FetchStart(req: bytes): (start: Option<int32>)
  {
    if req == [] || req[0] != FN_FETCH then None
    else
      match Many(ReadArg, 5, req[1..])
      case Fail(_) => None
      case Got(bodies, _) => if |bodies[1]| == 4 then Some(Get32(bodies[1])) else None
  }

  /** The peer reads the function code, the handle, the start index, the size, a zero byte and a zero int. */
  lemma FetchRequestReads(handle: int32, start: int32, size: int32)
    ensures FetchRequest(handle, start, size)[0] == 8
    ensures Many(ReadArg, 5, FetchRequest(handle, start, size)[1..]) ==
            Got([Put32(handle), Put32(start), Put32(size), [0], Put32(0)], [])
    ensures FetchStart(FetchRequest(handle, start, size)) == Some(start)
  {
    var args := FetchArgs(handle, start, size);
    ArgsRoundTrip(args, []);
    assert Args(args) + [] == Args(args) && FetchRequest(handle, start, size)[1..] == Args(args);
  }

  method BuildFetch(handle: int32, start: int32, size: int32) returns (req: bytes)
    ensures req == FetchRequest(handle, start, size)
  {
    var w := new Writer();
    w.RawByte(FN_FETCH);
    w.ArgInt(handle);
    w.ArgInt(start);
    w.ArgInt(size);
    w.ArgByte(0);
    w.ArgInt(0);
    FetchIsArgs(handle, start, size);
    req := w.buf;
  }

  lemma FetchIsArgs(handle: int32, start: int32, size: int32)
    ensures [] + [FN_FETCH] + Arg(Put32(handle)) + Arg(Put32(start)) + Arg(Put32(size)) + Arg([0]) + Arg(Put32(0)) ==
            FetchRequest(handle, start, size)
  {
    var h, s, z, b: bytes := Put32(handle), Put32(start), Put32(size), [FN_FETCH];
    assert [] + [FN_FETCH] == b && b == [FN_FETCH] + Args([]);
    ArgsSnoc(FN_FETCH, b, [], h);
    ArgsSnoc(FN_FETCH, b + Arg(h), [] + [h], s);
    ArgsSnoc(FN_FETCH, b + Arg(h) + Arg(s), [] + [h] + [s], z);
    ArgsSnoc(FN_FETCH, b + Arg(h) + Arg(s) + Arg(z), [] + [h] + [s] + [z], [0]);
    ArgsSnoc(FN_FETCH, b + Arg(h) + Arg(s) + Arg(z) + Arg([0]), [] + [h] + [s] + [z] + [[0]], Put32(0));
    assert [] + [h] + [s] + [z] + [[0]] + [Put32(0)] == FetchArgs(handle, start, size);
  }

  // ---------- The object ----------

  /** One column value. */
  method ReadCell(dt: byte, isCall: bool, rd: Reader) returns (r: Result<Value>)
    requires rd.Valid()
    modifies rd
    ensures rd.Valid() && Agrees(ParseCell(dt, isCall, old(rd.Rest())), r, rd.Rest())
  {
    var sz := rd.Int32();
    if sz.Err? {
      return Err(sz.error);
    }
    if sz.value < 0 {
      return Ok(Nil);
    }
    var data := rd.Take(sz.value);
    if data.Err? {
      return Err(data.error);
    }
    r := DecodeCell(dt, isCall, data.value);
  }

  class Rows {
    const cols: seq<byte>
    const isCall: bool
    const version: int
    const handle: int32
    const fetchSize: int32
    var tuples: seq<Row>
    var pos: nat
    var nextIndex: int32
    var fetchedAll: bool
    var closed: bool

    ghost function Snap(): (c: State)
      reads this
    {
      State(cols, isCall, version, tuples, pos, nextIndex, fetchedAll, closed)
    }

    ghost predicate Valid()
      reads this
    {
      pos <= |tuples|
    }

    constructor (c: State, handle: int32, fetchSize: int32)
      requires c.pos <= |c.tuples|
      ensures Valid() && Snap() == c && this.handle == handle && this.fetchSize == fetchSize
    {
      this.handle, this.fetchSize := handle, fetchSize;
      cols, isCall, version := c.cols, c.isCall, c.version;
      tuples, pos, nextIndex, fetchedAll, closed := c.tuples, c.pos, c.nextIndex, c.fetchedAll, c.closed;
    }

    /** The inner loop of consumeFetch: one row, column by column. */
    method ReadRow(rd: Reader) returns (r: Result<Row>)
      requires rd.Valid()
      modifies rd
      ensures rd.Valid() && Agrees(ParseCells(cols, isCall, old(rd.Rest())), r, rd.Rest())
    {
      var row: Row, j := [], 0;
      ghost var whole := ParseCells(cols, isCall, rd.Rest());
      assert cols[0..] == cols;
      while j < |cols|
        invariant 0 <= j <= |cols| && rd.Valid()
        invariant whole == Onto(row, ParseCells(cols[j..], isCall, rd.Rest()))
      {
        CellsStep(cols, isCall, j, row, rd.Rest());
        var v := ReadCell(cols[j], isCall, rd);
        if v.Err? {
          return Err(v.error);
        }
        row, j := row + [v.value], j + 1;
      }
      r := Ok(row);
    }

    /** One tuple: the index moves first, so a row that does not decode is passed over. */
    method ReadTuple(rd: Reader) returns (failure: Option<Error>)
      requires rd.Valid()
      modifies rd, `tuples, `nextIndex
      ensures rd.Valid()
      ensures var p := ParseTuple(cols, isCall, old(rd.Rest()));
              && nextIndex == NextAfter(p, old(nextIndex))
              && failure == (if p.Tuple? then None else Some(p.error))
              && (if p.Tuple? then tuples == old(tuples) + [p.row] && rd.Rest() == p.rest else tuples == old(tuples))
    {
      var idx := rd.Int32();
      if idx.Err? {
        return Some(idx.error);
      }
      nextIndex := Succ(idx.value);
      var oid := rd.Take(8);
      if oid.Err? {
        return Some(oid.error);
      }
      var row := ReadRow(rd);
      if row.Err? {
        return Some(row.error);
      }
      tuples := tuples + [row.value];
      failure := None;
    }

    /** The outer loop of consumeFetch. */
    method ReadTuples(rd: Reader, n: int) returns (failure: Option<Error>)
      requires rd.Valid()
      modifies rd, `tuples, `nextIndex
      ensures rd.Valid()
      ensures var b := ParseTuples(if n < 0 then 0 else n, cols, isCall, old(rd.Rest()), old(nextIndex));
              && tuples == old(tuples) + b.rows && nextIndex == b.next && failure == b.failure
              && (failure.None? ==> rd.Rest() == b.rest)
    {
      ghost var m, s, next := if n < 0 then 0 else n, rd.Rest(), nextIndex;
      ghost var base, got: seq<Row> := tuples, [];
      assert base + got == base;
      var i := 0;
      while i < n
        invariant 0 <= i <= m && rd.Valid() && tuples == base + got
        invariant TuplesLoop(m, cols, isCall, s, next, i, got, rd.Rest(), nextIndex)
      {
        ghost var p := ParseTuple(cols, isCall, rd.Rest());
        TuplesStep(m, cols, isCall, s, next, i, got, rd.Rest(), nextIndex);
        failure := ReadTuple(rd);
        if failure.Some? {
          return;
        }
        Assoc(base, got, [p.row]);
        got, i := got + [p.row], i + 1;
      }
      TuplesEnd(m, cols, isCall, s, next, got, rd.Rest(), nextIndex);
      failure := None;
    }

    method ConsumeFetch(rd: Reader) returns (err: Option<Error>)
      requires rd.Valid()
      modifies rd, `tuples, `nextIndex, `fetchedAll
      ensures (Snap(), err) == Consume(old(Snap()), old(rd.Rest()))
    {
      var n := rd.Int32();
      if n.Err? {
        return Some(n.error);
      }
      err := ReadTuples(rd, n.value);
      if err.Some? {
        return;
      }
      if version >= 5 && |rd.buf| - rd.off >= 1 {
        var fc := rd.Byte();
        fetchedAll := fc == Ok(1);
      } else if n.value == 0 {
        fetchedAll := true;
      }
    }

    /** The next FETCH this cursor would send. */
    ghost function Request(): (req: bytes)
      reads this
    {
      FetchRequest(handle, nextIndex, fetchSize)
    }

    method FetchNext(peer: Peer<bytes>) returns (err: Option<Answer>)
      modifies this, peer
      ensures peer.asked == old(peer.asked) + [old(Request())]
      ensures (Snap(), err) == Fetch(old(Snap()), peer.answers(|old(peer.asked)|, old(Request())))
    {
      var req := BuildFetch(handle, nextIndex, fetchSize);
      var reply := peer.RoundTrip(req);
      err := TakeReply(reply);
    }

    /** fetchNext after its round trip. */
    method TakeReply(reply: Option<bytes>) returns (err: Option<Answer>)
      modifies this
      ensures (Snap(), err) == Fetch(old(Snap()), reply)
    {
      if reply.None? {
        return Some(TransportFailed);
      }
      ghost var c := Snap();
      var rd := new Reader(reply.value);
      var st := rd.Status();
      if st.Err? {
        return Some(Failed(st.error));
      }
      ghost var t := rd.Rest();
      tuples, pos := [], 0;
      assert Snap() == c.(tuples := [], pos := 0);
      var e := ConsumeFetch(rd);
      err := if e.Some? then Some(Failed(e.value)) else None;
      assert Fetch(c, reply) == (Consume(c.(tuples := [], pos := 0), t).0, err);
    }

    /** Rows.Next: one FETCH, for the next index, exactly when nothing is buffered and more may come. */
    method Advance(peer: Peer<bytes>) returns (a: Answer)
      requires Valid()
      modifies this, peer
      ensures Valid()
      ensures (Snap(), a) == Next(old(Snap()), peer.answers(|old(peer.asked)|, old(Request())))
      ensures peer.asked == old(peer.asked) + if old(NeedsFetch(Snap())) then [old(Request())] else []
    {
      if closed {
        return RowsClosed;
      }
      if pos < |tuples| {
        a := Delivered(tuples[pos]);
        pos := pos + 1;
        return;
      }
      if fetchedAll {
        return EndOfRows;
      }
      a := FetchThenAdvance(peer);
    }

    /** Rows.Close, as far as the iterator goes. */
    method Close()
      requires Valid()
      modifies `closed
      ensures Valid() && Snap() == old(Snap()).(closed := true)
    {
      closed := true;
    }

    method FetchThenAdvance(peer: Peer<bytes>) returns (a: Answer)
      requires Valid()
      modifies this, peer
      ensures Valid() && peer.asked == old(peer.asked) + [old(Request())]
      ensures var (d, e) := Fetch(old(Snap()), peer.answers(|old(peer.asked)|, old(Request())));
              (Snap(), a) == AfterFetch(d, e)
    {
      var err := FetchNext(peer);
      a := TakeFetched(err);
    }

    /** The rest of Next once a FETCH was made. */
    method TakeFetched(err: Option<Answer>) returns (a: Answer)
      requires Valid()
      modifies `pos
      ensures Valid() && (Snap(), a) == AfterFetch(old(Snap()), err)
    {
      if err.Some? {
        return err.value;
      }
      if pos >= |tuples| {
        return EndOfRows;
      }
      a := Delivered(tuples[pos]);
      pos := pos + 1;
    }
  }

  // ---------- Loop bookkeeping ----------

  /** One more cell moves from the input to the row. */
  lemma CellsStep(cols: seq<byte>, isCall: bool, j: nat, row: Row, t: bytes)
    requires j < |cols|
    ensures var p := ParseCell(cols[j], isCall, t);
            Onto(row, ParseCells(cols[j..], isCall, t)) ==
            if p.Fail? then Fail(p.error) else Onto(row + [p.value], ParseCells(cols[j + 1..], isCall, p.rest))
  {
    assert cols[j..][1..] == cols[j + 1..];
    var p := ParseCell(cols[j], isCall, t);
    if p.Got? {
      var q := ParseCells(cols[j + 1..], isCall, p.rest);
      if q.Got? {
        Assoc(row, [p.value], q.value);
      }
    }
  }

  /** i of n tuples of s are in `got`; t is unread and the next index is now. */
  ghost predicate TuplesLoop(n: nat, cols: seq<byte>, isCall: bool, s: bytes, next: int32, i: nat, got: seq<Row>,
                             t: bytes, now: int32) {
    i <= n && ParseTuples(n, cols, isCall, s, next) == Stack(got, ParseTuples(n - i, cols, isCall, t, now))
  }

  /** One more tuple moves from the input to the rows, or the block ends there. */
  lemma TuplesStep(n: nat, cols: seq<byte>, isCall: bool, s: bytes, next: int32, i: nat, got: seq<Row>,
                   t: bytes, now: int32)
    requires i < n && TuplesLoop(n, cols, isCall, s, next, i, got, t, now)
    ensures var b, p := ParseTuples(n, cols, isCall, s, next), ParseTuple(cols, isCall, t);
            && (!p.Tuple? ==> b == Block(got, NextAfter(p, now), Some(p.error), []))
            && (p.Tuple? ==> TuplesLoop(n, cols, isCall, s, next, i + 1, got + [p.row], p.rest, Succ(p.index)))
  {
    var p := ParseTuple(cols, isCall, t);
    assert got + [] == got;
    if p.Tuple? {
      Assoc(got, [p.row], ParseTuples(n - i - 1, cols, isCall, p.rest, Succ(p.index)).rows);
    }
  }

  lemma TuplesEnd(n: nat, cols: seq<byte>, isCall: bool, s: bytes, next: int32, got: seq<Row>, t: bytes, now: int32)
    requires TuplesLoop(n, cols, isCall, s, next, n, got, t, now)
    ensures ParseTuples(n, cols, isCall, s, next) == Block(got, now, None, t)
  {
  }
}
