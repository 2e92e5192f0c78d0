/** Executing a prepared statement: execute, RegisterOutParam, paramModes and OutValues (cubrid/stmt.go). */
module Execute {
  import opened Bytes
  import opened Wire
  import opened Arguments
  import opened Codec
  import opened Layout
  import opened Bind
  import opened BatchRequest
  import Batch
  import opened Cursor
  import opened Streaming
  import opened Prepare

  const FN_EXECUTE: byte := 3
  const CMD_SELECT: byte := 21
  const CMD_CALL: byte := 24
  const CMD_CALL_SP: byte := 126

  const NO_CACHE_TIME: bytes := [0, 0, 0, 0, 0, 0, 0, 0]

  const MODE_IN: byte := 1
  const MODE_OUT: byte := 2

  predicate IsCallCmd(cmd: byte) { cmd == CMD_CALL || cmd == CMD_CALL_SP }

  // ---------- The EXECUTE response header ----------

  const RESULT_BYTES := 21

  /** Per result: statement type, count, OID, two cache times. */
  function SkipResults(n: int, s: bytes): (p: Parsed<bool>)
    decreases |s|
  {
    if n <= 0 then Got(true, s)
    else
      match ReadBytes(s, RESULT_BYTES)
      case Fail(e) => Fail(e)
      case Got(_, t) => SkipResults(n - 1, t)
  }

  /** The column-info flag of V2 and the shard id of V5; inline column info is not implemented. */
  function ReadTrailer(version: int, s: bytes): (p: Parsed<bool>)
  {
    if version < 2 then Got(true, s)
    else
      match ReadByte(s)
      case Fail(e) => Fail(e)
      case Got(inc, t) =>
        if inc == 1 then Fail(UnsupportedType(inc))
        else if version < 5 then Got(true, t)
        else
          match ReadBytes(t, 4)
          case Fail(e) => Fail(e)
          case Got(_, u) => Got(true, u)
  }

  function ReadHeader(version: int, p: bytes): (h: Parsed<int32>)
    ensures h.Got? ==> h.value >= 0
  {
    match ReadStatus(p)
    case Fail(e) => Fail(e)
    case Got(rc, s) =>
      match ReadByte(s)
      case Fail(e) => Fail(e)
      case Got(_, t) =>
        match ReadI32(t)
        case Fail(e) => Fail(e)
        case Got(n, u) =>
          match SkipResults(n, u)
          case Fail(e) => Fail(e)
          case Got(_, v) =>
            match ReadTrailer(version, v)
            case Fail(e) => Fail(e)
            case Got(_, w) => Got(rc, w)
  }

  method SkipResult(rd: Reader) returns (err: Option<Error>)
    requires rd.Valid()
    modifies rd
    ensures rd.Valid()
    ensures err.None? <==> |old(rd.Rest())| >= RESULT_BYTES
    ensures err.None? ==> rd.Rest() == old(rd.Rest())[RESULT_BYTES..]
    ensures err.Some? ==> err.value == ShortBuffer
  {
    var typ := rd.Byte();
    if typ.Err? {
      return Some(typ.error);
    }
    var count := rd.Int32();
    if count.Err? {
      return Some(count.error);
    }
    var oid := rd.Take(8);
    if oid.Err? {
      return Some(oid.error);
    }
    var sec := rd.Int32();
    if sec.Err? {
      return Some(sec.error);
    }
    var usec := rd.Int32();
    if usec.Err? {
      return Some(usec.error);
    }
    err := None;
  }

  method RunSkipResults(rd: Reader, n: int) returns (err: Option<Error>)
    requires rd.Valid()
    modifies rd
    ensures rd.Valid()
    ensures var p := SkipResults(n, old(rd.Rest()));
            if p.Got? then err == None && rd.Rest() == p.rest else err == Some(p.error)
  {
    var i := 0;
    while i < n
      invariant rd.Valid() && SkipResults(n, old(rd.Rest())) == SkipResults(n - i, rd.Rest())
    {
      err := SkipResult(rd);
      if err.Some? {
        return;
      }
      i := i + 1;
    }
    err := None;
  }

  method RunReadTrailer(rd: Reader, version: int) returns (err: Option<Error>)
    requires rd.Valid()
    modifies rd
    ensures rd.Valid()
    ensures var p := ReadTrailer(version, old(rd.Rest()));
            if p.Got? then err == None && rd.Rest() == p.rest else err == Some(p.error)
  {
    if version >= 2 {
      var inc := rd.Byte();
      if inc.Err? {
        return Some(inc.error);
      }
      if inc.value == 1 {
        return Some(UnsupportedType(1));
      }
    }
    if version >= 5 {
      var shard := rd.Take(4);
      if shard.Err? {
        return Some(shard.error);
      }
    }
    err := None;
  }

  method RunReadHeader(rd: Reader, version: int) returns (r: Result<int32>)
    requires rd.Valid()
    modifies rd
    ensures rd.Valid() && Agrees(ReadHeader(version, old(rd.Rest())), r, rd.Rest())
  {
    var rc := rd.Status();
    if rc.Err? {
      return rc;
    }
    var reusable := rd.Byte();
    if reusable.Err? {
      return Err(reusable.error);
    }
    var n := rd.Int32();
    if n.Err? {
      return Err(n.error);
    }
    var e := RunSkipResults(rd, n.value);
    if e.Some? {
      return Err(e.value);
    }
    e := RunReadTrailer(rd, version);
    if e.Some? {
      return Err(e.value);
    }
    r := rc;
  }

  /** A header as a server prints it: one 21-byte entry per result, then the version's trailer. */
  datatype SentHeader = SentHeader(rc: int32, reusable: byte, results: seq<bytes>, inc: byte, shard: bytes)

  predicate HeaderOk(h: SentHeader)
  {
    && h.rc >= 0 && |h.results| < TWO_31 && h.inc != 1 && |h.shard| == 4
    && forall i :: 0 <= i < |h.results| ==> |h.results[i]| == RESULT_BYTES
  }

  function PrintHeader(version: int, h: SentHeader, rest: bytes): (b: bytes)
    requires HeaderOk(h)
  {
    Put32(h.rc) + ([h.reusable] + (Put32(|h.results|) + (Flatten(h.results) + PrintTrailer(version, h, rest))))
  }

  function PrintTrailer(version: int, h: SentHeader, rest: bytes): (b: bytes)
  {
    if version < 2 then rest
    else if version < 5 then [h.inc] + rest
    else [h.inc] + (h.shard + rest)
  }

  lemma {:induction false} ResultsSkipped(results: seq<bytes>, rest: bytes)
    requires forall i :: 0 <= i < |results| ==> |results[i]| == RESULT_BYTES
    ensures SkipResults(|results|, Flatten(results) + rest) == Got(true, rest)
  {
    if results == [] {
      assert Flatten(results) + rest == rest;
    } else {
      Assoc(results[0], Flatten(results[1..]), rest);
      ReadBytesPut(results[0], Flatten(results[1..]) + rest);
      ResultsSkipped(results[1..], rest);
    }
  }

  lemma HeaderRoundTrip(version: int, h: SentHeader, rest: bytes)
    requires HeaderOk(h)
    ensures ReadHeader(version, PrintHeader(version, h, rest)) == Got(h.rc, rest)
  {
    var v := PrintTrailer(version, h, rest);
    var u := Flatten(h.results) + v;
    var n: int32 := |h.results|;
    ReadI32Put(h.rc, [h.reusable] + (Put32(n) + u));
    ReadBytePut(h.reusable, Put32(n) + u);
    ReadI32Put(n, u);
    ResultsSkipped(h.results, v);
    ReadBytePut(h.inc, rest);
    ReadBytePut(h.inc, h.shard + rest);
    ReadBytesPut(h.shard, rest);
  }

  // ---------- The request ----------

  function BoolByte(b: bool): (r: byte) { if b then 1 else 0 }

  /** The arguments before the binds; an empty mode argument means no modes. */
  function HeadArgs(handle: int32, modes: bytes, cmd: byte, autoCommit: bool, version: int): (bodies: seq<bytes>)
  {
    [Put32(handle), [0], Put32(0), Put32(0), modes, [BoolByte(cmd == CMD_SELECT)], [BoolByte(autoCommit)], [1],
     NO_CACHE_TIME] + if version >= 4 then [Put32(0)] else []
  }

  /** The request up to the binds, in three stages. */
  function ExecHead(handle: int32, modes: bytes, cmd: byte, autoCommit: bool, version: int): (b: bytes)
  {
    var flagged := WithFlags(ExecStart(handle) + Arg(modes), cmd, autoCommit);
    if version >= 4 then flagged + Arg(Put32(0)) else flagged
  }

  function ExecStart(handle: int32): (b: bytes)
  {
    [FN_EXECUTE] + Arg(Put32(handle)) + Arg([0]) + Arg(Put32(0)) + Arg(Put32(0))
  }

  function WithFlags(base: bytes, cmd: byte, autoCommit: bool): (b: bytes)
  {
    base + Arg([BoolByte(cmd == CMD_SELECT)]) + Arg([BoolByte(autoCommit)]) + Arg([1]) + Arg(NO_CACHE_TIME)
  }

  /** IN for plain markers, OUT for registered markers bound to nil, both bits for the others. */
  function Mode(registered: bool, arg: Param): (m: byte)
  {
    if !registered then MODE_IN else if arg.PNil? then MODE_OUT else MODE_IN + MODE_OUT
  }

  function Modes(marks: seq<bool>, args: seq<Param>): (ms: bytes)
    ensures |ms| == |args|
  {
    seq(|args|, i requires 0 <= i < |args| => Mode(i < |marks| && marks[i], args[i]))
  }

  // ---------- Markers and value rows ----------

  /** The positions of the registered markers, ascending. */
  function Registered(marks: seq<bool>): (ms: seq<nat>)
    ensures forall j :: 0 <= j < |ms| ==> ms[j] < |marks| && marks[ms[j]]
    ensures forall j, k :: 0 <= j < k < |ms| ==> ms[j] < ms[k]
    ensures forall i :: 0 <= i < |marks| && marks[i] ==> i in ms
  {
    if marks == [] then []
    else
      var ms, n := Registered(marks[..|marks| - 1]), |marks| - 1;
      if marks[n] then ms + [n] else ms
  }

  /** The value at each registered marker; marker i sits at row position i + 1. */
  function AtMarkers(marks: seq<bool>, row: Row): (out: seq<Value>)
    ensures |out| == |Registered(marks)|
  {
    seq(|Registered(marks)|, j requires 0 <= j < |Registered(marks)| =>
      var i := Registered(marks)[j] + 1; if i < |row| then row[i] else Nil)
  }

  lemma AtMarkersSnoc(marks: seq<bool>, b: bool, row: Row)
    ensures AtMarkers(marks + [b], row) ==
            AtMarkers(marks, row) + if b then [if |marks| + 1 < |row| then row[|marks| + 1] else Nil] else []
  {
    assert (marks + [b])[..|marks|] == marks;
  }

  // ---------- What a response means ----------

  datatype Ran = NotRun | Ran(rc: int32, cursor: Option<State>)

  function FreshCursor(cols: seq<byte>, isCall: bool, version: int): (c: State)
  {
    State(cols, isCall, version, [], 0, 1, false, false)
  }

  /** execute after its request went out: `reply` answers EXECUTE, `fetched` the FETCH a CALL sends. */
  function Outcome(cmd: byte, types: seq<byte>, version: int, reply: Option<bytes>, fetched: Option<bytes>): (r: Ran)
  {
    if reply.None? then NotRun
    else
      match ReadHeader(version, reply.value)
      case Fail(_) => NotRun
      case Got(rc, rest) => AfterHeader(cmd, types, version, rc, rest, fetched)
  }

  function AfterHeader(cmd: byte, types: seq<byte>, version: int, rc: int32, rest: bytes, fetched: Option<bytes>)
    : (r: Ran)
  {
    if cmd == CMD_SELECT then
      var c := Open(types, version, rc, rest);
      if c.Err? then NotRun else Ran(rc, Some(c.value))
    else if IsCallCmd(cmd) && rc > 0 then
      var (d, e) := Fetch(FreshCursor(types, true, version), fetched);
      if e.Some? then NotRun else Ran(rc, Some(d.(fetchedAll := d.fetchedAll || d.nextIndex > rc)))
    else Ran(rc, None)
  }

  /** Whether execute goes on to fetch a value row. */
  predicate Fetches(cmd: byte, version: int, reply: Option<bytes>)
  {
    IsCallCmd(cmd) && reply.Some? && ReadHeader(version, reply.value).Got? && ReadHeader(version, reply.value).value > 0
  }

  /** The value row a CALL leaves behind. */
  function ValueRow(cmd: byte, r: Ran): (row: Option<Row>)
  {
    if IsCallCmd(cmd) && r.Ran? && r.cursor.Some? && r.cursor.value.tuples != [] then Some(r.cursor.value.tuples[0])
    else None
  }

  lemma RowsAreWide(cols: seq<byte>, version: int, fetched: Option<bytes>)
    ensures forall row :: row in Fetch(FreshCursor(cols, true, version), fetched).0.tuples ==> |row| == |cols|
  {
    var c := FreshCursor(cols, true, version);
    if fetched.Some? && ReadStatus(fetched.value).Got? {
      var t := ReadStatus(fetched.value).rest;
      if ReadI32(t).Got? {
        var n := ReadI32(t).value;
        var b := ParseTuples(if n < 0 then 0 else n, cols, true, ReadI32(t).rest, 1);
        assert Consume(c, t).0.tuples == [] + b.rows;
      }
    }
  }

  // ---------- The object ----------

  const ZERO_COLUMN := Column(Head(ColType(0, 0, 0), 0, 0, []), NO_TAIL)

  function Types(cols: seq<Column>): (ts: seq<byte>)
    ensures |ts| == |cols|
  {
    seq(|cols|, i requires 0 <= i < |cols| => DecodeType(cols[i]))
  }

  class Statement {
    const handle: int32
    const cmd: byte
    const paramCount: nat
    const version: int
    const cols: seq<Column>
    const fetchSize: int32
    var closed: bool
    var outParams: seq<bool>
    var outRow: Option<Row>

    /** The column list of a CALL_SP has one slot for the statement and one per marker. */
    ghost predicate Valid()
      reads this
    {
      && (outParams == [] || |outParams| == paramCount)
      && (cmd == CMD_CALL_SP ==> |cols| == paramCount + 1)
      && (outRow.Some? ==> |outRow.value| == |cols|)
    }

    /** The end of prepare: a CALL_SP's columns are padded or cut to its markers. */
    constructor (p: Prepared, version: int, fetchSize: int32)
      ensures Valid() && handle == p.handle && cmd == p.cmdType && paramCount == p.params
      ensures this.version == version && this.fetchSize == fetchSize
      ensures !closed && outParams == [] && outRow == None
      ensures cmd != CMD_CALL_SP ==> cols == p.cols
      ensures cmd == CMD_CALL_SP ==>
                forall i :: 0 <= i < |cols| ==> cols[i] == if i < |p.cols| then p.cols[i] else ZERO_COLUMN
    {
      handle, cmd, paramCount, this.version, this.fetchSize := p.handle, p.cmdType, p.params, version, fetchSize;
      cols := if p.cmdType == CMD_CALL_SP
              then seq(p.params + 1, i requires 0 <= i => if i < |p.cols| then p.cols[i] else ZERO_COLUMN)
              else p.cols;
      closed, outParams, outRow := false, [], None;
    }

    method RegisterOutParam(index: int) returns (ok: bool)
      requires Valid()
      modifies `outParams
      ensures Valid()
      ensures ok <==> (cmd == 24 || cmd == 126) && 1 <= index <= paramCount
      ensures !ok ==> outParams == old(outParams)
      ensures ok ==> |outParams| == paramCount && forall i :: 0 <= i < paramCount ==>
                (outParams[i] <==> i == index - 1 || (old(outParams) != [] && old(outParams)[i]))
    {
      if !IsCallCmd(cmd) || index < 1 || index > paramCount {
        return false;
      }
      if outParams == [] {
        outParams := seq(paramCount, _ => false);
      }
      outParams := outParams[index - 1 := true];
      return true;
    }

    method ParamModes(args: seq<Param>) returns (modes: bytes)
      requires |args| == paramCount
      ensures modes == Modes(outParams, args)
    {
      modes := [];
      for i := 0 to paramCount
        invariant |modes| == i && modes == Modes(outParams, args)[..i]
      {
        var m := MODE_IN;
        if i < |outParams| && outParams[i] {
          m := if args[i].PNil? then MODE_OUT else MODE_IN + MODE_OUT;
        }
        modes := modes + [m];
      }
    }

    /**
     Nothing before a value row arrived; then the row's values at the registered markers in ascending
     order. For a CALL_SP each of them is in the row: the nil fallback is never taken.
     */
    method OutValues() returns (out: seq<Value>)
      requires Valid()
      ensures outRow.None? ==> out == []
      ensures outRow.Some? ==> out == AtMarkers(outParams, outRow.value)
      ensures outRow.Some? && cmd == CMD_CALL_SP ==>
                forall j :: 0 <= j < |Registered(outParams)| ==>
                  Registered(outParams)[j] + 1 < |outRow.value| && out[j] == outRow.value[Registered(outParams)[j] + 1]
    {
      out := [];
      if outRow.None? {
        return;
      }
      var row := outRow.value;
      for i := 0 to |outParams|
        invariant out == AtMarkers(outParams[..i], row)
      {
        assert outParams[..i + 1] == outParams[..i] + [outParams[i]];
        AtMarkersSnoc(outParams[..i], outParams[i], row);
        if outParams[i] {
          out := out + [if i + 1 < |row| then row[i + 1] else Nil];
        }
      }
      assert outParams[..|outParams|] == outParams;
    }

    /** The modes argument: one byte per marker of a CALL_SP, otherwise empty. */
    ghost function ModesArg(args: seq<Param>): (ms: bytes)
      reads `outParams
    {
      if cmd == CMD_CALL_SP && paramCount > 0 then Modes(outParams, args) else []
    }

    /** The request for these arguments, unless a bind cannot be encoded. */
    ghost function RequestFor(args: seq<Param>, autoCommit: bool): (r: Option<bytes>)
      reads `outParams
    {
      match EncodeAll(args)
      case Refused(_) => None
      case Done(ps) => Some(ExecHead(handle, ModesArg(args), cmd, autoCommit, version) + PairsBytes(ps))
    }

    method WriteExecute(w: Writer, args: seq<Param>, autoCommit: bool)
      requires w.buf == [] && |args| == paramCount
      modifies w
      ensures w.buf == ExecHead(handle, ModesArg(args), cmd, autoCommit, version)
    {
      WriteStart(w, handle);
      if cmd == CMD_CALL_SP && paramCount > 0 {
        var modes := ParamModes(args);
        w.ArgBytes(modes);
      } else {
        w.ArgNull();
      }
      WriteFlags(w, cmd, autoCommit);
      if version >= 4 {
        w.ArgInt(0);
      }
    }

    /** The FETCH a CALL sends for its value row. */
    ghost function FirstFetch(): (req: bytes) { FetchRequest(handle, 1, fetchSize) }

    /**
     execute. Nothing is sent when an argument check or a bind fails. Once the argument checks pass the
     previous value row is gone, and a new one is kept only if the whole exchange succeeded.
     */
    method Run(args: seq<Param>, autoCommit: bool, peer: Peer<bytes>)
      returns (rc: Option<int32>, rows: Rows?, ghost o: Ran)
      requires Valid()
      modifies `outRow, peer
      ensures Valid() && Reports(o, rc, rows) && (rows != null ==> fresh(rows) && IsOurs(rows))
      ensures closed || |args| != paramCount ==>
                o == NotRun && peer.asked == old(peer.asked) && outRow == old(outRow)
      ensures !closed && |args| == paramCount && RequestFor(args, autoCommit).None? ==>
                o == NotRun && peer.asked == old(peer.asked) && outRow == None
      ensures !closed && |args| == paramCount && RequestFor(args, autoCommit).Some? ==>
                && outRow == ValueRow(cmd, o)
                && Exchanged(RequestFor(args, autoCommit).value, peer.answers, old(peer.asked), peer.asked, o)
    {
      rc, rows, o := None, null, NotRun;
      if closed || |args| != paramCount {
        return;
      }
      outRow := None;
      var req := BuildExecute(args, autoCommit);
      if req.None? {
        return;
      }
      rc, rows, o := Send(req.value, peer);
    }

    /** The request goes out and its answers are read. */
    method Send(req: bytes, peer: Peer<bytes>) returns (rc: Option<int32>, rows: Rows?, ghost o: Ran)
      requires Valid() && outRow == None
      modifies `outRow, peer
      ensures Valid() && Reports(o, rc, rows) && (rows != null ==> fresh(rows) && IsOurs(rows))
      ensures outRow == ValueRow(cmd, o)
      ensures Exchanged(req, peer.answers, old(peer.asked), peer.asked, o)
    {
      ghost var before := peer.asked;
      var reply := peer.RoundTrip(req);
      assert |peer.asked| == |before| + 1;
      rc, rows, o := Complete(reply, peer);
    }

    /** A cursor that fetches by this statement's handle. */
    predicate IsOurs(rows: Rows) { rows.handle == handle && rows.fetchSize == fetchSize }

    /** The requests that went out for an execution, and what came of their answers. */
    ghost predicate Exchanged(req: bytes, answers: (nat, bytes) -> Option<bytes>, before: seq<bytes>, after: seq<bytes>,
                              o: Ran)
    {
      var reply := answers(|before|, req);
      && o == Outcome(cmd, Types(cols), version, reply, answers(|before| + 1, FirstFetch()))
      && after == (before + [req]) + if Fetches(cmd, version, reply) then [FirstFetch()] else []
    }

    method BuildExecute(args: seq<Param>, autoCommit: bool) returns (req: Option<bytes>)
      requires |args| == paramCount
      ensures req == RequestFor(args, autoCommit)
    {
      var w := new Writer();
      WriteExecute(w, args, autoCommit);
      var err := Batch.WriteRow(w, args);
      req := if err.Some? then None else Some(w.buf);
    }

    /** The part of execute after its request went out. */
    method Complete(reply: Option<bytes>, peer: Peer<bytes>) returns (rc: Option<int32>, rows: Rows?, ghost o: Ran)
      requires Valid() && outRow == None
      modifies `outRow, peer
      ensures Valid() && Reports(o, rc, rows) && (rows != null ==> fresh(rows) && IsOurs(rows))
      ensures outRow == ValueRow(cmd, o)
      ensures o == Outcome(cmd, Types(cols), version, reply, peer.answers(|old(peer.asked)|, FirstFetch()))
      ensures peer.asked == old(peer.asked) + if Fetches(cmd, version, reply) then [FirstFetch()] else []
    {
      if reply.None? {
        return None, null, NotRun;
      }
      rc, rows, o := Receive(reply.value, peer);
      if IsCallCmd(cmd) && rows != null && |rows.tuples| > 0 {
        outRow := Some(rows.tuples[0]);
      }
    }

    /** Reading the responses. */
    method Receive(reply: bytes, peer: Peer<bytes>) returns (rc: Option<int32>, rows: Rows?, ghost o: Ran)
      modifies peer
      ensures Reports(o, rc, rows) && (rows != null ==> fresh(rows) && IsOurs(rows))
      ensures o == Outcome(cmd, Types(cols), version, Some(reply), peer.answers(|old(peer.asked)|, FirstFetch()))
      ensures peer.asked == old(peer.asked) + if Fetches(cmd, version, Some(reply)) then [FirstFetch()] else []
      ensures IsCallCmd(cmd) && rows != null ==> forall row :: row in rows.tuples ==> |row| == |cols|
    {
      var rd := new Reader(reply);
      var h := RunReadHeader(rd, version);
      if h.Err? {
        return None, null, NotRun;
      }
      rc, rows, o := Proceed(h.value, rd, peer);
    }

    /** What follows the header, by kind of statement. */
    method Proceed(n: int32, rd: Reader, peer: Peer<bytes>) returns (rc: Option<int32>, rows: Rows?, ghost o: Ran)
      requires rd.Valid() && n >= 0
      modifies rd, peer
      ensures Reports(o, rc, rows) && (rows != null ==> fresh(rows) && IsOurs(rows))
      ensures o == AfterHeader(cmd, Types(cols), version, n, old(rd.Rest()),
                               peer.answers(|old(peer.asked)|, FirstFetch()))
      ensures peer.asked == old(peer.asked) + if IsCallCmd(cmd) && n > 0 then [FirstFetch()] else []
      ensures IsCallCmd(cmd) && rows != null ==> forall row :: row in rows.tuples ==> |row| == |cols|
    {
      if cmd == CMD_SELECT {
        rows := OpenSelect(n, rd);
        o := if rows == null then NotRun else Ran(n, Some(rows.Snap()));
      } else if IsCallCmd(cmd) && n > 0 {
        rows := FetchValueRow(n, peer);
        o := if rows == null then NotRun else Ran(n, Some(rows.Snap()));
      } else {
        return Some(n), null, Ran(n, None);
      }
      rc := if rows == null then None else Some(n);
    }

    /** A SELECT's cursor, with its first rows when they came inline. */
    method OpenSelect(rc: int32, rd: Reader) returns (rows: Rows?)
      requires rd.Valid() && rc >= 0
      modifies rd
      ensures rows != null ==> fresh(rows) && IsOurs(rows)
      ensures var c := Open(Types(cols), version, rc, old(rd.Rest()));
              if c.Err? then rows == null else rows != null && rows.Snap() == c.value
    {
      rows := new Rows(FreshCursor(Types(cols), false, version), handle, fetchSize);
      if rc > 0 && |rd.buf| - rd.off > 4 {
        var code := rd.Take(4);
        var err := rows.ConsumeFetch(rd);
        if err.Some? {
          return null;
        }
      } else {
        rows.fetchedAll := rc == 0;
      }
    }

    /** A CALL's cursor: its rows are never inline, so the first batch is fetched at once. */
    method FetchValueRow(rc: int32, peer: Peer<bytes>) returns (rows: Rows?)
      modifies peer
      ensures rows != null ==> fresh(rows) && IsOurs(rows) && forall row :: row in rows.tuples ==> |row| == |cols|
      ensures peer.asked == old(peer.asked) + [FirstFetch()]
      ensures var reply := peer.answers(|old(peer.asked)|, FirstFetch());
              var (d, e) := Fetch(FreshCursor(Types(cols), true, version), reply);
              if e.Some? then rows == null
              else rows != null && rows.Snap() == d.(fetchedAll := d.fetchedAll || d.nextIndex > rc)
    {
      rows := new Rows(FreshCursor(Types(cols), true, version), handle, fetchSize);
      RowsAreWide(Types(cols), version, peer.answers(|peer.asked|, FirstFetch()));
      var err := rows.FetchNext(peer);
      if err.Some? {
        return null;
      }
      if rows.nextIndex > rc {
        rows.fetchedAll := true;
      }
    }
  }

  /** The object results of execute, against the outcome they stand for. */
  ghost predicate Reports(o: Ran, rc: Option<int32>, rows: Rows?)
    reads rows
  {
    && rc == (if o.Ran? then Some(o.rc) else None)
    && (rows != null <==> o.Ran? && o.cursor.Some?)
    && (rows != null ==> rows.Snap() == o.cursor.value)
  }

  method WriteStart(w: Writer, handle: int32)
    requires w.buf == []
    modifies w
    ensures w.buf == ExecStart(handle)
  {
    w.RawByte(FN_EXECUTE);
    w.ArgInt(handle);
    w.ArgByte(0);
    w.ArgInt(0);
    w.ArgInt(0);
  }

  method WriteFlags(w: Writer, cmd: byte, autoCommit: bool)
    modifies w
    ensures w.buf == WithFlags(old(w.buf), cmd, autoCommit)
  {
    w.ArgByte(BoolByte(cmd == CMD_SELECT));
    w.ArgByte(BoolByte(autoCommit));
    w.ArgByte(1);
    w.ArgBytes(NO_CACHE_TIME);
  }

  // ---------- End to end ----------

  /** A value of a CALL row: NULL by size, or self-described by a one- or two-byte type prefix. */
  datatype Slot =
    | NoValue(marker: int32)
    | TypedNull(prefix: bytes, ignored: bytes)
    | Typed(prefix: bytes, typ: byte, tree: Tree)

  predicate PrefixOk(prefix: bytes, typ: byte)
  {
    if |prefix| == 1 then prefix[0] == typ < 0x80
    else |prefix| == 2 && prefix[0] >= 0x80
         && var kind := (prefix[0] / 0x20) % 4; typ == if kind == 0 then prefix[1] else 15 + kind
  }

  predicate SlotOk(s: Slot)
  {
    match s
    case NoValue(marker) => marker < 0
    case TypedNull(prefix, ignored) => PrefixOk(prefix, TYPE_NULL) && |prefix + ignored| < TWO_31
    case Typed(prefix, typ, t) =>
      PrefixOk(prefix, typ) && Fits(typ, t) && Depth(t) <= MAX_COLLECTION_DEPTH && |prefix + Print(typ, t)| < TWO_31
  }

  function SlotCell(s: Slot): (c: Cell)
    requires SlotOk(s)
    ensures CellOk(c)
  {
    match s
    case NoValue(marker) => CNull(marker)
    case TypedNull(prefix, ignored) => CData(prefix + ignored)
    case Typed(prefix, typ, t) => CData(prefix + Print(typ, t))
  }

  function SlotValue(s: Slot): (v: Value) { if s.Typed? then Meaning(s.tree) else Nil }

  lemma SelfDescribedBy(prefix: bytes, typ: byte, body: bytes)
    requires PrefixOk(prefix, typ)
    ensures DecodeSelfDescribed(prefix + body) == if typ == 0 then Ok(Nil) else DecodeValue(typ, body, 0)
  {
    var data := prefix + body;
    assert data[|prefix|..] == body && data[0] == prefix[0] && (|prefix| == 2 ==> data[1] == prefix[1]);
  }

  lemma SlotDecodes(dt: byte, s: Slot)
    requires SlotOk(s) && !s.NoValue?
    ensures DecodeCell(dt, true, SlotCell(s).data) == Ok(SlotValue(s))
  {
    if s.Typed? {
      SelfDescribedBy(s.prefix, s.typ, Print(s.typ, s.tree));
      PrintedTree(s.typ, s.tree, 0);
    } else {
      SelfDescribedBy(s.prefix, TYPE_NULL, s.ignored);
    }
  }

  function SlotCells(slots: seq<Slot>): (cells: seq<Cell>)
    requires forall i :: 0 <= i < |slots| ==> SlotOk(slots[i])
    ensures |cells| == |slots| && forall i :: 0 <= i < |cells| ==> CellOk(cells[i])
  {
    if slots == [] then [] else [SlotCell(slots[0])] + SlotCells(slots[1..])
  }

  function SlotValues(slots: seq<Slot>): (vs: Row)
    ensures |vs| == |slots|
    ensures forall i :: 0 <= i < |vs| ==> vs[i] == SlotValue(slots[i])
  {
    if slots == [] then [] else [SlotValue(slots[0])] + SlotValues(slots[1..])
  }

  lemma {:induction false} CallRowDecodes(cols: seq<byte>, slots: seq<Slot>)
    requires |cols| == |slots| && forall i :: 0 <= i < |slots| ==> SlotOk(slots[i])
    ensures DecodeRow(cols, true, SlotCells(slots)) == Ok(SlotValues(slots))
  {
    if slots != [] {
      if !slots[0].NoValue? {
        SlotDecodes(cols[0], slots[0]);
      }
      CallRowDecodes(cols[1..], slots[1..]);
      assert SlotCells(slots)[1..] == SlotCells(slots[1..]);
    }
  }

  /** An honest FETCH of decodable rows puts the first of them at the head of the buffer. */
  lemma FirstRowArrives(rows: seq<WireRow>, cols: seq<byte>, version: int, p: bytes)
    requires rows != [] && TableOk(|cols|, rows) && |Deliverable(cols, true, rows)| == |rows|
    requires HonestReply(rows, |cols|, 1, version, p)
    ensures var (d, e) := Fetch(FreshCursor(cols, true, version), Some(p));
            && e.None? && d.tuples != [] && DecodeRow(cols, true, rows[0].cells) == Ok(d.tuples[0])
  {
    var c := FreshCursor(cols, true, version);
    assert Synced(rows, c);
    FetchHonest(rows, c, p);
    var (d, e) := Fetch(c, Some(p));
    NothingLeft(rows, d);
    assert rows[0..] == rows && Ahead(rows, c) == [] + Deliverable(cols, true, rows) == Deliverable(cols, true, rows);
    assert Deliverable(cols, true, rows)[0] == d.tuples[0];
  }

  /** A well-formed header and an honest value row leave exactly the row's meaning behind. */
  lemma CallDelivers(cmd: byte, types: seq<byte>, version: int, h: SentHeader, rest: bytes,
                     slots: seq<Slot>, oid: bytes, fetched: Option<bytes>)
    requires IsCallCmd(cmd) && HeaderOk(h) && h.rc > 0
    requires |oid| == 8 && |slots| == |types| && forall i :: 0 <= i < |slots| ==> SlotOk(slots[i])
    requires IsValueRow(version, slots, oid, fetched)
    ensures ValueRow(cmd, Outcome(cmd, types, version, Some(PrintHeader(version, h, rest)), fetched)) ==
            Some(SlotValues(slots))
  {
    HeaderRoundTrip(version, h, rest);
    ValueRowArrives(types, version, slots, oid, fetched.value);
    FetchedValueRow(cmd, types, version, PrintHeader(version, h, rest), fetched, SlotValues(slots));
  }

  lemma ValueRowArrives(types: seq<byte>, version: int, slots: seq<Slot>, oid: bytes, p: bytes)
    requires |oid| == 8 && |slots| == |types| && forall i :: 0 <= i < |slots| ==> SlotOk(slots[i])
    requires IsValueRow(version, slots, oid, Some(p))
    ensures var (d, e) := Fetch(FreshCursor(types, true, version), Some(p));
            e.None? && d.tuples != [] && d.tuples[0] == SlotValues(slots)
  {
    var rows := [WireRow(oid, SlotCells(slots))];
    CallRowDecodes(types, slots);
    assert Deliverable(types, true, rows) == [SlotValues(slots)] + Deliverable(types, true, rows[1..]);
    FirstRowArrives(rows, types, version, p);
  }

  lemma FetchedValueRow(cmd: byte, types: seq<byte>, version: int, reply: bytes, fetched: Option<bytes>, row: Row)
    requires IsCallCmd(cmd) && ReadHeader(version, reply).Got? && ReadHeader(version, reply).value > 0
    requires var (d, e) := Fetch(FreshCursor(types, true, version), fetched);
             e.None? && d.tuples != [] && d.tuples[0] == row
    ensures ValueRow(cmd, Outcome(cmd, types, version, Some(reply), fetched)) == Some(row)
  {
  }

  /** The peer answers the EXECUTE with header h and the FETCH after it with the value row of `slots`. */
  ghost predicate AnswersCall(st: Statement, args: seq<Param>, autoCommit: bool, peer: Peer<bytes>,
                              h: SentHeader, rest: bytes, slots: seq<Slot>, oid: bytes)
    reads st, peer
  {
    && HeaderOk(h) && h.rc > 0 && |oid| == 8
    && |slots| == |st.cols| && (forall i :: 0 <= i < |slots| ==> SlotOk(slots[i]))
    && var req := st.RequestFor(args, autoCommit);
    && req.Some?
    && peer.answers(|peer.asked|, req.value) == Some(PrintHeader(st.version, h, rest))
    && IsValueRow(st.version, slots, oid, peer.answers(|peer.asked| + 1, st.FirstFetch()))
  }

  ghost predicate IsValueRow(version: int, slots: seq<Slot>, oid: bytes, reply: Option<bytes>)
    requires |oid| == 8 && forall i :: 0 <= i < |slots| ==> SlotOk(slots[i])
  {
    reply.Some? && HonestReply([WireRow(oid, SlotCells(slots))], |slots|, 1, version, reply.value)
  }

  /** A CALL answered so leaves the meaning of the slots as the statement's value row. */
  method CallKeepsRow(st: Statement, args: seq<Param>, autoCommit: bool, peer: Peer<bytes>,
                      ghost h: SentHeader, ghost rest: bytes, ghost slots: seq<Slot>, ghost oid: bytes)
    requires st.Valid() && !st.closed && IsCallCmd(st.cmd) && |args| == st.paramCount
    requires AnswersCall(st, args, autoCommit, peer, h, rest, slots, oid)
    modifies st`outRow, peer
    ensures st.Valid() && st.outRow == Some(SlotValues(slots))
  {
    ghost var req, before := st.RequestFor(args, autoCommit).value, peer.asked;
    var rc, rows;
    ghost var o;
    rc, rows, o := st.Run(args, autoCommit, peer);
    ExchangedCall(st, req, peer.answers, before, peer.asked, o, h, rest, slots, oid);
  }

  lemma ExchangedCall(st: Statement, req: bytes, answers: (nat, bytes) -> Option<bytes>, before: seq<bytes>,
                      after: seq<bytes>, o: Ran, h: SentHeader, rest: bytes, slots: seq<Slot>, oid: bytes)
    requires IsCallCmd(st.cmd) && st.Exchanged(req, answers, before, after, o)
    requires HeaderOk(h) && h.rc > 0 && answers(|before|, req) == Some(PrintHeader(st.version, h, rest))
    requires |oid| == 8 && |slots| == |st.cols| && forall i :: 0 <= i < |slots| ==> SlotOk(slots[i])
    requires IsValueRow(st.version, slots, oid, answers(|before| + 1, st.FirstFetch()))
    ensures ValueRow(st.cmd, o) == Some(SlotValues(slots))
  {
    CallDelivers(st.cmd, Types(st.cols), st.version, h, rest, slots, oid, answers(|before| + 1, st.FirstFetch()));
  }

  /**
   A CALL answered by a well-formed header, and its FETCH by an honest value row: OutValues gives the
   meaning of what the server stored at each registered marker, in ascending order.
   */
  method CallAndRead(st: Statement, args: seq<Param>, autoCommit: bool, peer: Peer<bytes>,
                     ghost h: SentHeader, ghost rest: bytes, ghost slots: seq<Slot>, ghost oid: bytes)
    returns (out: seq<Value>)
    requires st.Valid() && !st.closed && st.cmd == CMD_CALL_SP && |args| == st.paramCount
    requires AnswersCall(st, args, autoCommit, peer, h, rest, slots, oid)
    modifies st`outRow, peer
    ensures |out| == |Registered(st.outParams)|
    ensures forall j :: 0 <= j < |out| ==>
              Registered(st.outParams)[j] + 1 < |slots| && out[j] == SlotValue(slots[Registered(st.outParams)[j] + 1])
  {
    CallKeepsRow(st, args, autoCommit, peer, h, rest, slots, oid);
    out := st.OutValues();
  }

  // ---------- Schema cursors ----------

  /** SchemaInfo: no inline rows, and nothing to fetch when the total is zero. */
  method OpenSchema(reply: bytes, version: int, fetchSize: int32) returns (r: Option<Rows>)
    ensures r.Some? <==> ParseSchema(reply).Ok?
    ensures r.Some? ==> fresh(r.value) && var a := ParseSchema(reply).value;
              && r.value.handle == a.handle && r.value.fetchSize == fetchSize
              && r.value.Snap() == FreshCursor(Types(a.cols), false, version).(fetchedAll := a.total == 0)
  {
    var a, _ := RunSchema(reply);
    if a.Err? {
      return None;
    }
    var c := FreshCursor(Types(a.value.cols), false, version).(fetchedAll := a.value.total == 0);
    var rows := new Rows(c, a.value.handle, fetchSize);
    r := Some(rows);
  }

  /** A schema cursor starts with the server's whole result set ahead of it. */
  lemma SchemaOpensAtTheStart(rows: seq<WireRow>, types: seq<byte>, version: int)
    requires TableOk(|types|, rows)
    ensures var c := FreshCursor(types, false, version).(fetchedAll := |rows| == 0);
            Synced(rows, c) && Ahead(rows, c) == Deliverable(types, false, rows) && Left(rows, c) == |rows|
  {
    assert rows[0..] == rows;
    assert [] + Deliverable(types, false, rows) == Deliverable(types, false, rows);
  }

  // ---------- What the peer reads ----------

  lemma HeadReads(handle: int32, modes: bytes, cmd: byte, autoCommit: bool, version: int, binds: bytes)
    requires |modes| < TWO_32
    ensures var head := HeadArgs(handle, modes, cmd, autoCommit, version);
            var req := ExecHead(handle, modes, cmd, autoCommit, version) + binds;
            req[0] == FN_EXECUTE && Many(ReadArg, |head|, req[1..]) == Got(head, binds)
  {
    var head := HeadArgs(handle, modes, cmd, autoCommit, version);
    HeadIsArgs(handle, modes, cmd, autoCommit, version);
    HeadValues(handle, modes, cmd, autoCommit, version);
    RequestByArgs(FN_EXECUTE, ExecHead(handle, modes, cmd, autoCommit, version), head, binds);
  }

  lemma HeadValues(handle: int32, modes: bytes, cmd: byte, autoCommit: bool, version: int)
    requires |modes| < TWO_32
    ensures var head := HeadArgs(handle, modes, cmd, autoCommit, version);
            && |head| == (if version >= 4 then 10 else 9) && (forall i :: 0 <= i < |head| ==> |head[i]| < TWO_32)
            && head[0] == Put32(handle) && head[1] == [0] && head[2] == head[3] == Put32(0)
            && head[4] == modes && head[5] == [if cmd == 21 then 1 else 0]
            && head[6] == [if autoCommit then 1 else 0] && head[7] == [1]
            && head[8] == [0, 0, 0, 0, 0, 0, 0, 0] && (version >= 4 ==> head[9] == Put32(0))
  {
  }

  /** The arguments of an EXECUTE before its binds, as a peer that knows the version reads them. */
  lemma RequestReads(handle: int32, modes: bytes, cmd: byte, autoCommit: bool, version: int, binds: bytes)
    requires |modes| < TWO_32
    ensures var req := ExecHead(handle, modes, cmd, autoCommit, version) + binds;
            var p := Many(ReadArg, if version >= 4 then 10 else 9, req[1..]);
            && req[0] == 3 && p.Got? && p.rest == binds
            && p.value[0] == Put32(handle) && p.value[1] == [0] && p.value[2] == p.value[3] == Put32(0)
            && p.value[4] == modes && p.value[5] == [if cmd == 21 then 1 else 0]
            && p.value[6] == [if autoCommit then 1 else 0] && p.value[7] == [1]
            && p.value[8] == [0, 0, 0, 0, 0, 0, 0, 0] && (version >= 4 ==> p.value[9] == Put32(0))
  {
    HeadReads(handle, modes, cmd, autoCommit, version, binds);
    HeadValues(handle, modes, cmd, autoCommit, version);
  }

  /** The mode of every marker: the OUT bit when it is registered, the IN bit unless it is also bound to nil. */
  lemma ModeBits(marks: seq<bool>, args: seq<Param>, i: nat)
    requires i < |args|
    ensures var m, out := Modes(marks, args)[i] as int, i < |marks| && marks[i];
            && 0 < m < 4 && (m / 2 == 1 <==> out) && (m % 2 == 0 <==> out && args[i].PNil?)
  {
  }

  /** The binds of one execution, read back as one row. */
  lemma BindsRead(args: seq<Param>)
    requires EncodeAll(args).Done? && forall i :: 0 <= i < |args| ==> Sized(args[i])
    ensures var binds := PairsBytes(EncodeAll(args).value);
            if args == [] then binds == [] else ReadBatch(|args|, binds) == Some([NormalRow(args)])
  {
    if args != [] {
      OneRow(args);
      BatchReadable(|args|, [args]);
    }
  }

  lemma OneRow(args: seq<Param>)
    ensures Flatten([args]) == args && NormalRows([args]) == [NormalRow(args)]
  {
    assert [args][1..] == [] && args + [] == args;
  }

  /**
   A whole EXECUTE request of a statement, read by its peer: the arguments above, for a CALL_SP one mode per
   marker, and the arguments of the call as one row of binds.
   */
  lemma ExecuteReads(st: Statement, args: seq<Param>, autoCommit: bool)
    requires |args| == st.paramCount < TWO_32 && st.RequestFor(args, autoCommit).Some?
    requires forall i :: 0 <= i < |args| ==> Sized(args[i])
    ensures var req := st.RequestFor(args, autoCommit).value;
            var p := Many(ReadArg, if st.version >= 4 then 10 else 9, req[1..]);
            && req[0] == 3 && p.Got? && p.value[0] == Put32(st.handle)
            && |p.value[4]| == (if st.cmd == 126 then st.paramCount else 0)
            && (st.cmd == 126 ==> p.value[4] == Modes(st.outParams, args))
            && p.value[5] == [if st.cmd == 21 then 1 else 0] && p.value[6] == [if autoCommit then 1 else 0]
            && if args == [] then p.rest == [] else ReadBatch(|args|, p.rest) == Some([NormalRow(args)])
  {
    RequestReads(st.handle, st.ModesArg(args), st.cmd, autoCommit, st.version, PairsBytes(EncodeAll(args).value));
    BindsRead(args);
  }

  /** The column info a V2 response may carry inline is refused. */
  lemma InlineColumnsRefused(version: int, rc: int32, reusable: byte, rest: bytes)
    requires version >= 2 && rc >= 0
    ensures ReadHeader(version, Put32(rc) + ([reusable] + (Put32(0) + ([1] + rest)))).Fail?
  {
    ReadI32Put(rc, [reusable] + (Put32(0) + ([1] + rest)));
    ReadBytePut(reusable, Put32(0) + ([1] + rest));
    ReadI32Put(0, [1] + rest);
    ReadBytePut(1, rest);
  }

  /** Any other statement reports the server's count and opens no cursor; so does a CALL without a row. */
  lemma CountReported(cmd: byte, types: seq<byte>, version: int, h: SentHeader, rest: bytes, fetched: Option<bytes>)
    requires HeaderOk(h) && cmd != 21 && ((cmd != 24 && cmd != 126) || h.rc == 0)
    ensures var o := Outcome(cmd, types, version, Some(PrintHeader(version, h, rest)), fetched);
            o == Ran(h.rc, None) && ValueRow(cmd, o) == None
  {
    HeaderRoundTrip(version, h, rest);
  }

  lemma StartIsArgs(handle: int32)
    ensures ExecStart(handle) == [FN_EXECUTE] + Args([Put32(handle), [0], Put32(0), Put32(0)])
  {
    var z, b: bytes := Put32(0), [FN_EXECUTE];
    assert b == [FN_EXECUTE] + Args([]);
    ArgsSnoc(FN_EXECUTE, b, [], Put32(handle));
    ArgsSnoc(FN_EXECUTE, b + Arg(Put32(handle)), [Put32(handle)], [0]);
    assert [Put32(handle)] + [[0]] == [Put32(handle), [0]];
    ArgsSnoc(FN_EXECUTE, b + Arg(Put32(handle)) + Arg([0]), [Put32(handle), [0]], z);
    assert [Put32(handle), [0]] + [z] == [Put32(handle), [0], z];
    ArgsSnoc(FN_EXECUTE, b + Arg(Put32(handle)) + Arg([0]) + Arg(z), [Put32(handle), [0], z], z);
    assert [Put32(handle), [0], z] + [z] == [Put32(handle), [0], z, z];
  }

  lemma FlagsAreArgs(base: bytes, done: seq<bytes>, cmd: byte, autoCommit: bool)
    requires base == [FN_EXECUTE] + Args(done)
    ensures WithFlags(base, cmd, autoCommit) ==
            [FN_EXECUTE] + Args(done + [[BoolByte(cmd == CMD_SELECT)], [BoolByte(autoCommit)], [1], NO_CACHE_TIME])
  {
    var q, a: bytes := [BoolByte(cmd == CMD_SELECT)], [BoolByte(autoCommit)];
    ArgsSnoc(FN_EXECUTE, base, done, q);
    ArgsSnoc(FN_EXECUTE, base + Arg(q), done + [q], a);
    ArgsSnoc(FN_EXECUTE, base + Arg(q) + Arg(a), done + [q] + [a], [1]);
    ArgsSnoc(FN_EXECUTE, base + Arg(q) + Arg(a) + Arg([1]), done + [q] + [a] + [[1]], NO_CACHE_TIME);
    assert done + [q] + [a] + [[1]] + [NO_CACHE_TIME] == done + [q, a, [1], NO_CACHE_TIME];
  }

  lemma HeadIsArgs(handle: int32, modes: bytes, cmd: byte, autoCommit: bool, version: int)
    ensures ExecHead(handle, modes, cmd, autoCommit, version) ==
            [FN_EXECUTE] + Args(HeadArgs(handle, modes, cmd, autoCommit, version))
  {
    var start: seq<bytes> := [Put32(handle), [0], Put32(0), Put32(0)];
    var flags: seq<bytes> := [[BoolByte(cmd == CMD_SELECT)], [BoolByte(autoCommit)], [1], NO_CACHE_TIME];
    StartIsArgs(handle);
    ArgsSnoc(FN_EXECUTE, ExecStart(handle), start, modes);
    FlagsAreArgs(ExecStart(handle) + Arg(modes), start + [modes], cmd, autoCommit);
    ArgsSnoc(FN_EXECUTE, WithFlags(ExecStart(handle) + Arg(modes), cmd, autoCommit), start + [modes] + flags, Put32(0));
    assert HeadArgs(handle, modes, cmd, autoCommit, version) ==
           start + [modes] + flags + if version >= 4 then [Put32(0)] else [];
    assert start + [modes] + flags + [] == start + [modes] + flags;
  }
}
