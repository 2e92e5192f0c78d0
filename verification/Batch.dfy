/** Batch execution: ExecBatch, batchRoundTrip (cubrid/batch.go) and ParseBatchResponse. */
module Batch {
  import opened Bytes
  import opened Wire
  import opened Arguments
  import opened Bind
  import opened BatchRequest
  import opened Conn

  const FN_EXECUTE_BATCH_PREP: byte := 21
  const MIN_RESULT_BYTES := 12

  // ---------- Responses ----------

  datatype Outcome = Affected(rows: int32) | Failed(code: int32, message: bytes)

  function ParseOutcome(s: bytes, withStmtType: bool): (p: Parsed<Outcome>)
    ensures p.Got? ==> |p.rest| + MIN_RESULT_BYTES <= |s|
  {
    if withStmtType && |s| < 1 then Fail(ShortBuffer)
    else
      match ReadI32(if withStmtType then s[1..] else s)
      case Fail(e) => Fail(e)
      case Got(res, t) =>
        if res < 0 then
          match ReadI32(t)
          case Fail(e) => Fail(e)
          case Got(code, u) =>
            match ReadString(u)
            case Fail(e) => Fail(e)
            case Got(msg, v) => Got(Failed(code, msg), v)
        else
          match ReadBytes(t, 8)
          case Fail(e) => Fail(e)
          case Got(_, u) => Got(Affected(res), u)
  }

  function ParseOutcomes(n: nat, s: bytes, withStmtType: bool): (p: Parsed<seq<Outcome>>)
  {
    if n == 0 then Got([], s)
    else
      match ParseOutcome(s, withStmtType)
      case Fail(e) => Fail(e)
      case Got(o, t) => Push([o], ParseOutcomes(n - 1, t, withStmtType))
  }

  function Push(out: seq<Outcome>, p: Parsed<seq<Outcome>>): (q: Parsed<seq<Outcome>>)
    ensures out == [] ==> q == p
    ensures p.Got? && p.value == [] ==> q == Got(out, p.rest)
  {
    match p
    case Fail(e) => Fail(e)
    case Got(os, t) =>
      assert out == [] ==> out + os == os;
      assert os == [] ==> out + os == out;
      Got(out + os, t)
  }

  /** On every input whatever, a count the guard turns away is a count the results would not have met. */
  lemma {:induction false} GuardRejectsOnlyTheHopeless(n: nat, s: bytes, withStmtType: bool)
    ensures ParseOutcomes(n, s, withStmtType).Got? ==> MIN_RESULT_BYTES * n <= |s|
  {
    var p := ParseOutcome(s, withStmtType);
    if n > 0 && p.Got? {
      GuardRejectsOnlyTheHopeless(n - 1, p.rest, withStmtType);
    }
  }

  /** The count guard, the results, then the shard id on V5 and later. */
  function ParseBatch(s: bytes, version: int, withStmtType: bool): (r: Result<seq<Outcome>>)
  {
    match ReadI32(s)
    case Fail(e) => Err(e)
    case Got(n, t) =>
      if n < 0 || n * MIN_RESULT_BYTES > |t| then Err(BadCount(n))
      else
        match ParseOutcomes(n, t, withStmtType)
        case Fail(e) => Err(e)
        case Got(os, u) =>
          if version >= 5 && |u| < 4 then Err(ShortBuffer) else Ok(os)
  }

  /** The slots reserved before the first result is read: the count, if the guard lets it through. */
  function ReservedResults(s: bytes): (n: nat)
    ensures MIN_RESULT_BYTES * n <= |s|
  {
    match ReadI32(s)
    case Fail(_) => 0
    case Got(n, t) => if n < 0 || n * MIN_RESULT_BYTES > |t| then 0 else n
  }

  /** ParseBatchResponse as it runs; `slots` is the capacity it pre-allocates. */
  method ParseBatchResponse(rd: Reader, version: int, withStmtType: bool)
    returns (r: Result<seq<Outcome>>, slots: nat)
    requires rd.Valid()
    modifies rd
    ensures r == ParseBatch(old(rd.Rest()), version, withStmtType)
    ensures slots == ReservedResults(old(rd.Rest()))
    ensures MIN_RESULT_BYTES * slots <= old(|rd.Rest()|)
  {
    slots := 0;
    var n := rd.Int32();
    if n.Err? {
      return Err(n.error), 0;
    }
    if n.value < 0 || n.value * MIN_RESULT_BYTES > |rd.buf| - rd.off {
      return Err(BadCount(n.value)), 0;
    }
    slots := n.value;
    var os := ReadOutcomes(rd, n.value, withStmtType);
    if os.Err? {
      return Err(os.error), slots;
    }
    if version >= 5 {
      var shard := rd.Int32();
      if shard.Err? {
        return Err(shard.error), slots;
      }
    }
    r := Ok(os.value);
  }

  /** The result loop. */
  method ReadOutcomes(rd: Reader, n: nat, withStmtType: bool) returns (r: Result<seq<Outcome>>)
    requires rd.Valid()
    modifies rd
    ensures rd.Valid() && Agrees(ParseOutcomes(n, old(rd.Rest()), withStmtType), r, rd.Rest())
  {
    ghost var t := rd.Rest();
    var out: seq<Outcome>, i := [], 0;
    OutcomesStart(n, t, withStmtType);
    while i < n
      invariant 0 <= i <= n && rd.Valid()
      invariant OutcomesLoop(n, t, withStmtType, i, out, rd.Rest())
    {
      OutcomesStep(n, t, withStmtType, i, out, rd.Rest());
      var o := ReadOutcome(rd, withStmtType);
      if o.Err? {
        return Err(o.error);
      }
      out, i := out + [o.value], i + 1;
    }
    OutcomesEnd(n, t, withStmtType, out, rd.Rest());
    r := Ok(out);
  }

  /** After i results, `out` is read and s is left. */
  ghost predicate OutcomesLoop(n: nat, t: bytes, withStmtType: bool, i: nat, out: seq<Outcome>, s: bytes) {
    i <= n && ParseOutcomes(n, t, withStmtType) == Push(out, ParseOutcomes(n - i, s, withStmtType))
  }

  lemma OutcomesStart(n: nat, t: bytes, withStmtType: bool)
    ensures OutcomesLoop(n, t, withStmtType, 0, [], t)
  {
  }

  lemma OutcomesEnd(n: nat, t: bytes, withStmtType: bool, out: seq<Outcome>, s: bytes)
    requires OutcomesLoop(n, t, withStmtType, n, out, s)
    ensures ParseOutcomes(n, t, withStmtType) == Got(out, s)
  {
  }

  lemma OutcomesStep(n: nat, t: bytes, withStmtType: bool, i: nat, out: seq<Outcome>, s: bytes)
    requires i < n && OutcomesLoop(n, t, withStmtType, i, out, s)
    ensures match ParseOutcome(s, withStmtType)
            case Fail(e) => ParseOutcomes(n, t, withStmtType) == Fail(e)
            case Got(o, u) => OutcomesLoop(n, t, withStmtType, i + 1, out + [o], u)
  {
    match ParseOutcome(s, withStmtType)
    case Fail(_) =>
    case Got(o, u) =>
      var p := ParseOutcomes(n - i - 1, u, withStmtType);
      if p.Got? {
        Assoc(out, [o], p.value);
      }
  }

  /** The loop body. */
  method ReadOutcome(rd: Reader, withStmtType: bool) returns (r: Result<Outcome>)
    requires rd.Valid()
    modifies rd
    ensures rd.Valid() && Agrees(ParseOutcome(old(rd.Rest()), withStmtType), r, rd.Rest())
  {
    if withStmtType {
      var st := rd.Byte();
      if st.Err? {
        return Err(st.error);
      }
    }
    var res := rd.Int32();
    if res.Err? {
      return Err(res.error);
    }
    if res.value < 0 {
      var code := rd.Int32();
      if code.Err? {
        return Err(code.error);
      }
      var msg := rd.String();
      if msg.Err? {
        return Err(msg.error);
      }
      return Ok(Failed(code.value, msg.value));
    }
    ghost var t := rd.Rest();
    var a := rd.Int32();
    if a.Err? {
      return Err(a.error);
    }
    var b := rd.Int16();
    if b.Err? {
      return Err(b.error);
    }
    var c := rd.Int16();
    if c.Err? {
      return Err(c.error);
    }
    assert rd.Rest() == t[8..];
    return Ok(Affected(res.value));
  }

  /** What a server sends for one statement; the error indicator is any negative int. */
  datatype Sent =
    | SentOk(stmtType: byte, rows: int32, reserved: bytes)
    | SentError(stmtType: byte, indicator: int32, code: int32, message: bytes)

  predicate WellFormed(o: Sent)
  {
    match o
    case SentOk(_, rows, reserved) => rows >= 0 && |reserved| == 8
    case SentError(_, indicator, _, message) => indicator < 0 && |message| + 1 < TWO_31
  }

  function Meaning(o: Sent): (m: Outcome)
  {
    match o
    case SentOk(_, rows, _) => Affected(rows)
    case SentError(_, _, code, message) => Failed(code, message)
  }

  function PrintBody(o: Sent): (b: bytes)
    requires WellFormed(o)
    ensures |b| >= MIN_RESULT_BYTES
  {
    match o
    case SentOk(_, rows, reserved) => Put32(rows) + reserved
    case SentError(_, indicator, code, message) =>
      Put32(indicator) + (Put32(code) + (Put32(|message| + 1) + (message + [0])))
  }

  function PrintSent(o: Sent, withStmtType: bool): (b: bytes)
    requires WellFormed(o)
    ensures |b| >= MIN_RESULT_BYTES
  {
    if withStmtType then [o.stmtType] + PrintBody(o) else PrintBody(o)
  }

  function PrintAllSent(os: seq<Sent>, withStmtType: bool): (b: bytes)
    requires forall i :: 0 <= i < |os| ==> WellFormed(os[i])
    ensures |b| >= MIN_RESULT_BYTES * |os|
  {
    if os == [] then [] else PrintSent(os[0], withStmtType) + PrintAllSent(os[1..], withStmtType)
  }

  function Meanings(os: seq<Sent>): (ms: seq<Outcome>)
    ensures |ms| == |os|
  {
    seq(|os|, i requires 0 <= i < |os| => Meaning(os[i]))
  }

  lemma BodyRoundTrip(o: Sent, rest: bytes)
    requires WellFormed(o)
    ensures ParseOutcome(PrintBody(o) + rest, false) == Got(Meaning(o), rest)
  {
    match o
    case SentOk(_, rows, reserved) =>
      Assoc(Put32(rows), reserved, rest);
      ReadI32Put(rows, reserved + rest);
      ReadBytesPut(reserved, rest);
    case SentError(_, indicator, code, message) =>
      ErrorRoundTrip(indicator, code, message, rest);
  }

  lemma ErrorRoundTrip(indicator: int32, code: int32, message: bytes, rest: bytes)
    requires indicator < 0 && |message| + 1 < TWO_31
    ensures ParseOutcome(Put32(indicator) + (Put32(code) + (Put32(|message| + 1) + (message + [0]))) + rest, false) ==
            Got(Failed(code, message), rest)
  {
    var text := Put32(|message| + 1) + (message + [0]);
    Assoc(Put32(indicator), Put32(code) + text, rest);
    Assoc(Put32(code), text, rest);
    ReadI32Put(indicator, Put32(code) + (text + rest));
    ReadI32Put(code, text + rest);
    ReadStringPut(message, rest);
  }

  lemma SentRoundTrip(o: Sent, withStmtType: bool, rest: bytes)
    requires WellFormed(o)
    ensures ParseOutcome(PrintSent(o, withStmtType) + rest, withStmtType) == Got(Meaning(o), rest)
  {
    BodyRoundTrip(o, rest);
    if withStmtType {
      Assoc([o.stmtType], PrintBody(o), rest);
      SkipStmtType(o.stmtType, PrintBody(o) + rest);
    }
  }

  lemma SkipStmtType(b: byte, s: bytes)
    ensures ParseOutcome([b] + s, true) == ParseOutcome(s, false)
  {
    assert ([b] + s)[1..] == s;
  }

  lemma {:induction false} SentAllRoundTrip(os: seq<Sent>, withStmtType: bool, rest: bytes)
    requires forall i :: 0 <= i < |os| ==> WellFormed(os[i])
    ensures ParseOutcomes(|os|, PrintAllSent(os, withStmtType) + rest, withStmtType) == Got(Meanings(os), rest)
  {
    if os == [] {
      assert PrintAllSent(os, withStmtType) + rest == rest;
    } else {
      Assoc(PrintSent(os[0], withStmtType), PrintAllSent(os[1..], withStmtType), rest);
      SentRoundTrip(os[0], withStmtType, PrintAllSent(os[1..], withStmtType) + rest);
      SentAllRoundTrip(os[1..], withStmtType, rest);
      MeaningsCons(os);
    }
  }

  lemma MeaningsCons(os: seq<Sent>)
    requires os != []
    ensures Meanings(os) == [Meaning(os[0])] + Meanings(os[1..])
  {
  }

  /**
   At every version and with or without statement-type bytes the count guard admits every
   well-formed response, and the parser returns its outcomes.
   */
  lemma BatchResponseRoundTrip(os: seq<Sent>, version: int, withStmtType: bool, tail: bytes)
    requires |os| < TWO_31 && forall i :: 0 <= i < |os| ==> WellFormed(os[i])
    requires version >= 5 ==> |tail| >= 4
    ensures ParseBatch(Put32(|os|) + (PrintAllSent(os, withStmtType) + tail), version, withStmtType) ==
            Ok(Meanings(os))
  {
    ReadI32Put(|os|, PrintAllSent(os, withStmtType) + tail);
    SentAllRoundTrip(os, withStmtType, tail);
  }

  // ---------- ExecBatch ----------

  datatype BatchError =
    | StmtClosed
    | NoParameters
    | RowWidth
    | BadBind(bind: BindError)
    | Transport
    | Response(error: Error)

  datatype BatchReply = Results(outcomes: seq<Outcome>) | Rejected(why: BatchError)

  /** ExecuteBatchPrepRequest: everything before the binds. */
  function RequestHead(handle: int32, autoCommit: bool, version: int): (b: bytes)
  {
    var start := [FN_EXECUTE_BATCH_PREP] + Arg(Put32(handle));
    (if version >= 4 then start + Arg(Put32(0)) else start) + Arg([if autoCommit then 1 else 0])
  }

  // ---------- What the peer reads ----------

  /** The arguments before the binds: the handle, a zero timeout from V4 on, the autocommit flag. */
  lemma HeadReads(handle: int32, autoCommit: bool, version: int, rest: bytes)
    ensures var req := RequestHead(handle, autoCommit, version) + rest;
            && req[0] == 21
            && Many(ReadArg, if version >= 4 then 3 else 2, req[1..]) ==
               Got([Put32(handle)] + (if version >= 4 then [Put32(0)] else []) + [[if autoCommit then 1 else 0]], rest)
  {
    var flag: bytes := [if autoCommit then 1 else 0];
    var args := [Put32(handle)] + (if version >= 4 then [Put32(0)] else []) + [flag];
    HeadIsArgs(handle, autoCommit, version, flag);
    RequestByArgs(FN_EXECUTE_BATCH_PREP, RequestHead(handle, autoCommit, version), args, rest);
  }

  lemma HeadIsArgs(handle: int32, autoCommit: bool, version: int, flag: bytes)
    requires flag == [if autoCommit then 1 else 0]
    ensures RequestHead(handle, autoCommit, version) ==
            [FN_EXECUTE_BATCH_PREP] + Args([Put32(handle)] + (if version >= 4 then [Put32(0)] else []) + [flag])
  {
    var fn, h := FN_EXECUTE_BATCH_PREP, Put32(handle);
    assert [fn] == [fn] + Args([]) && [] + [h] == [h] && [h] + [] == [h];
    ArgsSnoc(fn, [fn], [], h);
    if version >= 4 {
      ArgsSnoc(fn, [fn] + Arg(h), [h], Put32(0));
      ArgsSnoc(fn, [fn] + Arg(h) + Arg(Put32(0)), [h] + [Put32(0)], flag);
    } else {
      ArgsSnoc(fn, [fn] + Arg(h), [h], flag);
    }
  }

  /**
   A whole batch request, read by a peer that knows the version and the parameter count: the handle, the
   autocommit flag, and every row of every bind, although no row count is sent.
   */
  lemma BatchRequestReads(handle: int32, autoCommit: bool, version: int, k: nat, rows: seq<seq<Param>>)
    requires k >= 1 && forall i :: 0 <= i < |rows| ==> |rows[i]| == k
    requires EncodeAll(Flatten(rows)).Done?
    requires forall i :: 0 <= i < |Flatten(rows)| ==> Sized(Flatten(rows)[i])
    ensures var req := RequestHead(handle, autoCommit, version) + PairsBytes(EncodeAll(Flatten(rows)).value);
            var p := Many(ReadArg, if version >= 4 then 3 else 2, req[1..]);
            && req[0] == 21 && p.Got?
            && p.value == [Put32(handle)] + (if version >= 4 then [Put32(0)] else []) + [[if autoCommit then 1 else 0]]
            && ReadBatch(k, p.rest) == Some(NormalRows(rows))
  {
    HeadReads(handle, autoCommit, version, PairsBytes(EncodeAll(Flatten(rows)).value));
    BatchReadable(k, rows);
  }

  method WriteHead(w: Writer, handle: int32, autoCommit: bool, version: int)
    requires w.buf == []
    modifies w
    ensures w.buf == RequestHead(handle, autoCommit, version)
  {
    w.RawByte(FN_EXECUTE_BATCH_PREP);
    w.ArgInt(handle);
    if version >= 4 {
      w.ArgInt(0);
    }
    w.ArgByte(if autoCommit then 1 else 0);
  }

  /** One row's binds appended to the request. */
  method WriteRow(w: Writer, row: seq<Param>) returns (err: Option<BindError>)
    modifies w
    ensures match EncodeAll(row)
            case Done(ps) => err == None && w.buf == old(w.buf) + PairsBytes(ps)
            case Refused(e) => err == Some(e)
  {
    var j := 0;
    while j < |row|
      invariant 0 <= j <= |row|
      invariant Writing(row, row[j..], old(w.buf), w.buf)
    {
      WritingStep(row, row[j..], old(w.buf), w.buf);
      assert row[j..][1..] == row[j + 1..];
      err := EncodeArg(w, row[j]);
      if err.Some? {
        return;
      }
      j := j + 1;
    }
    assert w.buf + [] == w.buf;
    err := None;
  }

  /** Binds vs are to be written after `base`; `rest` of them are still to come after `buf`. */
  ghost predicate Writing(vs: seq<Param>, rest: seq<Param>, base: bytes, buf: bytes) {
    match EncodeAll(rest)
    case Refused(e) => EncodeAll(vs) == Refused(e)
    case Done(ps) => EncodeAll(vs).Done? && base + PairsBytes(EncodeAll(vs).value) == buf + PairsBytes(ps)
  }

  lemma WritingStep(vs: seq<Param>, rest: seq<Param>, base: bytes, buf: bytes)
    requires rest != [] && Writing(vs, rest, base, buf)
    ensures Encode(rest[0]).Refused? ==> EncodeAll(vs) == Refused(Encode(rest[0]).error)
    ensures Encode(rest[0]).Done? ==> Writing(vs, rest[1..], base, buf + PairBytes(Encode(rest[0]).value))
  {
    if Encode(rest[0]).Done? && EncodeAll(rest[1..]).Done? {
      var p, ps := Encode(rest[0]).value, EncodeAll(rest[1..]).value;
      assert ([p] + ps)[1..] == ps;
      Assoc(buf, PairBytes(p), PairsBytes(ps));
    }
  }

  lemma EncodeAllConcat(vs: seq<Param>, ws: seq<Param>)
    ensures match EncodeAll(vs)
            case Refused(e) => EncodeAll(vs + ws) == Refused(e)
            case Done(ps) =>
              match EncodeAll(ws)
              case Refused(e) => EncodeAll(vs + ws) == Refused(e)
              case Done(qs) =>
                && EncodeAll(vs + ws) == Done(ps + qs)
                && PairsBytes(ps + qs) == PairsBytes(ps) + PairsBytes(qs)
    decreases |vs|
  {
    if vs == [] {
      assert vs + ws == ws;
      if EncodeAll(ws).Done? {
        assert [] + EncodeAll(ws).value == EncodeAll(ws).value;
      }
    } else {
      assert (vs + ws)[1..] == vs[1..] + ws;
      EncodeAllConcat(vs[1..], ws);
      if EncodeAll(vs).Done? && EncodeAll(ws).Done? {
        var p, ps, qs := Encode(vs[0]).value, EncodeAll(vs[1..]).value, EncodeAll(ws).value;
        Assoc([p], ps, qs);
        assert ([p] + (ps + qs))[1..] == ps + qs && ([p] + ps)[1..] == ps;
        Assoc(PairBytes(p), PairsBytes(ps), PairsBytes(qs));
      }
    }
  }

  /** Every row's binds, in row order. */
  method WriteRows(w: Writer, rows: seq<seq<Param>>) returns (err: Option<BindError>)
    modifies w
    ensures match EncodeAll(Flatten(rows))
            case Done(ps) => err == None && w.buf == old(w.buf) + PairsBytes(ps)
            case Refused(e) => err == Some(e)
  {
    var i := 0;
    while i < |rows|
      invariant 0 <= i <= |rows|
      invariant Writing(Flatten(rows), Flatten(rows[i..]), old(w.buf), w.buf)
    {
      WritingRow(rows, i, old(w.buf), w.buf);
      err := WriteRow(w, rows[i]);
      if err.Some? {
        return;
      }
      i := i + 1;
    }
    assert w.buf + [] == w.buf;
    err := None;
  }

  lemma WritingRow(rows: seq<seq<Param>>, i: nat, base: bytes, buf: bytes)
    requires i < |rows| && Writing(Flatten(rows), Flatten(rows[i..]), base, buf)
    ensures EncodeAll(rows[i]).Refused? ==> EncodeAll(Flatten(rows)) == Refused(EncodeAll(rows[i]).error)
    ensures EncodeAll(rows[i]).Done? ==>
              Writing(Flatten(rows), Flatten(rows[i + 1..]), base, buf + PairsBytes(EncodeAll(rows[i]).value))
  {
    var rest := Flatten(rows[i + 1..]);
    assert rows[i..][1..] == rows[i + 1..];
    EncodeAllConcat(rows[i], rest);
    if EncodeAll(rows[i]).Done? && EncodeAll(rest).Done? {
      Assoc(buf, PairsBytes(EncodeAll(rows[i]).value), PairsBytes(EncodeAll(rest).value));
    }
  }

  method CheckWidths(k: nat, rows: seq<seq<Param>>) returns (ok: bool)
    ensures ok <==> forall i :: 0 <= i < |rows| ==> |rows[i]| == k
  {
    for i := 0 to |rows|
      invariant forall j :: 0 <= j < i ==> |rows[j]| == k
    {
      if |rows[i]| != k {
        return false;
      }
    }
    return true;
  }

  /**
   ExecBatch. A request refused locally (closed statement, wrong shape, a bind that cannot be
   encoded) sends nothing and leaves the connection as it was; otherwise exactly one request goes
   out, holding the head and every row's binds.
   */
  method ExecBatch(c: Connection, handle: int32, closed: bool, k: nat, version: int, rows: seq<seq<Param>>,
                   fault: Fault)
    returns (r: BatchReply)
    modifies c
    ensures closed ==> r == Rejected(StmtClosed) && c.Snap() == old(c.Snap())
    ensures !closed && rows == [] ==> r == Results([]) && c.Snap() == old(c.Snap())
    ensures !closed && k == 0 && |rows| > 1 ==> r == Rejected(NoParameters) && c.Snap() == old(c.Snap())
    ensures !closed && !(k == 0 && |rows| > 1) && (exists i :: 0 <= i < |rows| && |rows[i]| != k) ==>
              r == Rejected(RowWidth) && c.Snap() == old(c.Snap())
    ensures !closed && rows != [] && !(k == 0 && |rows| > 1) && (forall i :: 0 <= i < |rows| ==> |rows[i]| == k) ==>
              match EncodeAll(Flatten(rows))
              case Refused(e) => r == Rejected(BadBind(e)) && c.Snap() == old(c.Snap())
              case Done(ps) =>
                var req := RequestHead(handle, old(c.autoCommit), version) + PairsBytes(ps);
                var trip := Trip(old(c.Snap()), req, fault);
                c.Snap() == trip.0 && r == Answer(trip.1, version, false)
  {
    if closed {
      return Rejected(StmtClosed);
    }
    if |rows| == 0 {
      return Results([]);
    }
    if k == 0 && |rows| > 1 {
      return Rejected(NoParameters);
    }
    var widths := CheckWidths(k, rows);
    if !widths {
      return Rejected(RowWidth);
    }
    var w := new Writer();
    WriteHead(w, handle, c.autoCommit, version);
    var err := WriteRows(w, rows);
    if err.Some? {
      return Rejected(BadBind(err.value));
    }
    r := BatchRoundTrip(c, w.buf, version, false, fault);
  }

  /** What a batch call answers to a response payload, or to its absence. */
  function Answer(reply: Option<bytes>, version: int, withStmtType: bool): (r: BatchReply)
  {
    match reply
    case None => Rejected(Transport)
    case Some(p) =>
      match ReadStatus(p)
      case Fail(e) => Rejected(Response(e))
      case Got(_, t) =>
        match ParseBatch(t, version, withStmtType)
        case Err(e) => Rejected(Response(e))
        case Ok(os) => Results(os)
  }

  /** A reply printed by a server is answered with exactly its outcomes. */
  lemma AnswerRoundTrip(status: int32, os: seq<Sent>, version: int, withStmtType: bool, tail: bytes)
    requires status >= 0 && |os| < TWO_31 && forall i :: 0 <= i < |os| ==> WellFormed(os[i])
    requires version >= 5 ==> |tail| >= 4
    ensures var reply := Put32(status) + (Put32(|os|) + (PrintAllSent(os, withStmtType) + tail));
            Answer(Some(reply), version, withStmtType) == Results(Meanings(os))
  {
    ReadI32Put(status, Put32(|os|) + (PrintAllSent(os, withStmtType) + tail));
    BatchResponseRoundTrip(os, version, withStmtType, tail);
  }

  method BatchRoundTrip(c: Connection, payload: bytes, version: int, withStmtType: bool, fault: Fault)
    returns (r: BatchReply)
    modifies c
    ensures c.Snap() == Trip(old(c.Snap()), payload, fault).0
    ensures r == Answer(Trip(old(c.Snap()), payload, fault).1, version, withStmtType)
  {
    var reply := c.RoundTrip(payload, fault);
    if reply.None? {
      return Rejected(Transport);
    }
    var rd := new Reader(reply.value);
    var st := rd.Status();
    if st.Err? {
      return Rejected(Response(st.error));
    }
    var res, _ := ParseBatchResponse(rd, version, withStmtType);
    if res.Err? {
      return Rejected(Response(res.error));
    }
    r := Results(res.value);
  }
}
