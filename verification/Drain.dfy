/** Draining a cursor over a server that answers FETCH requests, and exactly when every row arrives. */
module Drain {
  import opened Bytes
  import opened Wire
  import opened Codec
  import opened Cursor
  import opened Streaming

  // ---------- Servers ----------

  type Answers = (nat, bytes) -> Option<bytes>

  /** The server holds `rows`: it answers every FETCH with an honest batch from the index asked for. */
  ghost predicate Serves(answers: Answers, rows: seq<WireRow>, width: nat, version: int)
    requires TableOk(width, rows)
  {
    forall k: nat, req: bytes :: InRange(rows, FetchStart(req)) ==>
      HonestTo(rows, width, FetchStart(req).value, version, answers(k, req))
  }

  /** The same, but any answer may be lost or be an error. */
  ghost predicate MayServe(answers: Answers, rows: seq<WireRow>, width: nat, version: int)
    requires TableOk(width, rows)
  {
    forall k: nat, req: bytes :: InRange(rows, FetchStart(req)) && Arrived(answers(k, req)) ==>
      HonestTo(rows, width, FetchStart(req).value, version, answers(k, req))
  }

  predicate InRange(rows: seq<WireRow>, start: Option<int32>) { start.Some? && 1 <= start.value <= |rows| + 1 }

  ghost predicate HonestTo(rows: seq<WireRow>, width: nat, start: int, version: int, reply: Option<bytes>)
    requires TableOk(width, rows)
  {
    reply.Some? && HonestReply(rows, width, start, version, reply.value)
  }

  /** A response came and its status is not an error. */
  predicate Arrived(reply: Option<bytes>) { reply.Some? && ReadStatus(reply.value).Got? }

  /** A server that puts everything it has into one batch. */
  function OneBatch(rows: seq<WireRow>, width: nat, version: int): (answers: Answers)
    requires TableOk(width, rows)
  {
    (k: nat, req: bytes) =>
      var start := FetchStart(req);
      if InRange(rows, start) then Some(RestReply(rows, width, version, start.value)) else None
  }

  function RestReply(rows: seq<WireRow>, width: nat, version: int, start: int32): (p: bytes)
    requires TableOk(width, rows) && 1 <= start <= |rows| + 1
  {
    var k := |rows| - (start - 1);
    Put32(0) + (Put32(k) + (PrintRun(start, width, RunOf(rows, start, k)) + Completed(version)))
  }

  function Completed(version: int): (tail: bytes) { if version >= 5 then [1] else [] }

  lemma RestIsHonest(rows: seq<WireRow>, width: nat, version: int, start: int32)
    requires TableOk(width, rows) && 1 <= start <= |rows| + 1
    ensures HonestReply(rows, width, start, version, RestReply(rows, width, version, start))
  {
    var k := |rows| - (start - 1);
    var b := Batch(k, Completed(version));
    var s := Put32(k) + (PrintRun(start, width, RunOf(rows, start, k)) + Completed(version));
    assert IsBatch(rows, width, start, version, b, s);
    IsHonest(rows, width, start, version, b, s);
  }

  lemma IsHonest(rows: seq<WireRow>, width: nat, start: int, version: int, b: Batch, s: bytes)
    requires TableOk(width, rows) && IsBatch(rows, width, start, version, b, s)
    ensures HonestReply(rows, width, start, version, Put32(0) + s)
  {
  }

  /** There is such a server for every table. */
  lemma OneBatchServes(rows: seq<WireRow>, width: nat, version: int)
    requires TableOk(width, rows)
    ensures Serves(OneBatch(rows, width, version), rows, width, version)
  {
    forall k: nat, req: bytes | InRange(rows, FetchStart(req))
      ensures HonestTo(rows, width, FetchStart(req).value, version, OneBatch(rows, width, version)(k, req))
    {
      OneBatchAnswers(rows, width, version, k, req);
    }
  }

  lemma OneBatchAnswers(rows: seq<WireRow>, width: nat, version: int, k: nat, req: bytes)
    requires TableOk(width, rows) && InRange(rows, FetchStart(req))
    ensures HonestTo(rows, width, FetchStart(req).value, version, OneBatch(rows, width, version)(k, req))
  {
    RestIsHonest(rows, width, version, FetchStart(req).value);
  }

  // ---------- A run against a server ----------

  /** The answer a FETCH from this state would get as request k. */
  function ReplyTo(answers: Answers, k: nat, handle: int32, size: int32, c: State): (reply: Option<bytes>)
  {
    answers(k, FetchRequest(handle, c.nextIndex, size))
  }

  /** n calls of Next: only the calls that need a FETCH use up an answer. */
  function Replies(answers: Answers, k: nat, handle: int32, size: int32, c: State, n: nat): (rs: seq<Option<bytes>>)
    requires c.pos <= |c.tuples|
    ensures |rs| == n
    decreases n
  {
    if n == 0 then []
    else
      var reply := ReplyTo(answers, k, handle, size, c);
      [reply] + Replies(answers, if NeedsFetch(c) then k + 1 else k, handle, size, Next(c, reply).0, n - 1)
  }

  lemma ReplyHonest(answers: Answers, rows: seq<WireRow>, k: nat, handle: int32, size: int32, c: State)
    requires Synced(rows, c) && Serves(answers, rows, |c.cols|, c.version)
    ensures var reply := ReplyTo(answers, k, handle, size, c);
            reply.Some? && HonestReply(rows, |c.cols|, c.nextIndex, c.version, reply.value)
  {
    FetchRequestReads(handle, c.nextIndex, size);
  }

  lemma {:induction false} RunAnswered(answers: Answers, rows: seq<WireRow>, k: nat, handle: int32, size: int32,
                                       c: State, n: nat)
    requires Synced(rows, c) && !c.closed && Serves(answers, rows, |c.cols|, c.version)
    ensures AnsweredThroughout(rows, c, Replies(answers, k, handle, size, c, n))
    decreases n
  {
    if n > 0 {
      var reply := ReplyTo(answers, k, handle, size, c);
      var d, k' := Next(c, reply).0, if NeedsFetch(c) then k + 1 else k;
      ReplyHonest(answers, rows, k, handle, size, c);
      NextServed(rows, c, reply);
      RunAnswered(answers, rows, k', handle, size, d, n - 1);
      AnsweredFirst(rows, c, reply, Replies(answers, k', handle, size, d, n - 1));
    }
  }

  lemma AnsweredFirst(rows: seq<WireRow>, c: State, reply: Option<bytes>, more: seq<Option<bytes>>)
    requires TableOk(|c.cols|, rows) && c.pos <= |c.tuples| && reply.Some?
    requires HonestReply(rows, |c.cols|, c.nextIndex, c.version, reply.value)
    requires AnsweredThroughout(rows, Next(c, reply).0, more)
    ensures AnsweredThroughout(rows, c, [reply] + more)
  {
    assert ([reply] + more)[1..] == more;
  }

  lemma ReplyServed(answers: Answers, rows: seq<WireRow>, k: nat, handle: int32, size: int32, c: State)
    requires Synced(rows, c) && MayServe(answers, rows, |c.cols|, c.version)
    ensures Served(rows, c, ReplyTo(answers, k, handle, size, c))
  {
    FetchRequestReads(handle, c.nextIndex, size);
  }

  lemma {:induction false} RunServed(answers: Answers, rows: seq<WireRow>, k: nat, handle: int32, size: int32,
                                     c: State, n: nat)
    requires Synced(rows, c) && !c.closed && MayServe(answers, rows, |c.cols|, c.version)
    ensures ServedThroughout(rows, c, Replies(answers, k, handle, size, c, n))
    decreases n
  {
    if n > 0 {
      var reply := ReplyTo(answers, k, handle, size, c);
      var d, k' := Next(c, reply).0, if NeedsFetch(c) then k + 1 else k;
      ReplyServed(answers, rows, k, handle, size, c);
      NextServed(rows, c, reply);
      RunServed(answers, rows, k', handle, size, d, n - 1);
      ServedFirst(rows, c, reply, Replies(answers, k', handle, size, d, n - 1));
    }
  }

  lemma ServedFirst(rows: seq<WireRow>, c: State, reply: Option<bytes>, more: seq<Option<bytes>>)
    requires TableOk(|c.cols|, rows) && c.pos <= |c.tuples| && Served(rows, c, reply)
    requires ServedThroughout(rows, Next(c, reply).0, more)
    ensures ServedThroughout(rows, c, [reply] + more)
  {
    assert ([reply] + more)[1..] == more;
  }

  /**
   Against any server, losing or refusing any of its answers: the rows delivered by n calls, then the
   rows still ahead, are the deliverable rows in order; the end means all of them were delivered.
   */
  lemma NothingLostFrom(answers: Answers, rows: seq<WireRow>, k: nat, handle: int32, size: int32, c: State, n: nat)
    requires Synced(rows, c) && !c.closed && MayServe(answers, rows, |c.cols|, c.version)
    ensures var (d, got) := Calls(c, Replies(answers, k, handle, size, c, n));
            && Synced(rows, d) && Ahead(rows, c) == RowsOf(got) + Ahead(rows, d)
            && (EndOfRows in got ==> RowsOf(got) == Ahead(rows, c))
  {
    RunServed(answers, rows, k, handle, size, c, n);
    NothingLostOrRepeated(rows, c, Replies(answers, k, handle, size, c, n));
  }

  // ---------- Exactly when every row arrives ----------

  /** Every row the server has not yet sent decodes; a client could check it of a table before asking. */
  ghost predicate RestDecodes(rows: seq<WireRow>, c: State)
    requires Synced(rows, c)
  {
    AllDecode(c.cols, c.isCall, rows[c.nextIndex - 1..])
  }

  ghost predicate AllDecode(cols: seq<byte>, isCall: bool, rows: seq<WireRow>) {
    forall i :: 0 <= i < |rows| ==> DecodeRow(cols, isCall, rows[i].cells).Ok?
  }

  lemma {:induction false} DeliverableIsWhole(cols: seq<byte>, isCall: bool, rows: seq<WireRow>)
    ensures |Deliverable(cols, isCall, rows)| == |rows| <==> AllDecode(cols, isCall, rows)
    decreases |rows|
  {
    if rows != [] {
      DeliverableIsWhole(cols, isCall, rows[1..]);
      assert forall i :: 1 <= i < |rows| ==> rows[i] == rows[1..][i - 1];
      if AllDecode(cols, isCall, rows[1..]) && DecodeRow(cols, isCall, rows[0].cells).Ok? {
        forall i | 0 <= i < |rows|
          ensures DecodeRow(cols, isCall, rows[i].cells).Ok?
        {
          assert i > 0 ==> DecodeRow(cols, isCall, rows[1..][i - 1].cells).Ok?;
        }
      }
    }
  }

  lemma AheadIsWhole(rows: seq<WireRow>, c: State)
    requires Synced(rows, c)
    ensures |Ahead(rows, c)| == Left(rows, c) <==> RestDecodes(rows, c)
  {
    DeliverableIsWhole(c.cols, c.isCall, rows[c.nextIndex - 1..]);
  }

  /**
   Exactly once, in order, then the end: over every honest batching and version, a full drain delivers
   its rows call by call if and only if every row still at the server decodes.
   */
  lemma ExactlyOnceIff(rows: seq<WireRow>, c: State, replies: seq<Option<bytes>>)
    requires Synced(rows, c) && !c.closed && AnsweredThroughout(rows, c, replies) && |replies| > Left(rows, c)
    ensures Delivers(Calls(c, replies).1, Ahead(rows, c)) <==> RestDecodes(rows, c)
  {
    AheadIsWhole(rows, c);
    NothingLeft(rows, c);
    if RestDecodes(rows, c) {
      ExactlyOnceInOrder(rows, c, replies);
    } else {
      DrainIsPrompt(rows, c, replies);
      var answers, i := Calls(c, replies).1, |Ahead(rows, c)|;
      assert i < Left(rows, c) && !answers[i].EndOfRows?;
    }
  }

  /** The same against any server that holds the rows. */
  lemma DrainedFrom(answers: Answers, rows: seq<WireRow>, k: nat, handle: int32, size: int32, c: State, n: nat)
    requires Synced(rows, c) && !c.closed && Serves(answers, rows, |c.cols|, c.version)
    ensures var got := Calls(c, Replies(answers, k, handle, size, c, n)).1;
            && EndsAfter(got, Left(rows, c))
            && (RestDecodes(rows, c) ==> Delivers(got, Ahead(rows, c)))
            && (n > Left(rows, c) && Delivers(got, Ahead(rows, c)) ==> RestDecodes(rows, c))
  {
    var replies := Replies(answers, k, handle, size, c, n);
    RunAnswered(answers, rows, k, handle, size, c, n);
    DrainIsPrompt(rows, c, replies);
    AheadIsWhole(rows, c);
    if RestDecodes(rows, c) {
      ExactlyOnceInOrder(rows, c, replies);
    }
    if n > Left(rows, c) {
      ExactlyOnceIff(rows, c, replies);
    }
  }

  /** An INT column holding one byte. */
  const BAD_ROW := WireRow([0, 0, 0, 0, 0, 0, 0, 0], [CData([7])])

  /** A table of one row of which a client never gets any: the first call fails, the second says the end. */
  lemma BadRowIsSkipped(version: int)
    ensures TableOk(1, [BAD_ROW]) && Serves(OneBatch([BAD_ROW], 1, version), [BAD_ROW], 1, version)
    ensures var c := State([TYPE_INT], false, version, [], 0, 1, false, false);
            var got := Calls(c, Replies(OneBatch([BAD_ROW], 1, version), 0, 1, 100, c, 2)).1;
            got[0].Failed? && got[1] == EndOfRows && RowsOf(got) == []
  {
    var c := State([TYPE_INT], false, version, [], 0, 1, false, false);
    BadRowFacts(c);
    OneBatchServes([BAD_ROW], 1, version);
    FailsThenEnds(OneBatch([BAD_ROW], 1, version), [BAD_ROW], 0, 1, 100, c);
  }

  lemma BadRowFacts(c: State)
    requires c.cols == [TYPE_INT] && !c.isCall && c.tuples == [] && c.pos == 0 && c.nextIndex == 1 && !c.fetchedAll
    ensures Synced([BAD_ROW], c) && Ahead([BAD_ROW], c) == [] && Left([BAD_ROW], c) == 1
  {
    var rows := [BAD_ROW];
    assert DecodeRow(c.cols, false, rows[0].cells).Err?;
    assert rows[0..] == rows && Deliverable(c.cols, false, rows) == [];
  }

  /** One row left and none deliverable: a failure, then the end, and no row. */
  lemma FailsThenEnds(answers: Answers, rows: seq<WireRow>, k: nat, handle: int32, size: int32, c: State)
    requires Synced(rows, c) && !c.closed && Serves(answers, rows, |c.cols|, c.version)
    requires Left(rows, c) == 1 && Ahead(rows, c) == []
    ensures var got := Calls(c, Replies(answers, k, handle, size, c, 2)).1;
            got[0].Failed? && got[1] == EndOfRows && RowsOf(got) == []
  {
    var replies := Replies(answers, k, handle, size, c, 2);
    RunAnswered(answers, rows, k, handle, size, c, 2);
    DrainIsPrompt(rows, c, replies);
    AnsweredIsServed(rows, c, replies);
    NothingLostOrRepeated(rows, c, replies);
    OnlyFailures(rows, c, replies);
  }

  /** Answered throughout is in particular served throughout. */
  lemma {:induction false} AnsweredIsServed(rows: seq<WireRow>, c: State, replies: seq<Option<bytes>>)
    requires TableOk(|c.cols|, rows) && c.pos <= |c.tuples| && AnsweredThroughout(rows, c, replies)
    ensures ServedThroughout(rows, c, replies)
    decreases |replies|
  {
    if replies != [] {
      AnsweredIsServed(rows, Next(c, replies[0]).0, replies[1..]);
    }
  }

  /** With nothing deliverable, the first answer while rows are left is a failure. */
  lemma OnlyFailures(rows: seq<WireRow>, c: State, replies: seq<Option<bytes>>)
    requires Synced(rows, c) && !c.closed && replies != [] && AnsweredThroughout(rows, c, replies)
    requires Left(rows, c) > 0 && Ahead(rows, c) == []
    ensures Calls(c, replies).1[0].Failed?
  {
    HonestStatus(rows, |c.cols|, c.nextIndex, c.version, replies[0].value);
    NextServed(rows, c, replies[0]);
  }

  // ---------- The draining loop ----------

  /**
   forEachSchemaRow: drain to the end, or stop at the first error. It succeeds with every row, and it
   fails only if the answer to its last FETCH did not arrive or some row does not decode.
   */
  method DrainAll(r: Rows, peer: Peer<bytes>, ghost rows: seq<WireRow>) returns (out: seq<Row>, failed: bool)
    requires r.Valid() && Synced(rows, r.Snap()) && !r.closed
    requires MayServe(peer.answers, rows, |r.cols|, r.version)
    modifies r, peer
    ensures old(peer.asked) <= peer.asked
    ensures out <= old(Ahead(rows, r.Snap()))
    ensures !failed ==> out == old(Ahead(rows, r.Snap())) && |out| == old(Left(rows, r.Snap()))
    ensures failed && old(RestDecodes(rows, r.Snap())) ==>
              |peer.asked| > |old(peer.asked)| && !Arrived(peer.answers(|peer.asked| - 1, peer.asked[|peer.asked| - 1]))
  {
    out, failed := [], false;
    ghost var all, left := Ahead(rows, r.Snap()), Left(rows, r.Snap());
    AheadIsWhole(rows, r.Snap());
    while true
      invariant r.Valid() && Synced(rows, r.Snap()) && !r.closed && old(peer.asked) <= peer.asked
      invariant out + Ahead(rows, r.Snap()) == all && |out| + Left(rows, r.Snap()) == left
      decreases Left(rows, r.Snap())
    {
      var a := Turn(r, peer, rows);
      match a
      case Delivered(row) =>
        Assoc(out, [row], Ahead(rows, r.Snap()));
        out := out + [row];
      case EndOfRows =>
        return;
      case _ =>
        return out, true;
    }
  }

  /** One turn of the drain, against a server that may lose its answer. */
  method Turn(r: Rows, peer: Peer<bytes>, ghost rows: seq<WireRow>) returns (a: Answer)
    requires r.Valid() && Synced(rows, r.Snap()) && !r.closed
    requires MayServe(peer.answers, rows, |r.cols|, r.version)
    modifies r, peer
    ensures r.Valid() && Synced(rows, r.Snap()) && !r.closed && old(peer.asked) <= peer.asked && !a.RowsClosed?
    ensures a.Delivered? ==> old(Ahead(rows, r.Snap())) == [a.row] + Ahead(rows, r.Snap())
    ensures a.Delivered? ==> Left(rows, r.Snap()) + 1 == old(Left(rows, r.Snap()))
    ensures a.EndOfRows? ==> old(Left(rows, r.Snap())) == 0 && old(Ahead(rows, r.Snap())) == []
    ensures a.Failed? || a.TransportFailed? ==>
              && |peer.asked| == |old(peer.asked)| + 1
              && (Arrived(peer.answers(|old(peer.asked)|, peer.asked[|old(peer.asked)|])) ==>
                    old(|Ahead(rows, r.Snap())| < Left(rows, r.Snap())))
  {
    DrainStep(peer.answers, rows, |peer.asked|, r.handle, r.fetchSize, r.Snap());
    a := r.Advance(peer);
  }

  /** What one turn of the drain does. */
  lemma DrainStep(answers: Answers, rows: seq<WireRow>, k: nat, handle: int32, size: int32, c: State)
    requires Synced(rows, c) && !c.closed && MayServe(answers, rows, |c.cols|, c.version)
    ensures var reply := ReplyTo(answers, k, handle, size, c);
            var (d, a) := Next(c, reply);
            && Synced(rows, d) && !d.closed && !a.RowsClosed?
            && (a.Delivered? ==> Ahead(rows, c) == [a.row] + Ahead(rows, d) && Left(rows, d) + 1 == Left(rows, c))
            && (a.EndOfRows? ==> Left(rows, c) == 0 && Ahead(rows, c) == [])
            && (a.Failed? || a.TransportFailed? ==> NeedsFetch(c))
            && ((a.Failed? || a.TransportFailed?) && Arrived(reply) ==> |Ahead(rows, c)| < Left(rows, c))
  {
    var reply := ReplyTo(answers, k, handle, size, c);
    FetchRequestReads(handle, c.nextIndex, size);
    NextServed(rows, c, reply);
    NothingLeft(rows, Next(c, reply).0);
  }
}
