/** Chunked LOB transfer (ReadAt, Append, ReadAll in cubrid/lob.go). */
module LobIO {
  import opened Bytes
  import opened Wire
  import opened LobHandle

  // ---------- Reading ----------

  datatype ReadRequest = ReadRequest(at: int64, len: nat)

  type Answers = (nat, ReadRequest) -> Option<bytes>

  datatype ReadStop = Full | EndOfLob | NegativeOffset | ReadTransport | ReadServer(error: Error) | Overlong(rc: int)

  /** off + n in int64. */
  function Offset(off: int64, n: nat): (o: int64) { Signed64((off + n) % TWO_64) }

  function Min(a: int, b: int): (m: int) { if a < b then a else b }

  /** Bytes of the LOB at and after an offset, at most len of them. */
  function Slice(content: bytes, off: nat, len: nat): (s: bytes)
    ensures |s| <= len
  {
    if off >= |content| then [] else content[off..Min(off + len, |content|)]
  }

  /** m bytes at off, as the server frames them. */
  function ReadReply(content: bytes, off: nat, m: nat): (p: bytes)
    requires m < TWO_31
  {
    Put32(m) + Slice(content, off, m)
  }

  /** An honest answer may be short, but holds a byte while any remain at the offset, and none after that. */
  ghost predicate HonestAnswer(content: bytes, off: nat, len: nat, reply: Option<bytes>) {
    exists m: nat :: m < TWO_31 && m <= len && (if off >= |content| then m == 0 else 1 <= m <= |content| - off) &&
                     reply == Some(ReadReply(content, off, m))
  }

  ghost predicate HonestReads(srv: Answers, content: bytes) {
    forall k: nat, q: ReadRequest :: q.at >= 0 && 1 <= q.len <= LOB_MAX_CHUNK ==>
      HonestAnswer(content, q.at, q.len, srv(k, q))
  }

  /** One READ_LOB as ReadAt judges it: the bytes received, or why it stops. */
  datatype Piece = Got(b: bytes) | Stop(why: ReadStop)

  function ReadPiece(reply: Option<bytes>, chunk: nat): (r: Piece)
    ensures r.Got? ==> 1 <= |r.b| <= chunk
    ensures r.Stop? ==> r.why != Full
  {
    match reply
    case None => Stop(ReadTransport)
    case Some(p) =>
      match ReadStatus(p)
      case Fail(e) => Stop(ReadServer(e))
      case Got(rc, t) =>
        if rc > chunk then Stop(Overlong(rc))
        else if rc == 0 then Stop(EndOfLob)
        else
          match ReadBytes(t, rc)
          case Fail(e) => Stop(ReadServer(e))
          case Got(b, _) => Piece.Got(b)
  }

  /** The answers of a peer, judged; all that matters of them is that a piece fits its request. */
  type Pieces = f: (nat, ReadRequest) -> Piece | Sane(f) witness (k, q) => Stop(EndOfLob)

  ghost predicate Sane(f: (nat, ReadRequest) -> Piece) {
    forall k, q :: if f(k, q).Got? then 1 <= |f(k, q).b| <= q.len else f(k, q).why != Full
  }

  function Judged(srv: Answers): (ps: Pieces)
  {
    var f := (k: nat, q: ReadRequest) => ReadPiece(srv(k, q), q.len);
    assert forall k, q :: f(k, q) == ReadPiece(srv(k, q), q.len);
    f
  }

  /** What a read brings, why it ended, and every request it made. */
  datatype Read = Read(got: bytes, stop: ReadStop, asked: seq<ReadRequest>)

  function NextRequest(off: int64, len: nat, n: nat): (q: ReadRequest)
    requires n < len
    ensures 1 <= q.len <= LOB_MAX_CHUNK && n + q.len <= len
    ensures q.len == Min(len - n, 131072)
  {
    ReadRequest(Offset(off, n), Min(len - n, LOB_MAX_CHUNK))
  }

  /** The rest of a read of len bytes at off when n are in; k requests have gone out before. */
  function ReadFrom(ps: Pieces, k: nat, off: int64, len: nat, n: nat): (r: Read)
    requires n <= len
    decreases len - n
  {
    if n == len then Read([], Full, [])
    else
      var q := NextRequest(off, len, n);
      match ps(k, q)
      case Stop(why) => Read([], why, [q])
      case Got(b) => Extend(b, [q], ReadFrom(ps, k + 1, off, len, n + |b|))
  }

  function Extend(got: bytes, asked: seq<ReadRequest>, r: Read): (t: Read)
  {
    Read(got + r.got, r.stop, asked + r.asked)
  }

  /** The last request was answered by what the read ended with. */
  ghost predicate StoppedBy(ps: Pieces, asked: seq<ReadRequest>, stop: ReadStop) {
    asked != [] && ps(|asked| - 1, asked[|asked| - 1]) == Stop(stop)
  }

  /**
   Against any peer: one request per byte and one more at most, none of the requests wasted on a full
   read, short exactly when the last answer said so.
   */
  lemma {:induction false} ReadIsPrompt(ps: Pieces, before: seq<ReadRequest>, off: int64, len: nat, n: nat)
    requires n <= len
    ensures var r := ReadFrom(ps, |before|, off, len, n);
            && |r.got| <= len - n && |r.asked| <= |r.got| + (if r.stop == Full then 0 else 1)
            && (r.stop == Full <==> |r.got| == len - n)
            && (r.stop != Full ==> StoppedBy(ps, before + r.asked, r.stop))
    decreases len - n
  {
    if n < len {
      var q := NextRequest(off, len, n);
      var p := ps(|before|, q);
      if p.Got? {
        ReadIsPrompt(ps, before + [q], off, len, n + |p.b|);
        Assoc(before, [q], ReadFrom(ps, |before| + 1, off, len, n + |p.b|).asked);
      }
    }
  }

  /** Why a read stops: a lost answer, the server's error, or a count larger than was asked for. */
  lemma WhyItStops(rc: int32, c: int32, msg: bytes, data: bytes, chunk: nat)
    requires msg == [] || msg[|msg| - 1] != 0
    ensures ReadPiece(None, chunk) == Stop(ReadTransport)
    ensures rc < 0 ==> ReadPiece(Some(Put32(rc) + (Put32(c) + (msg + [0]))), chunk) ==
                       Stop(ReadServer(Server(if c < 0 then c else rc, msg)))
    ensures rc > chunk ==> ReadPiece(Some(Put32(rc) + data), chunk) == Stop(Overlong(rc))
  {
    if rc < 0 {
      StatusOfError(rc, c, msg);
    } else {
      ReadI32Put(rc, data);
    }
  }

  lemma PieceOfReply(content: bytes, off: nat, m: nat, chunk: nat)
    requires m <= chunk <= LOB_MAX_CHUNK && off + m <= |content|
    ensures ReadPiece(Some(ReadReply(content, off, m)), chunk) ==
            if m == 0 then Stop(EndOfLob) else Piece.Got(content[off..off + m])
  {
    var s := Slice(content, off, m);
    ReadI32Put(m, s);
    if m > 0 {
      assert s == content[off..off + m] && s + [] == s;
      ReadBytesPut(s, []);
    }
  }

  lemma HonestPiece(content: bytes, off: nat, chunk: nat, reply: Option<bytes>)
    requires HonestAnswer(content, off, chunk, reply) && 1 <= chunk <= LOB_MAX_CHUNK
    ensures IsPiece(content, off, ReadPiece(reply, chunk))
  {
    var m: nat :| m < TWO_31 && m <= chunk && (if off >= |content| then m == 0 else 1 <= m <= |content| - off) &&
                  reply == Some(ReadReply(content, off, m));
    SomeOfReply(content, off, m, chunk);
  }

  lemma SomeOfReply(content: bytes, off: nat, m: nat, chunk: nat)
    requires m <= chunk <= LOB_MAX_CHUNK && (if off >= |content| then m == 0 else 1 <= m <= |content| - off)
    ensures IsPiece(content, off, ReadPiece(Some(ReadReply(content, off, m)), chunk))
  {
    if off >= |content| {
      EndOfReply(content, off, chunk);
    } else {
      PieceOfReply(content, off, m, chunk);
    }
  }

  lemma EndOfReply(content: bytes, off: nat, chunk: nat)
    requires off >= |content|
    ensures ReadPiece(Some(ReadReply(content, off, 0)), chunk) == Stop(EndOfLob)
  {
    ReadI32Put(0, []);
    assert ReadReply(content, off, 0) == Put32(0) + [];
  }

  /** Each judged answer is the LOB's own bytes at the request's offset, or the end exactly past its end. */
  ghost predicate HonestPieces(ps: Pieces, content: bytes) {
    forall k: nat, q: ReadRequest :: q.at >= 0 && 1 <= q.len <= LOB_MAX_CHUNK ==>
      IsPiece(content, q.at, ps(k, q))
  }

  ghost predicate IsPiece(content: bytes, at: nat, p: Piece) {
    if at >= |content| then p == Stop(EndOfLob)
    else p.Got? && at + |p.b| <= |content| && p.b == content[at..at + |p.b|]
  }

  lemma HonestReadsGivePieces(srv: Answers, content: bytes)
    requires HonestReads(srv, content)
    ensures HonestPieces(Judged(srv), content)
  {
    forall k: nat, q: ReadRequest | q.at >= 0 && 1 <= q.len <= LOB_MAX_CHUNK
      ensures IsPiece(content, q.at, Judged(srv)(k, q))
    {
      assert HonestAnswer(content, q.at, q.len, srv(k, q));
      HonestPiece(content, q.at, q.len, srv(k, q));
    }
  }

  lemma OffsetInRange(off: int64, n: nat)
    requires 0 <= off && off + n < TWO_63
    ensures Offset(off, n) == off + n
  {
  }

  /** What a read of len bytes at `at` should bring: what exists there, and the end exactly when that is short. */
  function Expected(content: bytes, at: nat, len: nat): (r: (bytes, ReadStop))
  {
    var s := Slice(content, at, len);
    (s, if |s| == len then Full else EndOfLob)
  }

  function Brought(r: Read): (b: (bytes, ReadStop)) { (r.got, r.stop) }

  lemma ExpectedExtends(content: bytes, at: nat, len: nat, b: bytes, asked: seq<ReadRequest>, r: Read,
                        to: nat, left: nat)
    requires IsPiece(content, at, Piece.Got(b)) && to == at + |b| && len == left + |b|
    requires Brought(r) == Expected(content, to, left)
    ensures Brought(Extend(b, asked, r)) == Expected(content, at, len)
  {
    assert b + Slice(content, to, left) == Slice(content, at, len);
  }

  /** Against an honest peer: exactly the bytes of the LOB that exist there, short exactly at its end. */
  lemma {:induction false} ReadIsRight(ps: Pieces, content: bytes, k: nat, off: int64, len: nat, n: nat)
    requires HonestPieces(ps, content) && n <= len && 0 <= off && off + len < TWO_63
    ensures Brought(ReadFrom(ps, k, off, len, n)) == Expected(content, off + n, len - n)
    decreases len - n
  {
    if n < len {
      var q := NextRequest(off, len, n);
      var p := ps(k, q);
      HonestNext(ps, content, k, off, len, n);
      var r := ReadFrom(ps, k, off, len, n);
      if p.Got? {
        var to, left := n + |p.b|, len - (n + |p.b|);
        var more := ReadFrom(ps, k + 1, off, len, to);
        assert r == Extend(p.b, [q], more);
        ReadIsRight(ps, content, k + 1, off, len, to);
        ExpectedExtends(content, off + n, len - n, p.b, [q], more, off + to, left);
      } else {
        assert r == Read([], p.why, [q]);
      }
    }
  }

  lemma HonestNext(ps: Pieces, content: bytes, k: nat, off: int64, len: nat, n: nat)
    requires HonestPieces(ps, content) && n < len && 0 <= off && off + len < TWO_63
    ensures IsPiece(content, off + n, ps(k, NextRequest(off, len, n)))
  {
    OffsetInRange(off, n);
  }

  method Receive(reply: Option<bytes>, chunk: nat) returns (r: Piece)
    ensures r == ReadPiece(reply, chunk)
  {
    if reply.None? {
      return Stop(ReadTransport);
    }
    var rd := new Reader(reply.value);
    var rc := rd.Status();
    if rc.Err? {
      return Stop(ReadServer(rc.error));
    }
    if rc.value > chunk {
      return Stop(Overlong(rc.value));
    }
    if rc.value == 0 {
      return Stop(EndOfLob);
    }
    var b := rd.Take(rc.value);
    match b
    case Err(e) => return Stop(ReadServer(e));
    case Ok(v) => return Piece.Got(v);
  }

  /** One READ_LOB round trip. */
  method Ask(peer: Peer<ReadRequest>, q: ReadRequest) returns (r: Piece)
    modifies peer
    ensures peer.asked == old(peer.asked) + [q] && r == Judged(peer.answers)(|old(peer.asked)|, q)
  {
    var reply := peer.RoundTrip(q);
    r := Receive(reply, q.len);
  }

  /** copy(p[n:], b). */
  method CopyInto(p: array<byte>, n: nat, b: bytes)
    requires n + |b| <= p.Length
    modifies p
    ensures p[..n + |b|] == old(p[..n]) + b && p[n + |b|..] == old(p[n..])[|b|..]
  {
    var i := 0;
    while i < |b|
      invariant 0 <= i <= |b|
      invariant forall k :: 0 <= k < p.Length ==> p[k] == if n <= k < n + i then b[k - n] else old(p[k])
    {
      p[n + i] := b[i];
      i := i + 1;
    }
  }

  /** A read of which `got` is in, by the requests `asked`. */
  ghost predicate Reading(ps: Pieces, k: nat, off: int64, len: nat, got: bytes, asked: seq<ReadRequest>) {
    |got| <= len &&
    ReadFrom(ps, k, off, len, 0) == Extend(got, asked, ReadFrom(ps, k + |asked|, off, len, |got|))
  }

  lemma ReadingStarts(ps: Pieces, k: nat, off: int64, len: nat)
    ensures Reading(ps, k, off, len, [], [])
  {
    var r := ReadFrom(ps, k, off, len, 0);
    assert [] + r.got == r.got && [] + r.asked == r.asked;
  }

  lemma ReadingStep(ps: Pieces, k: nat, off: int64, len: nat, got: bytes, asked: seq<ReadRequest>, p: Piece)
    requires |got| < len && Reading(ps, k, off, len, got, asked)
    requires p == ps(k + |asked|, NextRequest(off, len, |got|))
    ensures var q := NextRequest(off, len, |got|);
            && (p.Stop? ==> ReadFrom(ps, k, off, len, 0) == Read(got, p.why, asked + [q]))
            && (p.Got? ==> Reading(ps, k, off, len, got + p.b, asked + [q]))
  {
    var q := NextRequest(off, len, |got|);
    assert got + [] == got;
    if p.Got? {
      var r := ReadFrom(ps, k + |asked| + 1, off, len, |got| + |p.b|);
      assert ReadFrom(ps, k + |asked|, off, len, |got|) == Extend(p.b, [q], r);
      Assoc(got, p.b, r.got);
      Assoc(asked, [q], r.asked);
    }
  }

  lemma ReadingEnds(ps: Pieces, k: nat, off: int64, len: nat, got: bytes, asked: seq<ReadRequest>)
    requires |got| == len && Reading(ps, k, off, len, got, asked)
    ensures ReadFrom(ps, k, off, len, 0) == Read(got, Full, asked)
  {
    assert got + [] == got && asked + [] == asked;
  }

  lemma DropDrop(s: bytes, n: nat, m: nat)
    requires n + m <= |s|
    ensures s[n..][m..] == s[n + m..]
  {
  }

  /** One turn of ReadAt: what arrives goes into p after the first n bytes. */
  method ReadChunk(p: array<byte>, n: nat, q: ReadRequest, peer: Peer<ReadRequest>) returns (r: Piece)
    requires n + q.len <= p.Length
    modifies p, peer
    ensures peer.asked == old(peer.asked) + [q] && r == Judged(peer.answers)(|old(peer.asked)|, q)
    ensures r.Got? ==> n + |r.b| <= p.Length && p[..n + |r.b|] == old(p[..n]) + r.b
    ensures r.Got? ==> p[n + |r.b|..] == old(p[n..])[|r.b|..]
    ensures r.Stop? ==> p[..n] == old(p[..n]) && p[n..] == old(p[n..])
  {
    r := Ask(peer, q);
    if r.Got? {
      CopyInto(p, n, r.b);
    }
  }

  /** ReadAt: the requests and the bytes of ReadFrom, in the front of p; the rest of p is untouched. */
  method ReadAt(p: array<byte>, off: int64, peer: Peer<ReadRequest>) returns (n: nat, stop: ReadStop)
    modifies p, peer
    ensures n <= p.Length && p[n..] == old(p[n..])
    ensures off < 0 ==> n == 0 && stop == NegativeOffset && peer.asked == old(peer.asked)
    ensures off >= 0 ==>
              var r := ReadFrom(Judged(peer.answers), |old(peer.asked)|, off, p.Length, 0);
              p[..n] == r.got && stop == r.stop && peer.asked == old(peer.asked) + r.asked
  {
    n := 0;
    if off < 0 {
      return 0, NegativeOffset;
    }
    ghost var k, before, was, ps := |peer.asked|, peer.asked, p[..], Judged(peer.answers);
    ghost var got: bytes, asked: seq<ReadRequest> := p[..0], [];
    ReadingStarts(ps, k, off, p.Length);
    assert before + asked == before;
    while n < p.Length
      invariant n == |got| <= p.Length && p[n..] == was[n..] && p[..n] == got
      invariant peer.asked == before + asked
      invariant Reading(ps, k, off, p.Length, got, asked)
    {
      var q := NextRequest(off, p.Length, n);
      assert |peer.asked| == k + |asked|;
      var r := ReadChunk(p, n, q, peer);
      ReadingStep(ps, k, off, p.Length, got, asked, r);
      Assoc(before, asked, [q]);
      asked := asked + [q];
      if r.Stop? {
        return n, r.why;
      }
      DropDrop(was, n, |r.b|);
      n, got := n + |r.b|, got + r.b;
    }
    ReadingEnds(ps, k, off, p.Length, got, asked);
    stop := Full;
  }

  /**
   ReadAll: from offset 0, a buffer at a time, up to the locator's size. Against any peer it ends after
   at most one request per byte and one more, and is short only if an answer said so; against an
   honest one it returns the LOB up to that size.
   */
  method ReadAll(size: int64, peer: Peer<ReadRequest>, ghost content: bytes) returns (out: bytes, stop: ReadStop)
    modifies peer
    ensures |out| <= if size < 0 then 0 else size
    ensures |old(peer.asked)| <= |peer.asked| <= |old(peer.asked)| + (if size < 0 then 0 else size) + 1
    ensures stop == Full && |out| < size ==> StoppedBy(Judged(peer.answers), peer.asked, EndOfLob)
    ensures stop != Full ==> StoppedBy(Judged(peer.answers), peer.asked, stop)
    ensures HonestReads(peer.answers, content) && size >= 0 ==>
              stop == Full && out == content[..Min(size, |content|)]
  {
    out, stop := [], Full;
    ghost var honest, k := HonestReads(peer.answers, content) && size >= 0, |peer.asked|;
    var off: int64 := 0;
    while off < size
      invariant 0 <= off == |out| && (size >= 0 ==> off <= size) && (size < 0 ==> off == 0)
      invariant k <= |peer.asked| <= k + off
      invariant honest ==> off <= |content| && out == content[..off]
    {
      var chunk := Min(size - off, LOB_MAX_CHUNK);
      var buf := new byte[chunk];
      ghost var asked := peer.asked;
      var n, why := ReadAt(buf, off, peer);
      ReadIsPrompt(Judged(peer.answers), asked, off, chunk, 0);
      if honest {
        HonestReadsGivePieces(peer.answers, content);
        ReadIsRight(Judged(peer.answers), content, |asked|, off, chunk, 0);
        PrefixAndSlice(content, off, chunk);
      }
      out := out + buf[..n];
      off := off + n;
      if why == EndOfLob {
        break;
      }
      if why != Full {
        return [], why;
      }
    }
  }

  lemma PrefixAndSlice(content: bytes, off: nat, len: nat)
    requires off <= |content|
    ensures content[..off] + Slice(content, off, len) == content[..Min(off + len, |content|)]
  {
  }

  // ---------- Writing ----------

  datatype AppendStop = ReadOnly | WriteTransport | WriteServer(error: Error) | WrongCount(rc: int)

  /** A WRITE_LOB and its answer. */
  datatype Exchange = Exchange(at: int64, data: bytes, reply: Option<bytes>)

  /** The bytes an answer acknowledges; 0 when it was lost, is an error or counts wrongly. */
  function AckOf(reply: Option<bytes>, len: nat): (a: nat)
    ensures a <= len
  {
    if reply.None? then 0
    else
      match ReadStatus(reply.value)
      case Fail(_) => 0
      case Got(rc, _) => if 1 <= rc <= len then rc else 0
  }

  function Ack(e: Exchange): (a: nat)
    ensures a <= |e.data|
  {
    AckOf(e.reply, |e.data|)
  }

  /**
   An append-only server holding one LOB. Its contract is the caller's obligation on every request:
   the offset is the LOB's current length and the packed handle carries it. It may write any
   non-empty prefix of a chunk, refuse, or lose the answer, after which the link is down for good.
   */
  class Store {
    var content: bytes
    var up: bool
    var log: seq<Exchange>

    constructor (content: bytes)
      ensures this.content == content && up && log == []
    {
      this.content, up, log := content, true, [];
    }

    method Write(packed: bytes, offset: int64, data: bytes) returns (reply: Option<bytes>)
      requires 1 <= |data| <= LOB_MAX_CHUNK
      requires WellPacked(packed) && Get64(packed[4..12]) == offset
      requires up ==> offset == |content|
      modifies this
      ensures log == old(log) + [Exchange(offset, data, reply)]
      ensures reply.None? ==> !up
      ensures up ==> old(up) && content == old(content) + data[..Ack(log[|log| - 1])]
    {
      var a: nat :| a <= |data|;
      reply := None;
      if up {
        content := content + data[..a];
        reply := if a == 0 then Some(Put32(-1)) else Some(Put32(a));
        if * {
          up, reply := false, None;
        }
      }
      var rc: int32 := if a == 0 then -1 else a;
      ReadI32Put(rc, []);
      assert Put32(rc) + [] == Put32(rc);
      log := log + [Exchange(offset, data, reply)];
    }
  }

  method JudgeWrite(reply: Option<bytes>, len: nat) returns (a: nat, stop: Option<AppendStop>)
    ensures a == AckOf(reply, len) && (stop.None? <==> a > 0)
    ensures stop == Some(WriteTransport) <==> reply.None?
  {
    if reply.None? {
      return 0, Some(WriteTransport);
    }
    var rd := new Reader(reply.value);
    var rc := rd.Status();
    if rc.Err? {
      return 0, Some(WriteServer(rc.error));
    }
    if rc.value <= 0 || rc.value > len {
      return 0, Some(WrongCount(rc.value));
    }
    return rc.value, None;
  }

  class Lob {
    const handle: Handle
    const isClob: bool
    const writable: bool

    constructor (handle: Handle, isClob: bool, writable: bool)
      ensures this.handle == handle && this.isClob == isClob && this.writable == writable
    {
      this.handle, this.isClob, this.writable := handle, isClob, writable;
    }

    /** The locator agrees with its own packed bytes and, while the link is up, with the server. */
    ghost predicate InSync(st: Store)
      reads handle, handle.raw, st
    {
      handle.Valid() && handle.size >= 0 && (st.up ==> handle.size == |st.content|)
    }

    /** One WRITE_LOB round trip of Append, at the locator's size; it stops the loop when nothing was acknowledged. */
    method AppendChunk(data: bytes, st: Store) returns (a: nat, stop: Option<AppendStop>, ghost e: Exchange)
      requires InSync(st) && 1 <= |data| <= LOB_MAX_CHUNK && handle.size + |data| < TWO_63
      modifies handle`size, handle.raw, st
      ensures InSync(st) && handle.size == old(handle.size) + a
      ensures handle.raw[12..] == old(handle.raw[12..])
      ensures st.log == old(st.log) + [e] && e.at == old(handle.size) && e.data == data && a == Ack(e)
      ensures st.up ==> old(st.up) && st.content == old(st.content) + data[..a]
      ensures stop.None? <==> a > 0
      ensures stop == Some(WriteTransport) ==> !st.up
    {
      var reply := st.Write(handle.raw[..], handle.size, data);
      e := Exchange(handle.size, data, reply);
      a, stop := JudgeWrite(reply, |data|);
      assert data[..0] == [];
      if stop.None? {
        handle.SetSize(handle.size + a);
      }
    }

    /** The next chunk of p, of which n bytes are acknowledged. */
    method AppendSlice(p: bytes, n: nat, ghost size: int, st: Store)
      returns (a: nat, stop: Option<AppendStop>, ghost e: Exchange)
      requires InSync(st) && n < |p| && handle.size == size + n && size + |p| < TWO_63
      modifies handle`size, handle.raw, st
      ensures InSync(st) && handle.size == size + n + a && n + a <= |p|
      ensures handle.raw[12..] == old(handle.raw[12..])
      ensures st.log == old(st.log) + [e] && a == Ack(e) && IsChunk(p, size, n, e)
      ensures st.up ==> old(st.up) && st.content == old(st.content) + p[n..n + a]
      ensures stop.None? <==> a > 0
      ensures stop == Some(WriteTransport) ==> !st.up
    {
      var len := Min(|p| - n, LOB_MAX_CHUNK);
      a, stop, e := AppendChunk(p[n..n + len], st);
      SliceOfChunk(p, n, len, a);
    }

    /**
     One turn of Append, after the exchanges es acknowledged n bytes of p: the next chunk at the
     locator's size. `content` and `log` are what the server held and had seen before the append.
     */
    method AppendNext(p: bytes, n: nat, st: Store, ghost size: int, ghost es: seq<Exchange>,
                      ghost content: bytes, ghost log: seq<Exchange>)
      returns (m: nat, stop: Option<AppendStop>, ghost more: seq<Exchange>)
      requires InSync(st) && n < |p| && handle.size == size + n && size + |p| < TWO_63
      requires st.log == log + es && Follow(p, size, es) == Progress(n, true)
      requires st.up ==> st.content == content + p[..n]
      modifies handle`size, handle.raw, st
      ensures InSync(st) && n <= m <= |p| && handle.size == size + m && (stop.None? ==> n < m)
      ensures handle.raw[12..] == old(handle.raw[12..])
      ensures st.log == log + more && Follow(p, size, more) == Progress(m, stop.None?)
      ensures st.up ==> old(st.up) && st.content == content + p[..m]
      ensures stop == Some(WriteTransport) ==> !st.up
    {
      var a;
      ghost var e;
      a, stop, e := AppendSlice(p, n, size, st);
      PrefixGrows(content, p, n, a);
      Assoc(log, es, [e]);
      FollowSnoc(p, size, es, n, e);
      m, more := n + a, es + [e];
    }

    /**
     Append: the requests follow each other through p at the server's length, every one but the last was
     acknowledged, and the loop stops short of p only when the last was not. The acknowledged bytes are
     a prefix of p, counted in Size, in the packed handle and on the server.
     */
    method Append(p: bytes, st: Store) returns (n: nat, stop: Option<AppendStop>, ghost es: seq<Exchange>)
      requires InSync(st) && handle.size + |p| < TWO_63
      modifies handle`size, handle.raw, st
      ensures InSync(st) && n <= |p| && handle.size == old(handle.size) + n
      ensures handle.raw[12..] == old(handle.raw[12..])
      ensures st.log == old(st.log) + es && Follow(p, old(handle.size), es) == Progress(n, stop.None? || !writable)
      ensures st.up ==> old(st.up) && st.content == old(st.content) + p[..n]
      ensures stop.None? <==> writable && n == |p|
      ensures !writable ==> stop == Some(ReadOnly) && es == []
      ensures writable && stop.Some? ==> es != [] && Ack(es[|es| - 1]) == 0
      ensures stop == Some(WriteTransport) ==> !st.up
    {
      n, stop, es := 0, None, [];
      assert st.log + [] == st.log;
      if !writable {
        return 0, Some(ReadOnly), [];
      }
      ghost var packed, content, size, up := handle.raw[12..], st.content, handle.size, st.up;
      ghost var log := st.log;
      while n < |p| && stop.None?
        invariant n <= |p| && InSync(st) && handle.size == size + n
        invariant handle.raw[12..] == packed && st.log == log + es
        invariant Follow(p, size, es) == Progress(n, stop.None?)
        invariant st.up ==> up && st.content == content + p[..n]
        invariant stop == Some(WriteTransport) ==> !st.up
        decreases |p| - n, stop.None?
      {
        n, stop, es := AppendNext(p, n, st, size, es, content, log);
      }
      FollowMeans(p, size, es);
    }
  }

  /** Every exchange acknowledged something. */
  ghost predicate AllAcked(es: seq<Exchange>) {
    es == [] || (AllAcked(es[..|es| - 1]) && Ack(es[|es| - 1]) > 0)
  }

  ghost predicate IsChunk(p: bytes, size: int, n: nat, e: Exchange) {
    n < |p| && e.at == size + n && e.data == p[n..n + Min(|p| - n, 131072)]
  }

  /** How far a sequence of exchanges has brought an append, and whether it goes on. */
  datatype Progress = Broken | Progress(n: nat, goes: bool)

  /**
   The exchanges of an append of p to a LOB of `size` bytes, followed one by one: each sends the next
   chunk at the offset where the last one ended, and only after that one was acknowledged.
   */
  ghost function Follow(p: bytes, size: int, es: seq<Exchange>): (r: Progress)
  {
    if es == [] then Progress(0, true)
    else
      var q, e := Follow(p, size, es[..|es| - 1]), es[|es| - 1];
      if q.Progress? && q.goes && IsChunk(p, size, q.n, e) then Progress(q.n + Ack(e), Ack(e) > 0) else Broken
  }

  lemma FollowSnoc(p: bytes, size: int, es: seq<Exchange>, n: nat, e: Exchange)
    requires Follow(p, size, es) == Progress(n, true) && IsChunk(p, size, n, e)
    ensures Follow(p, size, es + [e]) == Progress(n + Ack(e), Ack(e) > 0)
  {
    assert (es + [e])[..|es|] == es;
  }

  lemma {:induction false} FollowMeans(p: bytes, size: int, es: seq<Exchange>)
    requires Follow(p, size, es).Progress?
    ensures Follow(p, size, es).goes <==> AllAcked(es)
    ensures !Follow(p, size, es).goes ==> es != [] && Ack(es[|es| - 1]) == 0 && Follow(p, size, es).n < |p|
  {
    if es != [] {
      FollowMeans(p, size, es[..|es| - 1]);
    }
  }

  lemma PrefixGrows(content: bytes, p: bytes, n: nat, a: nat)
    requires n + a <= |p|
    ensures (content + p[..n]) + p[n..n + a] == content + p[..n + a]
  {
  }

  lemma SliceOfChunk(p: bytes, n: nat, len: nat, a: nat)
    requires a <= len && n + len <= |p|
    ensures p[n..n + len][..a] == p[n..n + a]
  {
  }

  // ---------- Both together ----------

  function Concat(ps: seq<bytes>): (b: bytes)
  {
    if ps == [] then [] else Concat(ps[..|ps| - 1]) + ps[|ps| - 1]
  }

  /** The acknowledged part of every append. */
  ghost predicate Prefixes(ps: seq<bytes>, qs: seq<bytes>) {
    |qs| == |ps| && forall i :: 0 <= i < |ps| ==> qs[i] <= ps[i]
  }

  /** One append after another, whatever the server refuses or shortens. */
  method AppendAll(l: Lob, st: Store, ps: seq<bytes>) returns (acked: seq<bytes>, ghost es: seq<Exchange>)
    requires l.InSync(st) && l.handle.size + |Concat(ps)| < TWO_63
    modifies l.handle`size, l.handle.raw, st
    ensures l.InSync(st) && Prefixes(ps, acked) && l.handle.size == old(l.handle.size) + |Concat(acked)|
    ensures st.up ==> old(st.up) && st.content == old(st.content) + Concat(acked)
    ensures st.log == old(st.log) + es
    ensures l.writable && AllAcked(es) ==> acked == ps
  {
    acked, es := [], [];
    assert st.log + [] == st.log && ps[..0] == [];
    ghost var content, size, up, log := st.content, l.handle.size, st.up, st.log;
    var i := 0;
    while i < |ps|
      invariant 0 <= i <= |ps| && l.InSync(st) && Prefixes(ps[..i], acked)
      invariant l.handle.size == size + |Concat(acked)| && st.log == log + es
      invariant st.up ==> up && st.content == content + Concat(acked)
      invariant l.writable && AllAcked(es) ==> acked == ps[..i]
    {
      PrefixesFit(ps, i, acked);
      var n, why;
      ghost var more;
      n, why, more := l.Append(ps[i], st);
      ConcatSnoc(acked, ps[i][..n]);
      Assoc(content, Concat(acked), ps[i][..n]);
      Assoc(log, es, more);
      if AllAcked(es + more) {
        AckedSplits(es, more);
      }
      PrefixesSnoc(ps, i, acked, ps[i][..n]);
      acked, es, i := acked + [ps[i][..n]], es + more, i + 1;
    }
    assert ps[..|ps|] == ps;
  }

  /**
   Any sequence of appends followed by a full read: while the link is up the LOB has grown by exactly the
   acknowledged prefixes and that is what is read, however both directions are chunked. If no answer was
   lost or refused, everything was appended.
   */
  method AppendAllThenRead(l: Lob, st: Store, ps: seq<bytes>, peer: Peer<ReadRequest>)
    returns (acked: seq<bytes>, out: bytes, stop: ReadStop, ghost es: seq<Exchange>)
    requires l.InSync(st) && l.handle.size + |Concat(ps)| < TWO_63
    modifies l.handle`size, l.handle.raw, st, peer
    ensures l.InSync(st) && Prefixes(ps, acked) && l.handle.size == old(l.handle.size) + |Concat(acked)|
    ensures st.up ==> old(st.up) && st.content == old(st.content) + Concat(acked)
    ensures st.log == old(st.log) + es
    ensures l.writable && AllAcked(es) ==> acked == ps
    ensures st.up && HonestReads(peer.answers, st.content) ==> stop == Full && out == st.content
  {
    acked, es := AppendAll(l, st, ps);
    out, stop := ReadAll(l.handle.size, peer, st.content);
    assert st.content[..|st.content|] == st.content;
  }

  lemma {:induction false} AckedSplits(es: seq<Exchange>, more: seq<Exchange>)
    requires AllAcked(es + more)
    ensures AllAcked(es) && (more != [] ==> Ack(more[|more| - 1]) > 0)
  {
    if more == [] {
      assert es + more == es;
    } else {
      assert (es + more)[..|es + more| - 1] == es + more[..|more| - 1];
      AckedSplits(es, more[..|more| - 1]);
    }
  }

  lemma PrefixesSnoc(ps: seq<bytes>, i: nat, qs: seq<bytes>, q: bytes)
    requires i < |ps| && Prefixes(ps[..i], qs) && q <= ps[i]
    ensures Prefixes(ps[..i + 1], qs + [q])
    ensures qs == ps[..i] && |q| == |ps[i]| ==> qs + [q] == ps[..i + 1]
  {
    assert ps[..i + 1] == ps[..i] + [ps[i]];
    assert |q| == |ps[i]| ==> q == ps[i];
  }

  lemma ConcatSnoc(ps: seq<bytes>, p: bytes)
    ensures Concat(ps + [p]) == Concat(ps) + p
  {
    assert (ps + [p])[..|ps|] == ps;
  }

  /** What is acknowledged and what comes next fit in what was announced. */
  lemma {:induction false} PrefixesFit(ps: seq<bytes>, i: nat, qs: seq<bytes>)
    requires i < |ps| && Prefixes(ps[..i], qs)
    ensures |Concat(qs)| + |ps[i]| <= |Concat(ps)|
    decreases |ps|
  {
    if i == |ps| - 1 {
      ConcatShrinks(ps[..i], qs);
    } else {
      assert ps[..|ps| - 1][..i] == ps[..i];
      PrefixesFit(ps[..|ps| - 1], i, qs);
    }
  }

  lemma {:induction false} ConcatShrinks(ps: seq<bytes>, qs: seq<bytes>)
    requires Prefixes(ps, qs)
    ensures |Concat(qs)| <= |Concat(ps)|
    decreases |ps|
  {
    if ps != [] {
      ConcatShrinks(ps[..|ps| - 1], qs[..|qs| - 1]);
    }
  }
}
