/**
 Request packing and response walking (cubrid/internal/protocol/binary.go, errors.go).
 The pure readers work on the unread suffix of a payload; `Reader` and `Writer` are the
 mutable objects of the program, specified by them.
 */
module Wire {
  import opened Bytes

  datatype Error =
    | ShortBuffer
    | TooDeep
    | BadCount(count: int)
    | UnsupportedType(typ: int)
    | BadLobHandle
    | Server(code: int32, message: bytes)

  datatype Option<+T> = None | Some(value: T)

  datatype Result<+T> = Ok(value: T) | Err(error: Error)

  /** Outcome of reading a value off the front of a payload suffix. */
  datatype Parsed<+T> = Fail(error: Error) | Got(value: T, rest: bytes)

  function Leaving<T>(r: Result<T>, rest: bytes): (p: Parsed<T>)
  {
    match r
    case Err(e) => Fail(e)
    case Ok(v) => Got(v, rest)
  }

  function ReadBytes(s: bytes, n: int): (p: Parsed<bytes>)
    ensures p.Got? <==> 0 <= n <= |s|
    ensures p.Got? ==> |p.value| == n && s == p.value + p.rest
    ensures p.Fail? ==> p.error == ShortBuffer
  {
    if n < 0 || n > |s| then Fail(ShortBuffer) else Got(s[..n], s[n..])
  }

  function ReadByte(s: bytes): (p: Parsed<byte>)
    ensures p.Got? ==> s == [p.value] + p.rest
  {
    if |s| < 1 then Fail(ShortBuffer) else Got(s[0], s[1..])
  }

  function ReadI16(s: bytes): (p: Parsed<int16>)
    ensures p.Got? ==> |p.rest| == |s| - 2
  {
    if |s| < 2 then Fail(ShortBuffer) else Got(Get16(s[..2]), s[2..])
  }

  function ReadI32(s: bytes): (p: Parsed<int32>)
    ensures p.Got? ==> |p.rest| == |s| - 4
  {
    if |s| < 4 then Fail(ShortBuffer) else Got(Get32(s[..4]), s[4..])
  }

  /** [int32 len][bytes] with at most one trailing NUL removed; a length <= 0 is the empty string. */
  function ReadString(s: bytes): (p: Parsed<bytes>)
  {
    match ReadI32(s)
    case Fail(e) => Fail(e)
    case Got(n, t) =>
      if n <= 0 then Got([], t)
      else
        match ReadBytes(t, n)
        case Fail(e) => Fail(e)
        case Got(b, u) => Got(if b[|b| - 1] == 0 then b[..|b| - 1] else b, u)
  }

  /** ReadStatus: a non-negative code is the result; a negative one carries the server's error. */
  function ReadStatus(s: bytes): (p: Parsed<int32>)
    ensures p.Got? ==> 0 <= p.value && |p.rest| == |s| - 4
  {
    match ReadI32(s)
    case Fail(e) => Fail(e)
    case Got(rc, t) =>
      if rc >= 0 then Got(rc, t)
      else if |t| >= 4 then
        var c := Get32(t[..4]);
        Fail(Server(if c < 0 then c else rc, TrimNul(t[4..])))
      else Fail(Server(rc, []))
  }

  /** One request argument: an int32 byte length, then the bytes. */
  function Arg(body: bytes): (s: bytes)
    ensures |s| == 4 + |body|
  {
    BE32(Low32(|body|)) + body
  }

  /** The peer's view of an argument: it reads the unsigned length, then that many bytes. */
  function ReadArg(s: bytes): (p: Parsed<bytes>)
    ensures p.Got? ==> |p.rest| < |s|
  {
    if |s| < 4 then Fail(ShortBuffer) else ReadBytes(s[4..], U32(s[..4]))
  }

  lemma ReadI32Put(v: int32, rest: bytes)
    ensures ReadI32(Put32(v) + rest) == Got(v, rest)
  {
    var s := Put32(v) + rest;
    assert s[..4] == Put32(v) && s[4..] == rest;
  }

  lemma ReadI16Put(v: int16, rest: bytes)
    ensures ReadI16(Put16(v) + rest) == Got(v, rest)
  {
    var s := Put16(v) + rest;
    assert s[..2] == Put16(v) && s[2..] == rest;
  }

  lemma ReadBytesPut(b: bytes, rest: bytes)
    ensures ReadBytes(b + rest, |b|) == Got(b, rest)
  {
    assert (b + rest)[..|b|] == b && (b + rest)[|b|..] == rest;
  }

  lemma ReadBytePut(b: byte, rest: bytes)
    ensures ReadByte([b] + rest) == Got(b, rest)
  {
  }

  /** A NUL-terminated, length-prefixed string reads back exactly, whatever it contains. */
  lemma ReadStringPut(b: bytes, rest: bytes)
    requires |b| + 1 < TWO_31
    ensures ReadString(Put32(|b| + 1) + (b + [0]) + rest) == Got(b, rest)
  {
    var body := b + [0];
    assert Put32(|b| + 1) + body + rest == Put32(|b| + 1) + (body + rest);
    ReadI32Put(|b| + 1, body + rest);
    ReadBytesPut(body, rest);
    assert body[..|body| - 1] == b;
  }

  /** Without a terminating NUL nothing is dropped. */
  lemma ReadUnterminated(b: bytes, rest: bytes)
    requires 1 <= |b| < TWO_31 && b[|b| - 1] != 0
    ensures ReadString(Put32(|b|) + (b + rest)) == Got(b, rest)
  {
    ReadI32Put(|b|, b + rest);
    ReadBytesPut(b, rest);
  }

  /**
   A server error: the second code when it is negative, otherwise the first, with the message up to its
   terminating NULs.
   */
  lemma StatusOfError(rc: int32, c: int32, msg: bytes)
    requires rc < 0 && (msg == [] || msg[|msg| - 1] != 0)
    ensures ReadStatus(Put32(rc) + (Put32(c) + (msg + [0]))) == Fail(Server(if c < 0 then c else rc, msg))
  {
    var t := Put32(c) + (msg + [0]);
    ReadI32Put(rc, t);
    assert t[..4] == Put32(c) && t[4..] == msg + [0];
    TrimNulTerminated(msg);
  }

  /** With fewer than four bytes after it, the first code is all there is. */
  lemma StatusOfBareError(rc: int32, t: bytes)
    requires rc < 0 && |t| < 4
    ensures ReadStatus(Put32(rc) + t) == Fail(Server(rc, []))
  {
    ReadI32Put(rc, t);
  }

  lemma ReadArgPut(body: bytes, rest: bytes)
    requires |body| < TWO_32
    ensures ReadArg(Arg(body) + rest) == Got(body, rest)
  {
    var n: int := |body|;
    assert Low32(n) == n;
    Assoc(BE32(n), body, rest);
    var s := BE32(n) + (body + rest);
    assert s[..4] == BE32(n) && s[4..] == body + rest;
    ReadBytesPut(body, rest);
  }

  lemma Assoc<T>(a: seq<T>, b: seq<T>, c: seq<T>)
    ensures (a + b) + c == a + (b + c)
  {
  }

  /** A method result agrees with a pure reader: same value and same unread suffix, or same error. */
  ghost predicate Agrees<T>(p: Parsed<T>, r: Result<T>, rest: bytes) {
    match p
    case Got(v, t) => r == Ok(v) && rest == t
    case Fail(e) => r == Err(e)
  }

  class Reader {
    const buf: bytes
    var off: nat

    ghost predicate Valid()
      reads this
    {
      off <= |buf|
    }

    function Rest(): (s: bytes)
      requires Valid()
      reads this
      ensures |s| == |buf| - off
    {
      buf[off..]
    }

    constructor (p: bytes)
      ensures Valid() && Rest() == p && buf == p
    {
      buf, off := p, 0;
    }

    method Take(n: int) returns (r: Result<bytes>)
      requires Valid()
      modifies this
      ensures Valid()
      ensures Agrees(ReadBytes(old(Rest()), n), r, Rest())
      ensures r.Err? ==> Rest() == old(Rest())
    {
      if n < 0 || off + n > |buf| {
        return Err(ShortBuffer);
      }
      var b := buf[off..off + n];
      off := off + n;
      assert b == old(Rest())[..n] && Rest() == old(Rest())[n..];
      return Ok(b);
    }

    method Byte() returns (r: Result<byte>)
      requires Valid()
      modifies this
      ensures Valid()
      ensures Agrees(ReadByte(old(Rest())), r, Rest())
      ensures r.Err? ==> Rest() == old(Rest())
    {
      var b := Take(1);
      match b
      case Err(e) => return Err(e);
      case Ok(v) => return Ok(v[0]);
    }

    method Int16() returns (r: Result<int16>)
      requires Valid()
      modifies this
      ensures Valid()
      ensures Agrees(ReadI16(old(Rest())), r, Rest())
      ensures r.Err? ==> Rest() == old(Rest())
    {
      var b := Take(2);
      match b
      case Err(e) => return Err(e);
      case Ok(v) => return Ok(Get16(v));
    }

    method Int32() returns (r: Result<int32>)
      requires Valid()
      modifies this
      ensures Valid()
      ensures Agrees(ReadI32(old(Rest())), r, Rest())
      ensures r.Err? ==> Rest() == old(Rest())
    {
      var b := Take(4);
      match b
      case Err(e) => return Err(e);
      case Ok(v) => return Ok(Get32(v));
    }

    method String() returns (r: Result<bytes>)
      requires Valid()
      modifies this
      ensures Valid()
      ensures Agrees(ReadString(old(Rest())), r, Rest())
    {
      var n := Int32();
      if n.Err? {
        return Err(n.error);
      }
      if n.value <= 0 {
        return Ok([]);
      }
      var b := Take(n.value);
      match b
      case Err(e) => return Err(e);
      case Ok(v) => return Ok(if v[|v| - 1] == 0 then v[..|v| - 1] else v);
    }

    method Status() returns (r: Result<int32>)
      requires Valid()
      modifies this
      ensures Valid()
      ensures Agrees(ReadStatus(old(Rest())), r, Rest())
    {
      var rc := Int32();
      if rc.Err? || rc.value >= 0 {
        return rc;
      }
      var code, msg := rc.value, [];
      ghost var t := Rest();
      if |buf| - off >= 4 {
        var c := Int32();
        if c.Ok? && c.value < 0 {
          code := c.value;
        }
        assert Rest() == t[4..];
        var rest := Take(|buf| - off);
        assert rest == Ok(t[4..]) by { assert t[4..][..|t[4..]|] == t[4..]; }
        if rest.Ok? {
          msg := TrimNul(rest.value);
        }
      }
      return Err(Server(code, msg));
    }
  }

  class Writer {
    var buf: bytes

    constructor ()
      ensures buf == []
    {
      buf := [];
    }

    method RawByte(b: byte)
      modifies this
      ensures buf == old(buf) + [b]
    {
      buf := buf + [b];
    }

    method Be32(v: uint32)
      modifies this
      ensures buf == old(buf) + BE32(v)
    {
      buf := buf + BE32(v);
    }

    method ArgBytes(p: bytes)
      modifies this
      ensures buf == old(buf) + Arg(p)
    {
      Be32(Low32(|p|));
      buf := buf + p;
    }

    method ArgInt(v: int32)
      modifies this
      ensures buf == old(buf) + Arg(Put32(v))
    {
      Be32(4);
      Be32(Unsigned32(v));
    }

    method ArgByte(b: byte)
      modifies this
      ensures buf == old(buf) + Arg([b])
    {
      Be32(1);
      buf := buf + [b];
    }

    method ArgShort(v: int16)
      modifies this
      ensures buf == old(buf) + Arg(Put16(v))
    {
      Be32(2);
      buf := buf + BE16(Unsigned16(v));
    }

    method ArgLong(v: int64)
      modifies this
      ensures buf == old(buf) + Arg(Put64(v))
    {
      Be32(8);
      buf := buf + BE64(Unsigned64(v));
    }

    method ArgString(s: bytes)
      modifies this
      ensures buf == old(buf) + Arg(s + [0])
    {
      Be32(Low32(|s| + 1));
      buf := buf + s;
      buf := buf + [0];
    }

    method ArgNull()
      modifies this
      ensures buf == old(buf) + Arg([])
    {
      Be32(0);
    }
  }

  /**
   The other end of a request/response link: any answer to any request, which may differ each time it
   is asked; None is a transport failure. `asked` is every request it has received.
   */
  class Peer<Q> {
    const answers: (nat, Q) -> Option<bytes>
    var asked: seq<Q>

    constructor (answers: (nat, Q) -> Option<bytes>)
      ensures this.answers == answers && asked == []
    {
      this.answers, asked := answers, [];
    }

    method RoundTrip(q: Q) returns (reply: Option<bytes>)
      modifies this
      ensures asked == old(asked) + [q] && reply == answers(|old(asked)|, q)
    {
      reply := answers(|asked|, q);
      asked := asked + [q];
    }
  }
}
