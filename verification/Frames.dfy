/** Request and response framing (cubrid/internal/protocol/frame.go). */
module Frames {
  import opened Bytes
  import opened Wire

  const HEADER := 8
  const MAX_PAYLOAD: nat := 0x1000_0000

  datatype Frame = Frame(payload: bytes, casInfo: bytes)

  predicate WellFormed(f: Frame) { |f.casInfo| == 4 && |f.payload| <= MAX_PAYLOAD }

  /** WriteRequest: length, casInfo, payload. */
  function FrameBytes(f: Frame): (b: bytes)
  {
    BE32(Low32(|f.payload|)) + f.casInfo + f.payload
  }

  /** ReadResponse on the bytes that are available. */
  function ReadFrame(s: bytes): (p: Parsed<Frame>)
    ensures p.Got? ==> |p.rest| < |s| && WellFormed(p.value)
  {
    if |s| < HEADER then Fail(ShortBuffer)
    else
      var n := U32(s[..4]);
      if n > MAX_PAYLOAD then Fail(BadCount(n))
      else if |s| < HEADER + n then Fail(ShortBuffer)
      else Got(Frame(s[HEADER..HEADER + n], s[4..HEADER]), s[HEADER + n..])
  }

  /** How far the reader gets: io.ReadFull takes what there is before it reports an error. */
  function Consumed(s: bytes): (n: nat)
    ensures n <= |s|
    ensures ReadFrame(s).Got? ==> s[n..] == ReadFrame(s).rest
  {
    if |s| < HEADER then |s|
    else
      var n := U32(s[..4]);
      if n > MAX_PAYLOAD then HEADER else if |s| < HEADER + n then |s| else HEADER + n
  }

  /** Every complete frame at the front of a stream. */
  function Split(s: bytes): (fs: seq<Frame>)
    decreases |s|
  {
    match ReadFrame(s)
    case Fail(_) => []
    case Got(f, t) => [f] + Split(t)
  }

  function Join(fs: seq<Frame>): (b: bytes)
  {
    if fs == [] then [] else FrameBytes(fs[0]) + Join(fs[1..])
  }

  lemma FrameRoundTrip(f: Frame, rest: bytes)
    requires WellFormed(f)
    ensures ReadFrame(FrameBytes(f) + rest) == Got(f, rest)
  {
    var n: int := |f.payload|;
    assert Low32(n) == n;
    PartsOf(BE32(n), f.casInfo, f.payload, rest);
  }

  lemma PartsOf(len: bytes, casInfo: bytes, payload: bytes, rest: bytes)
    requires |len| == 4 && |casInfo| == 4
    ensures var s := len + casInfo + payload + rest;
            && s[..4] == len && s[4..8] == casInfo
            && s[8..8 + |payload|] == payload && s[8 + |payload|..] == rest
  {
  }

  /** Reading loses nothing: the bytes taken are exactly the frame's. */
  lemma FrameIsItsBytes(s: bytes)
    requires ReadFrame(s).Got?
    ensures s == FrameBytes(ReadFrame(s).value) + ReadFrame(s).rest
  {
    var n: int := U32(s[..4]);
    assert |ReadFrame(s).value.payload| == n && Low32(n) == n;
    U32Injective(s[..4], BE32(n));
    FourParts(s, n);
  }

  lemma FourParts(s: bytes, n: nat)
    requires HEADER + n <= |s|
    ensures s == s[..4] + s[4..HEADER] + s[HEADER..HEADER + n] + s[HEADER + n..]
  {
  }

  /** A stream of frames splits back into exactly those frames. */
  lemma {:induction false} StreamRoundTrip(fs: seq<Frame>, rest: bytes)
    requires forall i :: 0 <= i < |fs| ==> WellFormed(fs[i])
    ensures Split(Join(fs) + rest) == fs + Split(rest)
  {
    if fs == [] {
      assert Join(fs) + rest == rest;
    } else {
      Assoc(FrameBytes(fs[0]), Join(fs[1..]), rest);
      FrameRoundTrip(fs[0], Join(fs[1..]) + rest);
      StreamRoundTrip(fs[1..], rest);
      Assoc([fs[0]], fs[1..], Split(rest));
      assert fs == [fs[0]] + fs[1..];
    }
  }

  /** On the wire: four bytes of payload length, four of casInfo, the payload. */
  lemma FrameLayout(f: Frame)
    requires WellFormed(f)
    ensures var b := FrameBytes(f);
            && |b| == 8 + |f.payload| && U32(b[..4]) == |f.payload| && b[4..8] == f.casInfo && b[8..] == f.payload
  {
    var n: int := |f.payload|;
    assert Low32(n) == n;
    assert FrameBytes(f)[..4] == BE32(n);
  }

  /** A frame that announces more than 256 MiB is refused before its payload is read; anything up to that is taken. */
  lemma FrameLimit(s: bytes)
    requires |s| >= 8 && U32(s[..4]) as int + 8 <= |s|
    ensures ReadFrame(s).Got? <==> U32(s[..4]) <= 0x1000_0000
    ensures U32(s[..4]) > 0x1000_0000 ==> Consumed(s) == 8
  {
  }
}
