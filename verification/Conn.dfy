/**
 One connection to a CAS process (roundTrip, Close, Valid in cubrid/conn.go). Every write and read
 may fail at any byte; deadlines and cancellation are such failures.
 */
module Conn {
  import opened Bytes
  import opened Wire
  import opened Frames

  const FN_CON_CLOSE: byte := 31

  /** How the transport behaves in one round trip: a write that breaks after some bytes, a read that does. */
  datatype Fault = NoFault | WriteFault(sent: nat) | ReadFault(available: nat)

  /**
   inbound: what the peer sends and has not been consumed; outbound: every byte written so far;
   log: the payloads handed to the socket, complete or not.
   */
  datatype State = State(inbound: bytes, outbound: bytes, log: seq<bytes>, autoCommit: bool, bad: bool, closed: bool)
  {
    predicate Valid() { !bad && !closed }
  }

  function CasInfo(autoCommit: bool): (ci: bytes) { [0, 0, 0, if autoCommit then 1 else 0] }

  function Request(s: State, payload: bytes): (b: bytes)
  {
    FrameBytes(Frame(payload, CasInfo(s.autoCommit)))
  }

  function Upto(b: bytes, n: nat): (p: bytes)
  {
    if n < |b| then b[..n] else b
  }

  /** roundTrip: the new state and, on success, the response payload. */
  function Trip(s: State, payload: bytes, fault: Fault): (r: (State, Option<bytes>))
  {
    if !s.Valid() then (s, None)
    else
      var req := Request(s, payload);
      var logged := s.(log := s.log + [payload]);
      if fault.WriteFault? then (logged.(outbound := s.outbound + Upto(req, fault.sent), bad := true), None)
      else
        var seen := if fault.ReadFault? then Upto(s.inbound, fault.available) else s.inbound;
        var after := logged.(outbound := s.outbound + req, inbound := s.inbound[Consumed(seen)..]);
        match ReadFrame(seen)
        case Fail(_) => (after.(bad := true), None)
        case Got(f, _) => (after, Some(f.payload))
  }

  /** Close: CON_CLOSE best effort, then closed whatever happened. */
  function Shut(s: State, fault: Fault): (t: State)
  {
    if s.closed then s else Trip(s, [FN_CON_CLOSE], fault).0.(closed := true)
  }

  datatype Op =
    | Call(payload: bytes, fault: Fault)
    | AutoCommit(on: bool)
    | Close(fault: Fault)

  function Step(s: State, op: Op): (r: (State, Option<bytes>))
  {
    match op
    case Call(payload, fault) => Trip(s, payload, fault)
    case AutoCommit(on) => (s.(autoCommit := on), None)
    case Close(fault) => (Shut(s, fault), None)
  }

  /** A run: the final state and the responses returned, in order. */
  function Run(s: State, ops: seq<Op>): (r: (State, seq<bytes>))
    decreases |ops|
  {
    if ops == [] then (s, [])
    else
      var (t, reply) := Step(s, ops[0]);
      var (u, replies) := Run(t, ops[1..]);
      (u, (if reply.Some? then [reply.value] else []) + replies)
  }

  function Payloads(fs: seq<Frame>): (ps: seq<bytes>)
    ensures |ps| == |fs|
  {
    seq(|fs|, i requires 0 <= i < |fs| => fs[i].payload)
  }

  // ---------- The object ----------

  class Connection {
    var inbound: bytes
    var outbound: bytes
    var log: seq<bytes>
    var autoCommit: bool
    var bad: bool
    var closed: bool

    ghost function Snap(): (s: State)
      reads this
    {
      State(inbound, outbound, log, autoCommit, bad, closed)
    }

    constructor (peer: bytes)
      ensures Snap() == State(peer, [], [], true, false, false)
    {
      inbound, outbound, log, autoCommit, bad, closed := peer, [], [], true, false, false;
    }

    /** io.ReadFull over the bytes that will still arrive. */
    method ReadFull(n: nat, available: nat) returns (r: Option<bytes>)
      requires available <= |inbound|
      modifies `inbound
      ensures n <= available ==> r == Some(old(inbound)[..n]) && inbound == old(inbound)[n..]
      ensures n > available ==> r == None && inbound == old(inbound)[available..]
    {
      if n > available {
        inbound := inbound[available..];
        return None;
      }
      r := Some(inbound[..n]);
      inbound := inbound[n..];
    }

    method ReadResponse(available: nat) returns (r: Option<bytes>)
      requires available <= |inbound|
      modifies `inbound
      ensures inbound == old(inbound)[Consumed(old(inbound)[..available])..]
      ensures match ReadFrame(old(inbound)[..available])
              case Got(f, _) => r == Some(f.payload)
              case Fail(_) => r == None
    {
      SeenHeader(inbound, available);
      var hdr := ReadFull(HEADER, available);
      if hdr.None? {
        return None;
      }
      var n := U32(hdr.value[..4]);
      if n > MAX_PAYLOAD {
        return None;
      }
      AfterHeader(old(inbound), available, n);
      r := ReadFull(n, available - HEADER);
    }

    method RoundTrip(payload: bytes, fault: Fault) returns (r: Option<bytes>)
      modifies this
      ensures (Snap(), r) == Trip(old(Snap()), payload, fault)
    {
      if closed || bad {
        return None;
      }
      log := log + [payload];
      var req := FrameBytes(Frame(payload, CasInfo(autoCommit)));
      if fault.WriteFault? {
        outbound := outbound + Upto(req, fault.sent);
        bad := true;
        return None;
      }
      outbound := outbound + req;
      var available := if fault.ReadFault? && fault.available < |inbound| then fault.available else |inbound|;
      assert inbound[..|inbound|] == inbound;
      r := ReadResponse(available);
      if r.None? {
        bad := true;
      }
    }

    method SetAutoCommit(on: bool)
      modifies `autoCommit
      ensures Snap() == Step(old(Snap()), AutoCommit(on)).0
    {
      autoCommit := on;
    }

    method Shutdown(fault: Fault)
      modifies this
      ensures Snap() == Shut(old(Snap()), fault)
    {
      if closed {
        return;
      }
      if !bad {
        var _ := RoundTrip([FN_CON_CLOSE], fault);
      }
      closed := true;
    }
  }

  /** The header of what will arrive is the header of the stream. */
  lemma SeenHeader(s: bytes, available: nat)
    requires available <= |s|
    ensures available >= HEADER ==> s[..HEADER][..4] == s[..available][..4]
  {
  }

  /** What is left after the header, in terms of what will arrive. */
  lemma AfterHeader(s: bytes, available: nat, n: nat)
    requires HEADER <= available <= |s|
    ensures HEADER + n <= available ==>
              && s[HEADER..][..n] == s[..available][HEADER..HEADER + n]
              && s[HEADER..][n..] == s[HEADER + n..]
    ensures s[HEADER..][available - HEADER..] == s[available..]
  {
  }

  // ---------- Framing over every run ----------

  lemma SplitOfPrefix(s: bytes, n: nat)
    requires n <= |s| && ReadFrame(s[..n]).Got?
    ensures ReadFrame(s).Got? && ReadFrame(s).value == ReadFrame(s[..n]).value
    ensures s[Consumed(s[..n])..] == ReadFrame(s).rest
  {
    var k := U32(s[..4]);
    assert s[..n][..4] == s[..4];
    assert s[..n][HEADER..HEADER + k] == s[HEADER..HEADER + k];
    assert s[..n][4..HEADER] == s[4..HEADER];
  }

  /** A successful round trip returns the next frame and leaves the socket just after it. */
  lemma TripReadsNextFrame(s: State, payload: bytes, fault: Fault)
    requires Trip(s, payload, fault).1.Some?
    ensures s.Valid() && Trip(s, payload, fault).0.Valid()
    ensures ReadFrame(s.inbound).Got?
    ensures Trip(s, payload, fault).1.value == ReadFrame(s.inbound).value.payload
    ensures Trip(s, payload, fault).0.inbound == ReadFrame(s.inbound).rest
    ensures Trip(s, payload, fault).0.outbound == s.outbound + Request(s, payload)
  {
    if fault.ReadFault? && fault.available < |s.inbound| {
      SplitOfPrefix(s.inbound, fault.available);
    }
  }

  /**
   rs are the first responses of the stream s had ahead of it; if t is valid it has consumed exactly
   those frames, for as many requests.
   */
  ghost predicate InLockstep(s: State, t: State, rs: seq<bytes>) {
    && |rs| <= |Split(s.inbound)| && rs == Payloads(Split(s.inbound))[..|rs|]
    && (t.Valid() ==>
          && s.inbound == Join(Split(s.inbound)[..|rs|]) + t.inbound
          && Split(t.inbound) == Split(s.inbound)[|rs|..]
          && |t.log| == |s.log| + |rs|)
  }

  /**
   Over every run, whatever fails: the i-th response returned is the i-th frame of the stream, and
   while the connection is valid the unread bytes start at a frame boundary, one response per request.
   */
  lemma {:induction false} ResponsesAreFrames(s: State, ops: seq<Op>)
    ensures InLockstep(s, Run(s, ops).0, Run(s, ops).1)
    decreases |ops|
  {
    if ops != [] {
      var op, t, reply := ops[0], Step(s, ops[0]).0, Step(s, ops[0]).1;
      var u, rs := Run(t, ops[1..]).0, Run(t, ops[1..]).1;
      ResponsesAreFrames(t, ops[1..]);
      if reply.Some? {
        TripReadsNextFrame(s, op.payload, op.fault);
        LockstepReply(s, t, reply.value, u, rs);
      } else {
        assert [] + rs == rs;
        if !t.Valid() {
          InvalidIsSilent(t, ops[1..]);
        }
      }
    }
  }

  lemma LockstepReply(s: State, t: State, p: bytes, u: State, rs: seq<bytes>)
    requires ReadFrame(s.inbound).Got? && ReadFrame(s.inbound).value.payload == p
    requires t.inbound == ReadFrame(s.inbound).rest && |t.log| == |s.log| + 1
    requires InLockstep(t, u, rs)
    ensures InLockstep(s, u, [p] + rs)
  {
    FramesAdvance(s.inbound, |rs|, u.inbound);
  }

  /** Shifting the statement above by one frame. */
  lemma FramesAdvance(s: bytes, k: nat, left: bytes)
    requires ReadFrame(s).Got? && k <= |Split(ReadFrame(s).rest)|
    ensures Payloads(Split(s))[..k + 1] ==
            [ReadFrame(s).value.payload] + Payloads(Split(ReadFrame(s).rest))[..k]
    ensures Split(s)[k + 1..] == Split(ReadFrame(s).rest)[k..]
    ensures ReadFrame(s).rest == Join(Split(ReadFrame(s).rest)[..k]) + left ==>
              s == Join(Split(s)[..k + 1]) + left
  {
    var f, t := ReadFrame(s).value, ReadFrame(s).rest;
    FrameIsItsBytes(s);
    ConsFrames(f, Split(t), k);
    Assoc(FrameBytes(f), Join(Split(t)[..k]), left);
  }

  lemma ConsFrames(f: Frame, fs: seq<Frame>, k: nat)
    requires k <= |fs|
    ensures Payloads([f] + fs)[..k + 1] == [f.payload] + Payloads(fs)[..k]
    ensures ([f] + fs)[k + 1..] == fs[k..]
    ensures Join(([f] + fs)[..k + 1]) == FrameBytes(f) + Join(fs[..k])
  {
    assert ([f] + fs)[..k + 1][1..] == fs[..k];
  }

  /** Once poisoned or closed: invalid for good, no response returned, nothing more written. */
  lemma {:induction false} InvalidIsSilent(s: State, ops: seq<Op>)
    requires !s.Valid()
    ensures var (t, rs) := Run(s, ops);
            !t.Valid() && rs == [] && t.outbound == s.outbound && t.log == s.log && t.inbound == s.inbound
    decreases |ops|
  {
    if ops != [] {
      InvalidIsSilent(Step(s, ops[0]).0, ops[1..]);
    }
  }

  lemma {:induction false} RunSplits(s: State, before: seq<Op>, after: seq<Op>)
    ensures Run(s, before + after).0 == Run(Run(s, before).0, after).0
    decreases |before|
  {
    if before == [] {
      assert before + after == after;
    } else {
      assert (before + after)[1..] == before[1..] + after;
      RunSplits(Step(s, before[0]).0, before[1..], after);
    }
  }

  /** The same, for any point of any run at which the connection was found invalid. */
  lemma NothingWrittenAfterPoisoning(s: State, before: seq<Op>, after: seq<Op>)
    requires !Run(s, before).0.Valid()
    ensures Run(s, before + after).0.outbound == Run(s, before).0.outbound
    ensures Run(s, before + after).0.log == Run(s, before).0.log
  {
    RunSplits(s, before, after);
    InvalidIsSilent(Run(s, before).0, after);
  }

  /** While the connection stays valid the peer has received whole requests only, in call order. */
  ghost predicate WholeRequests(log: seq<bytes>, outbound: bytes) {
    exists fs: seq<Frame> :: outbound == Join(fs) && Payloads(fs) == log
  }

  lemma {:induction false} ValidMeansWholeRequests(s: State, ops: seq<Op>)
    requires s.Valid() ==> WholeRequests(s.log, s.outbound)
    ensures Run(s, ops).0.Valid() ==> WholeRequests(Run(s, ops).0.log, Run(s, ops).0.outbound)
    decreases |ops|
  {
    if ops != [] {
      var t := Step(s, ops[0]).0;
      if t.Valid() {
        if ops[0].Call? {
          TripReadsNextFrame(s, ops[0].payload, ops[0].fault);
          AppendRequest(s, ops[0].payload);
        }
        assert WholeRequests(t.log, t.outbound);
      }
      ValidMeansWholeRequests(t, ops[1..]);
    }
  }

  lemma AppendRequest(s: State, payload: bytes)
    requires WholeRequests(s.log, s.outbound)
    ensures WholeRequests(s.log + [payload], s.outbound + Request(s, payload))
  {
    var fs: seq<Frame> :| s.outbound == Join(fs) && Payloads(fs) == s.log;
    var f := Frame(payload, CasInfo(s.autoCommit));
    JoinSnoc(fs, f);
    assert Payloads(fs + [f]) == s.log + [payload];
  }

  lemma {:induction false} JoinSnoc(fs: seq<Frame>, f: Frame)
    ensures Join(fs + [f]) == Join(fs) + FrameBytes(f)
  {
    if fs == [] {
      assert Join([f]) == FrameBytes(f);
    } else {
      assert (fs + [f])[1..] == fs[1..] + [f];
      JoinSnoc(fs[1..], f);
      Assoc(FrameBytes(fs[0]), Join(fs[1..]), FrameBytes(f));
    }
  }

  // ---------- What every request carried ----------

  datatype Asked = Asked(payload: bytes, autoCommit: bool)

  /**
   The requests a run hands to the socket, with the autocommit setting in force at each: the last one the
   caller made, or the initial one.
   */
  function Requests(s: State, auto: bool, ops: seq<Op>): (qs: seq<Asked>)
    decreases |ops|
  {
    if ops == [] then []
    else
      var t, rest := Step(s, ops[0]).0, ops[1..];
      match ops[0]
      case AutoCommit(on) => Requests(t, on, rest)
      case Call(payload, _) => (if s.Valid() then [Asked(payload, auto)] else []) + Requests(t, auto, rest)
      case Close(_) => (if s.Valid() then [Asked([31], auto)] else []) + Requests(t, auto, rest)
  }

  /** A request frame: the header's last byte is 1 with autocommit on and 0 with it off. */
  function Sent(q: Asked): (f: Frame) { Frame(q.payload, [0, 0, 0, if q.autoCommit then 1 else 0]) }

  function SentAll(qs: seq<Asked>): (fs: seq<Frame>)
    ensures |fs| == |qs| && forall i :: 0 <= i < |qs| ==> fs[i] == Sent(qs[i])
  {
    if qs == [] then [] else [Sent(qs[0])] + SentAll(qs[1..])
  }

  function Asking(qs: seq<Asked>): (ps: seq<bytes>)
    ensures |ps| == |qs| && forall i :: 0 <= i < |qs| ==> ps[i] == qs[i].payload
  {
    if qs == [] then [] else [qs[0].payload] + Asking(qs[1..])
  }

  /** Between s and t the requests qs were logged, and their frames written as far as the connection lived. */
  ghost predicate Wrote(s: State, t: State, qs: seq<Asked>) {
    && t.log == s.log + Asking(qs)
    && t.outbound <= s.outbound + Join(SentAll(qs))
    && (t.Valid() ==> t.outbound == s.outbound + Join(SentAll(qs)))
  }

  /**
   Over every run, wherever the transport fails, the bytes written are a prefix of the frames of its
   requests, each with the autocommit setting in force when it was made; while the connection is valid
   they are exactly those frames.
   */
  lemma {:induction false} WritesWhatWasAsked(s: State, ops: seq<Op>)
    ensures Wrote(s, Run(s, ops).0, Requests(s, s.autoCommit, ops))
    decreases |ops|
  {
    if ops == [] {
      assert s.outbound + [] == s.outbound && s.log + [] == s.log;
    } else {
      var t := Step(s, ops[0]).0;
      var u, qs := Run(t, ops[1..]).0, Requests(t, t.autoCommit, ops[1..]);
      WritesWhatWasAsked(t, ops[1..]);
      assert [] + qs == qs;
      if !ops[0].AutoCommit? && s.Valid() {
        var payload: bytes := if ops[0].Call? then ops[0].payload else [31];
        TripWrites(s, payload, ops[0].fault);
        if !t.Valid() {
          InvalidIsSilent(t, ops[1..]);
          SilentAsksNothing(t, t.autoCommit, ops[1..]);
        }
        WroteFirst(s, t, u, Asked(payload, s.autoCommit), qs);
      }
    }
  }

  lemma WroteFirst(s: State, t: State, u: State, q: Asked, qs: seq<Asked>)
    requires Wrote(t, u, qs) && t.log == s.log + [q.payload]
    requires t.outbound <= s.outbound + FrameBytes(Sent(q))
    requires t.Valid() ==> t.outbound == s.outbound + FrameBytes(Sent(q))
    requires !t.Valid() ==> !u.Valid() && u.outbound == t.outbound && qs == []
    ensures Wrote(s, u, [q] + qs)
  {
    var all := [q] + qs;
    assert all[1..] == qs && SentAll(all)[1..] == SentAll(qs);
    assert Join(SentAll(all)) == FrameBytes(Sent(q)) + Join(SentAll(qs));
    Assoc(s.log, [q.payload], Asking(qs));
    Assoc(s.outbound, FrameBytes(Sent(q)), Join(SentAll(qs)));
    if !t.Valid() {
      assert Join(SentAll(all)) == FrameBytes(Sent(q)) + [] == FrameBytes(Sent(q));
    }
  }

  /** A round trip writes its frame, or a part of it and the connection is then invalid. */
  lemma TripWrites(s: State, payload: bytes, fault: Fault)
    requires s.Valid()
    ensures var t, frame := Trip(s, payload, fault).0, FrameBytes(Sent(Asked(payload, s.autoCommit)));
            && t.log == s.log + [payload] && t.autoCommit == s.autoCommit
            && t.outbound <= s.outbound + frame
            && (t.Valid() || !fault.WriteFault? ==> t.outbound == s.outbound + frame)
  {
  }

  lemma {:induction false} SilentAsksNothing(s: State, auto: bool, ops: seq<Op>)
    requires !s.Valid()
    ensures Requests(s, auto, ops) == []
    decreases |ops|
  {
    if ops != [] {
      var t := Step(s, ops[0]).0;
      SilentAsksNothing(t, if ops[0].AutoCommit? then ops[0].on else auto, ops[1..]);
    }
  }

  // ---------- CON_CLOSE ----------

  function CloseCount(log: seq<bytes>): (n: nat)
  {
    if log == [] then 0 else CloseCount(log[..|log| - 1]) + (if log[|log| - 1] == [FN_CON_CLOSE] then 1 else 0)
  }

  /** Only Close sends CON_CLOSE, so over any run it is sent at most once, and only by a connection then closed. */
  lemma {:induction false} CloseSentAtMostOnce(s: State, ops: seq<Op>)
    requires forall i :: 0 <= i < |ops| && ops[i].Call? ==> ops[i].payload != [FN_CON_CLOSE]
    requires CloseCount(s.log) <= if s.closed then 1 else 0
    ensures var t := Run(s, ops).0;
            CloseCount(t.log) <= if t.closed then 1 else 0
    decreases |ops|
  {
    if ops != [] {
      CloseCountStep(s, ops[0]);
      CloseSentAtMostOnce(Step(s, ops[0]).0, ops[1..]);
    }
  }

  lemma CloseCountStep(s: State, op: Op)
    requires op.Call? ==> op.payload != [FN_CON_CLOSE]
    requires CloseCount(s.log) <= if s.closed then 1 else 0
    ensures var t := Step(s, op).0;
            CloseCount(t.log) <= if t.closed then 1 else 0
  {
    match op
    case Call(payload, fault) => TripLogs(s, payload, fault);
    case AutoCommit(_) =>
    case Close(fault) => TripLogs(s, [FN_CON_CLOSE], fault);
  }

  lemma TripLogs(s: State, payload: bytes, fault: Fault)
    ensures var t := Trip(s, payload, fault).0;
            && t.closed == s.closed
            && CloseCount(t.log) == CloseCount(s.log) + if s.Valid() && payload == [FN_CON_CLOSE] then 1 else 0
  {
    assert (s.log + [payload])[..|s.log|] == s.log;
  }
}
