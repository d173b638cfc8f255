/** The WebSocket connection over framed bytes: message reassembly, control frames, writes. */
module WSConn {
  import opened Bytes
  import opened Transport
  import opened WSFrame
  import Gate = CloseGate

  /** The message being reassembled, if any. */
  datatype Open = Idle | InMessage(typ: byte, acc: seq<byte>)

  /** A frame the reader sends back on its own. */
  datatype Reply = PongReply(payload: seq<byte>) | CloseReply(payload: seq<byte>)

  datatype Cause =
    | BadFrame(error: FrameError)
    | PeerClosed
    | UnexpectedContinuation
    | ReservedOpcode
    | ExpectedContinuation

  datatype Next =
    | Message(typ: byte, payload: seq<byte>, rest: seq<byte>, replies: seq<Reply>)
    | Stopped(cause: Cause, replies: seq<Reply>)

  function Before(replies: seq<Reply>, n: Next): Next {
    n.(replies := replies + n.replies)
  }

  /** What the reader makes of one frame. */
  datatype Verdict =
    | Continue(open: Open, replies: seq<Reply>)
    | Deliver(typ: byte, payload: seq<byte>)
    | Halt(cause: Cause, replies: seq<Reply>)

  function OnFrame(f: Frame, open: Open): (v: Verdict)
  {
    if f.op == PING then Continue(open, [PongReply(f.payload)])
    else if f.op == PONG then Continue(open, [])
    else if f.op == CLOSE then Halt(PeerClosed, [CloseReply(f.payload)])
    else match open
      case Idle =>
        if f.op == CONTINUATION then Halt(UnexpectedContinuation, [])
        else if f.op != TEXT && f.op != BINARY then Halt(ReservedOpcode, [])
        else if f.fin then Deliver(f.op, f.payload)
        else Continue(InMessage(f.op, f.payload), [])
      case InMessage(typ, acc) =>
        if f.op != CONTINUATION then Halt(ExpectedContinuation, [])
        else if f.fin then Deliver(typ, acc + f.payload)
        else Continue(InMessage(typ, acc + f.payload), [])
  }

  /** What one Read returns on the remaining bytes s, and which replies it attempts. */
  function NextMessage(s: seq<byte>, open: Open): (n: Next)
    ensures n.Message? ==> |n.rest| < |s|
    decreases |s|
  {
    match ParseFrame(s, false)
    case Failed(e) => Stopped(BadFrame(e), [])
    case Parsed(f, rest) =>
      match OnFrame(f, open)
      case Continue(open', replies) => Before(replies, NextMessage(rest, open'))
      case Deliver(typ, payload) => Message(typ, payload, rest, [])
      case Halt(cause, replies) => Stopped(cause, replies)
  }

  ghost predicate WellOpen(open: Open) {
    open.InMessage? ==> open.typ == TEXT || open.typ == BINARY
  }

  /** Whatever the wire holds, the reader surfaces only text and binary messages. */
  lemma {:induction false} OnlyDataSurfaces(s: seq<byte>, open: Open)
    requires WellOpen(open)
    ensures var n := NextMessage(s, open);
            n.Message? ==> n.typ == TEXT || n.typ == BINARY
    decreases |s|
  {
    var p := ParseFrame(s, false);
    if p.Parsed? && OnFrame(p.frame, open).Continue? {
      OnlyDataSurfaces(p.rest, OnFrame(p.frame, open).open);
    }
  }

  ghost predicate Answers(op: Gate.Op, r: Reply)
  {
    match r
    case PongReply(p) => (op.WriteOp? || op.Dropped?) && op.typ == PONG && op.data == p
    case CloseReply(p) => (op.CloseOp? || (op.Dropped? && op.typ == CLOSE)) && op.data == p
  }

  ghost predicate AnswersAll(ops: seq<Gate.Op>, replies: seq<Reply>)
  {
    |ops| == |replies| && forall i | 0 <= i < |ops| :: Answers(ops[i], replies[i])
  }

  datatype ReadResult = Got(typ: byte, payload: seq<byte>) | Cancelled | Fail(cause: Cause)

  /** While the caller's context is live every attempt is made, and it puts its whole frame on the wire if moreover the
      gate was open and the stream did not fail. */
  ghost predicate Effort(live: bool, clean: bool, style: Framing, ops: seq<Gate.Op>) {
    live ==> forall i | 0 <= i < |ops| :: !ops[i].Dropped? && (clean ==> Gate.Complete(style, ops[i]))
  }

  lemma EffortNone(live: bool, clean: bool, style: Framing, ops: seq<Gate.Op>)
    ensures Effort(live, clean, style, ops[|ops|..])
  {
  }

  lemma EffortSteps(live: bool, clean: bool, style: Framing, a: seq<Gate.Op>, b: seq<Gate.Op>, c: seq<Gate.Op>,
                    clean1: bool, clean2: bool)
    requires a <= b <= c && (clean ==> clean1 && clean2)
    requires Effort(live, clean1, style, b[|a|..]) && Effort(live, clean2, style, c[|b|..])
    ensures Effort(live, clean, style, c[|a|..])
  {
    Suffixes(a, b, c);
  }

  /** A finished Read agrees with n: its result, the bytes left, and one attempt per reply, in order. */
  ghost predicate Agrees(r: ReadResult, n: Next, ops: seq<Gate.Op>, rest: seq<byte>, closed: bool)
  {
    r.Cancelled? ||
    (&& AnswersAll(ops, n.replies)
     && match n
        case Message(typ, payload, rest', _) => r == Got(typ, payload) && rest == rest'
        case Stopped(cause, _) => r == Fail(cause) && (cause == PeerClosed ==> closed))
  }

  /** Part way through a Read that will amount to `total`: the attempts made since ops0 answer the
      first replies of `total`, and `now` is what remains to be done. */
  ghost predicate PartWay(total: Next, ops0: seq<Gate.Op>, now: Next, ops: seq<Gate.Op>)
  {
    && ops0 <= ops
    && |ops| - |ops0| <= |total.replies|
    && total == Before(total.replies[..|ops| - |ops0|], now)
    && AnswersAll(ops[|ops0|..], total.replies[..|ops| - |ops0|])
  }

  lemma PartWayStep(total: Next, ops0: seq<Gate.Op>, now: Next, ops: seq<Gate.Op>,
                    replies: seq<Reply>, now': Next, ops': seq<Gate.Op>)
    requires PartWay(total, ops0, now, ops)
    requires now == Before(replies, now') && ops <= ops' && AnswersAll(ops'[|ops|..], replies)
    ensures PartWay(total, ops0, now', ops')
  {
    var k, k' := |ops| - |ops0|, |ops'| - |ops0|;
    assert total.replies[..k'] == total.replies[..k] + replies;
    assert ops'[|ops0|..] == ops[|ops0|..] + ops'[|ops|..];
  }

  lemma PartWayDone(total: Next, ops0: seq<Gate.Op>, now: Next, ops: seq<Gate.Op>,
                    ops': seq<Gate.Op>, r: ReadResult, rest: seq<byte>, closed: bool)
    requires PartWay(total, ops0, now, ops)
    requires ops <= ops' && Agrees(r, now, ops'[|ops|..], rest, closed)
    ensures ops0 <= ops' && Agrees(r, total, ops'[|ops0|..], rest, closed)
  {
    if !r.Cancelled? {
      var k := |ops| - |ops0|;
      assert total.replies == total.replies[..k] + now.replies;
      assert ops'[|ops0|..] == ops[|ops0|..] + ops'[|ops|..];
    }
  }

  /** The same when a frame needed no reply. */
  lemma PartWayQuiet(total: Next, ops0: seq<Gate.Op>, now: Next, ops: seq<Gate.Op>, next: Next)
    requires PartWay(total, ops0, now, ops) && now == Before([], next)
    ensures PartWay(total, ops0, next, ops)
  {
    PartWayStep(total, ops0, now, ops, [], next, ops);
  }

  lemma PartWayEnd(total: Next, ops0: seq<Gate.Op>, now: Next, ops: seq<Gate.Op>,
                   r: ReadResult, rest: seq<byte>, closed: bool)
    requires PartWay(total, ops0, now, ops) && Agrees(r, now, [], rest, closed)
    ensures ops0 <= ops && Agrees(r, total, ops[|ops0|..], rest, closed)
  {
    assert ops[|ops|..] == [];
    PartWayDone(total, ops0, now, ops, ops, r, rest, closed);
  }

  lemma PartWayStart(total: Next, ops: seq<Gate.Op>)
    ensures PartWay(total, ops, total, ops)
  {
    assert total.replies[..0] + total.replies == total.replies;
  }

  /** A control frame, once it has been answered. */
  lemma ControlStep(total: Next, ops0: seq<Gate.Op>, s: seq<byte>, open: Open, f: Frame, rest: seq<byte>,
                    ops: seq<Gate.Op>, ops': seq<Gate.Op>, closed: bool)
    requires PartWay(total, ops0, NextMessage(s, open), ops) && ops <= ops'
    requires ParseFrame(s, false) == Parsed(f, rest) && f.op in {PING, PONG, CLOSE}
    requires AnswersAll(ops'[|ops|..], OnFrame(f, Idle).replies) && (f.op == CLOSE ==> closed)
    ensures ops0 <= ops'
    ensures f.op == CLOSE ==> Agrees(Fail(PeerClosed), total, ops'[|ops0|..], rest, closed)
    ensures f.op != CLOSE ==> PartWay(total, ops0, NextMessage(rest, open), ops')
  {
    var now := NextMessage(s, open);
    if f.op == CLOSE {
      PartWayDone(total, ops0, now, ops, ops', Fail(PeerClosed), rest, closed);
    } else {
      PartWayStep(total, ops0, now, ops, OnFrame(f, Idle).replies, NextMessage(rest, open), ops');
    }
  }

  lemma PartWayCancelled(total: Next, ops0: seq<Gate.Op>, now: Next, ops: seq<Gate.Op>, rest: seq<byte>, closed: bool)
    requires PartWay(total, ops0, now, ops)
    ensures ops0 <= ops && Agrees(Cancelled, total, ops[|ops0|..], rest, closed)
  {
  }

  /** Bytes that hold no frame. */
  lemma NoFrame(s: seq<byte>, open: Open, e: FrameError, rest: seq<byte>, closed: bool)
    requires ParseFrame(s, false) == Failed(e)
    ensures Agrees(Fail(BadFrame(e)), NextMessage(s, open), [], rest, closed)
  {
  }

  /** A non-control frame outside a message. */
  lemma FirstFrame(before: seq<byte>, f: Frame, rest: seq<byte>, closed: bool)
    requires ParseFrame(before, false) == Parsed(f, rest) && f.op !in {PING, PONG, CLOSE}
    ensures var now := NextMessage(before, Idle);
            && (f.op == CONTINUATION ==> Agrees(Fail(UnexpectedContinuation), now, [], rest, closed))
            && (f.op !in {CONTINUATION, TEXT, BINARY} ==> Agrees(Fail(ReservedOpcode), now, [], rest, closed))
            && (f.op in {TEXT, BINARY} && f.fin ==> Agrees(Got(f.op, f.payload), now, [], rest, closed))
            && (f.op in {TEXT, BINARY} && !f.fin ==> now == NextMessage(rest, InMessage(f.op, f.payload)))
  {
    if f.op in {TEXT, BINARY} && !f.fin {
      var next := NextMessage(rest, InMessage(f.op, f.payload));
      assert [] + next.replies == next.replies;
    }
  }

  /** A non-control frame in the middle of a message. */
  lemma FragmentFrame(before: seq<byte>, f: Frame, rest: seq<byte>, typ: byte, buf: seq<byte>, closed: bool)
    requires ParseFrame(before, false) == Parsed(f, rest) && f.op !in {PING, PONG, CLOSE}
    ensures var now := NextMessage(before, InMessage(typ, buf));
            && (f.op != CONTINUATION ==> Agrees(Fail(ExpectedContinuation), now, [], rest, closed))
            && (f.op == CONTINUATION && f.fin ==> Agrees(Got(typ, buf + f.payload), now, [], rest, closed))
            && (f.op == CONTINUATION && !f.fin ==>
                  now == Before([], NextMessage(rest, InMessage(typ, buf + f.payload))))
  {
  }

  /** What it does to a Read that is part way through. */
  lemma FragmentStep(total: Next, ops0: seq<Gate.Op>, ops: seq<Gate.Op>, from: seq<byte>, f: Frame,
                     rest: seq<byte>, typ: byte, buf: seq<byte>, closed: bool)
    requires PartWay(total, ops0, NextMessage(from, InMessage(typ, buf)), ops)
    requires ParseFrame(from, false) == Parsed(f, rest) && f.op !in {PING, PONG, CLOSE}
    ensures ops0 <= ops
    ensures f.op != CONTINUATION ==> Agrees(Fail(ExpectedContinuation), total, ops[|ops0|..], rest, closed)
    ensures f.op == CONTINUATION && f.fin ==> Agrees(Got(typ, buf + f.payload), total, ops[|ops0|..], rest, closed)
    ensures f.op == CONTINUATION && !f.fin ==>
              PartWay(total, ops0, NextMessage(rest, InMessage(typ, buf + f.payload)), ops)
  {
    var now := NextMessage(from, InMessage(typ, buf));
    FragmentFrame(from, f, rest, typ, buf, closed);
    if f.op != CONTINUATION {
      PartWayEnd(total, ops0, now, ops, Fail(ExpectedContinuation), rest, closed);
    } else if f.fin {
      PartWayEnd(total, ops0, now, ops, Got(typ, buf + f.payload), rest, closed);
    } else {
      PartWayQuiet(total, ops0, now, ops, NextMessage(rest, InMessage(typ, buf + f.payload)));
    }
  }

  /** What is on the wire once the first n bytes of a frame have been written. */
  ghost function Gone(style: Framing, frame: seq<byte>, n: nat): (s: seq<byte>)
    requires n <= |frame| < MAX_LEN
  {
    if style.Plain? then frame[..n] else if n == 0 then [] else OnWire(style, frame)
  }

  lemma GoneAll(style: Framing, frame: seq<byte>)
    requires |frame| < MAX_LEN
    ensures var gone := Gone(style, frame, |frame|);
            |gone| <= |OnWire(style, frame)| && gone == OnWire(style, frame)[..|gone|]
    ensures frame != [] ==> Gone(style, frame, |frame|) == OnWire(style, frame)
  {
  }

  lemma FurtherPrefix(before: seq<byte>, frame: seq<byte>, sent: nat, n: nat)
    requires sent + n <= |frame|
    ensures (before + frame[..sent]) + frame[sent..][..n] == before + frame[..sent + n]
    ensures before <= before + frame[..sent + n] <= before + frame
  {
    Extend(frame, sent, n);
    Assoc(before, frame[..sent], frame[sent..][..n]);
  }

  lemma Between(a: seq<byte>, b: seq<byte>, c: seq<byte>)
    requires a <= b <= a + c
    ensures |b| - |a| <= |c| && b == a + c[..|b| - |a|]
  {
  }

  class FramedWSConn {
    const t: Transport
    const br: BufReader
    var closeSent: bool
    ghost var log: seq<Gate.Entry> // one entry per frame, with the part of it that reached the wire
    ghost var ops: seq<Gate.Op>    // every write attempt, in lock order

    /** The connection's write side is the gate run over all attempts so far. */
    ghost predicate Valid()
      reads this, t, t.Repr, t.s`outgoing
    {
      && br.rd == t && br.Valid() && this !in t.Repr
      && Gate.Gate(t.Style(), closeSent, log) == Gate.Run(Gate.Init(t.Style()), ops)
      && t.s.outgoing == Gate.Wire(log)
    }

    constructor (t: Transport)
      requires t.Valid() && t.s.outgoing == []
      ensures Valid() && this.t == t && fresh(br) && br.Rest() == t.Pending() && ops == [] && !closeSent
    {
      this.t := t;
      br := new BufReader(t);
      closeSent := false;
      log, ops := [], [];
    }

    /** Adds to the list of attempts one that has had its effect on the log and the flag. */
    ghost method Record(op: Gate.Op)
      requires Gate.Gate(t.Style(), closeSent, log) == Gate.Apply(Gate.Run(Gate.Init(t.Style()), ops), op)
      modifies this`ops
      ensures ops == old(ops) + [op]
      ensures Gate.Gate(t.Style(), closeSent, log) == Gate.Run(Gate.Init(t.Style()), ops)
    {
      hide Gate.Run, Gate.Apply;
      Gate.RunSnoc(Gate.Init(t.Style()), ops, op);
      ops := ops + [op];
    }

    /** The write loop: all of the frame, or the part before the transport failed. */
    method WriteLoop(frame: seq<byte>) returns (failed: bool, ghost reached: nat)
      requires t.Valid() && |frame| < MAX_LEN
      modifies t.s`outgoing, t.s`faults
      ensures t.s.faults == old(t.s.faults) + if failed then 1 else 0
      ensures reached <= |OnWire(t.Style(), frame)|
      ensures t.s.outgoing == old(t.s.outgoing) + OnWire(t.Style(), frame)[..reached]
      ensures !failed && frame != [] ==> reached == |OnWire(t.Style(), frame)|
    {
      hide OnWire;
      ghost var before := t.s.outgoing;
      var sent := 0; // remaining is frame[sent..]
      assert before + Gone(t.Style(), frame, 0) == before;
      while sent < |frame|
        invariant sent <= |frame| && t.s.faults == old(t.s.faults) && (t.h3 != null && sent > 0 ==> sent == |frame|)
        invariant t.s.outgoing == before + Gone(t.Style(), frame, sent)
      {
        var n;
        n, failed := WriteMore(frame, sent, before);
        if failed {
          reached := |t.s.outgoing| - |before|;
          Between(before, t.s.outgoing, OnWire(t.Style(), frame));
          return;
        }
        sent := sent + n;
      }
      GoneAll(t.Style(), frame);
      return false, |Gone(t.Style(), frame, |frame|)|;
    }

    /** One write of what remains; it fails too when it makes no progress. */
    method WriteMore(frame: seq<byte>, sent: nat, ghost before: seq<byte>) returns (n: nat, failed: bool)
      requires t.Valid() && sent < |frame| < MAX_LEN && (t.h3 != null ==> sent == 0)
      requires t.s.outgoing == before + Gone(t.Style(), frame, sent)
      modifies t.s`outgoing, t.s`faults
      ensures sent + n <= |frame| && t.s.faults == old(t.s.faults) + if failed then 1 else 0
      ensures !failed ==> n > 0 && t.s.outgoing == before + Gone(t.Style(), frame, sent + n)
      ensures !failed && t.h3 != null ==> sent + n == |frame|
      ensures failed ==> before <= t.s.outgoing <= before + OnWire(t.Style(), frame)
    {
      assert t.h3 != null ==> frame[sent..] == frame && t.s.outgoing == before;
      n, failed := t.Write(frame[sent..]);
      if t.h3 == null { FurtherPrefix(before, frame, sent, n); }
      failed := failed || n == 0;
    }

    /** Writes one frame, and logs it with the part of it that got to the wire. */
    method WriteFrame(typ: byte, data: Gate.Data, key: Key) returns (failed: bool, ghost reached: nat)
      requires t.Valid() && t.s.outgoing == Gate.Wire(log)
      modifies this`log, t.s`outgoing, t.s`faults
      ensures t.s.faults == old(t.s.faults) + if failed then 1 else 0
      ensures log == old(log) + [Gate.EntryOf(t.Style(), typ, data, key, reached)]
      ensures t.s.outgoing == Gate.Wire(log)
      ensures !failed ==> reached == |Gate.FrameOf(t.Style(), typ, data, key)|
    {
      hide EncodeFrame, OnWire, Gate.Wire;
      var frame := BuildFrame(typ, data, Some(key));
      failed, reached := WriteLoop(frame);
      ghost var entry := Gate.EntryOf(t.Style(), typ, data, key, reached);
      Gate.WireSnoc(log, entry);
      log := log + [entry];
    }

    /** Under the lock: writes the frame unless a close frame has gone out. */
    method WriteRaw(typ: byte, data: Gate.Data, key: Key) returns (failed: bool)
      requires Valid()
      modifies this`ops, this`log, t.s`outgoing, t.s`faults
      ensures Valid() && |ops| == |old(ops)| + 1 && old(ops) <= ops
      ensures var op := ops[|ops| - 1];
              && op.WriteOp? && op.typ == typ && op.data == data
              && (!failed ==> Gate.Complete(t.Style(), op))
      ensures failed <==> closeSent || t.s.faults > old(t.s.faults)
      ensures t.s.faults >= old(t.s.faults)
    {
      hide Gate.EntryOf, Gate.FrameOf, Gate.Wire, Gate.Run;
      if closeSent {
        Record(Gate.WriteOp(typ, data, key, 0));
        return true;
      }
      ghost var reached;
      failed, reached := WriteFrame(typ, data, key);
      Record(Gate.WriteOp(typ, data, key, reached));
    }

    /** It fails exactly when the caller gives up, the gate is shut or the stream fails; otherwise the whole
        frame is on the wire. */
    method Write(typ: byte, data: Gate.Data, giveUp: bool) returns (failed: bool)
      requires Valid()
      modifies this`ops, this`log, t.s`outgoing, t.s`faults
      ensures Valid() && |ops| == |old(ops)| + 1 && old(ops) <= ops
      ensures giveUp ==> ops[|ops| - 1] == Gate.Dropped(typ, data)
      ensures !giveUp ==> var op := ops[|ops| - 1]; op.WriteOp? && op.typ == typ && op.data == data
      ensures failed <==> giveUp || closeSent || t.s.faults > old(t.s.faults)
      ensures t.s.faults >= old(t.s.faults)
      ensures !failed ==> Gate.Complete(t.Style(), ops[|ops| - 1])
    {
      if giveUp { // context done, or no randomness for the key
        Record(Gate.Dropped(typ, data));
        return true;
      }
      var key: Key :| true;
      failed := WriteRaw(typ, data, key);
    }

    /** Shuts the gate unless no key could be drawn. The first call that succeeds has put the whole close
        frame on the wire; a later one succeeds without writing. */
    method SendClose(data: Gate.Data, noKey: bool) returns (failed: bool)
      requires Valid()
      modifies this, t.s`outgoing, t.s`faults
      ensures Valid() && |ops| == |old(ops)| + 1 && old(ops) <= ops
      ensures Answers(ops[|ops| - 1], CloseReply(data)) && (ops[|ops| - 1].Dropped? <==> noKey)
      ensures closeSent == (old(closeSent) || !noKey)
      ensures failed <==> noKey || (!old(closeSent) && t.s.faults > old(t.s.faults))
      ensures t.s.faults >= old(t.s.faults)
      ensures old(closeSent) ==> t.s.outgoing == old(t.s.outgoing)
      ensures !failed && !old(closeSent) ==> Gate.Complete(t.Style(), ops[|ops| - 1])
    {
      hide Gate.EntryOf, Gate.FrameOf, Gate.Wire, Gate.Run;
      if noKey {
        Record(Gate.Dropped(CLOSE, data));
        return true;
      }
      var key: Key :| true;
      if closeSent {
        Record(Gate.CloseOp(data, key, 0));
        return false;
      }
      failed := ShutGate(data, key);
    }

    /** The one close frame that goes out. */
    method ShutGate(data: Gate.Data, key: Key) returns (failed: bool)
      requires Valid() && !closeSent
      modifies this, t.s`outgoing, t.s`faults
      ensures Valid() && closeSent && |ops| == |old(ops)| + 1 && old(ops) <= ops
      ensures var op := ops[|ops| - 1];
              op.CloseOp? && op.data == data && (!failed ==> Gate.Complete(t.Style(), op))
      ensures t.s.faults == old(t.s.faults) + if failed then 1 else 0
    {
      hide Gate.EntryOf, Gate.FrameOf, Gate.Wire, Gate.Run;
      ghost var reached;
      failed, reached := WriteFrame(CLOSE, data, key);
      closeSent := true;
      Record(Gate.CloseOp(data, key, reached));
    }

    /** Close frame with a 2-byte code and a reason; the stream itself is closed later. */
    method Close(code: nat, reason: seq<byte>, noKey: bool)
      requires Valid() && code < 0x1_0000 && |reason| < 0x1_0000
      modifies this, t.s`outgoing, t.s`faults
      ensures Valid() && |ops| == |old(ops)| + 1 && old(ops) <= ops
      ensures Answers(ops[|ops| - 1], CloseReply(if code == 0 then [] else ToBigEndian(code, 2) + reason))
      ensures closeSent == (old(closeSent) || !noKey)
    {
      var payload: seq<byte> := [];
      if code != 0 {
        payload := ToBigEndian(code, 2) + reason;
      }
      var _ := SendClose(payload, noKey);
    }

    /** One control frame met while reading; `stop` after a close frame. */
    method HandleControl(live: bool, f: Frame) returns (stop: bool)
      requires Valid() && f.op in {PING, PONG, CLOSE} && |f.payload| <= MAX_PAYLOAD
      modifies this, t.s`outgoing, t.s`faults, t.s`closed
      ensures Valid() && old(ops) <= ops
      ensures f.op == PING ==> |ops| == |old(ops)| + 1 && Answers(ops[|old(ops)|], PongReply(f.payload))
      ensures f.op == PONG ==> ops == old(ops)
      ensures f.op == CLOSE ==> |ops| == |old(ops)| + 1 && Answers(ops[|old(ops)|], CloseReply(f.payload))
      ensures t.s.faults >= old(t.s.faults)
      ensures Effort(live, !old(closeSent) && t.s.faults == old(t.s.faults), t.Style(), ops[|old(ops)|..])
      ensures stop <==> f.op == CLOSE
      ensures AnswersAll(ops[|old(ops)|..], OnFrame(f, Idle).replies)
      ensures stop ==> t.s.closed
      ensures !stop ==> closeSent == old(closeSent)
    {
      stop := false;
      var giveUp := *;
      giveUp := giveUp && !live;
      if f.op == PING {
        var _ := Write(PONG, f.payload, giveUp);
      } else if f.op == CLOSE {
        var _ := SendClose(f.payload, giveUp);
        t.Close();
        stop := true;
      }
    }

    /** What a control frame at the front of `from` does to a Read that is part way through. */
    method AnswerControl(live: bool, f: Frame, open: Open, ghost total: Next, ghost ops0: seq<Gate.Op>, ghost from: seq<byte>)
      returns (stop: bool)
      requires Valid() && f.op in {PING, PONG, CLOSE}
      requires PartWay(total, ops0, NextMessage(from, open), ops) && ParseFrame(from, false) == Parsed(f, br.Rest())
      modifies this, t.s`outgoing, t.s`faults, t.s`closed
      ensures Valid() && ops0 <= ops && old(ops) <= ops && br.Rest() == old(br.Rest())
      ensures t.s.faults >= old(t.s.faults)
      ensures Effort(live, !old(closeSent) && t.s.faults == old(t.s.faults), t.Style(), ops[|old(ops)|..])
      ensures !stop ==> closeSent == old(closeSent)
      ensures stop <==> f.op == CLOSE
      ensures stop ==> Agrees(Fail(PeerClosed), total, ops[|ops0|..], br.Rest(), t.s.closed)
      ensures !stop ==> PartWay(total, ops0, NextMessage(br.Rest(), open), ops)
    {
      hide NextMessage, PartWay, Agrees, Effort;
      ghost var before, rest := ops, br.Rest();
      stop := HandleControl(live, f);
      ControlStep(total, ops0, from, open, f, rest, before, ops, t.s.closed);
    }

    /** Reads a frame. A failed read or, unless the context is live, a cancellation ends the Read with `r`. */
    method ReadOne(live: bool, open: Open, ghost total: Next, ghost ops0: seq<Gate.Op>)
      returns (r: Option<ReadResult>, f: Frame)
      requires Valid() && PartWay(total, ops0, NextMessage(br.Rest(), open), ops)
      modifies br, t.Repr, t.s`incoming
      ensures Valid() && ops0 <= ops && old(t.Repr) <= t.Repr && fresh(t.Repr - old(t.Repr))
      ensures r.Some? ==> Agrees(r.value, total, ops[|ops0|..], br.Rest(), t.s.closed)
      ensures (live ==> r != Some(Cancelled)) && (r.Some? ==> !r.value.Got?)
      ensures r.None? ==> ParseFrame(old(br.Rest()), false) == Parsed(f, br.Rest())
    {
      hide NextMessage, ParseFrame, PartWay, Agrees;
      ghost var from := br.Rest();
      PartWayCancelled(total, ops0, NextMessage(from, open), ops, from, t.s.closed);
      var cancelled := *;
      var err;
      r, f := None, Frame(false, 0, []);
      if cancelled && !live {
        return Some(Cancelled), f;
      }
      err, f := ReadFrame(br, false);
      if err.Some? {
        r := Some(Fail(BadFrame(err.value)));
        NoFrame(from, open, err.value, br.Rest(), t.s.closed);
        PartWayEnd(total, ops0, NextMessage(from, open), ops, r.value, br.Rest(), t.s.closed);
      }
    }

    /** The same, and deals with the frame if it is a control frame; a close frame ends the Read as well.
        Otherwise `f` is what was read. */
    method ReadStep(live: bool, open: Open, ghost total: Next, ghost ops0: seq<Gate.Op>)
      returns (r: Option<ReadResult>, f: Frame)
      requires Valid() && PartWay(total, ops0, NextMessage(br.Rest(), open), ops)
      modifies this, br, t.Repr, t.s
      ensures Valid() && ops0 <= ops && old(t.Repr) <= t.Repr && fresh(t.Repr - old(t.Repr))
      ensures r.Some? ==> Agrees(r.value, total, ops[|ops0|..], br.Rest(), t.s.closed)
      ensures (live ==> r != Some(Cancelled)) && (r.Some? ==> !r.value.Got?)
      ensures old(ops) <= ops && (r.None? ==> closeSent == old(closeSent))
      ensures t.s.faults >= old(t.s.faults)
      ensures Effort(live, !old(closeSent) && t.s.faults == old(t.s.faults), t.Style(), ops[|old(ops)|..])
      ensures r.None? ==> ParseFrame(old(br.Rest()), false) == Parsed(f, br.Rest()) && f.op != CLOSE
      ensures r.None? && (f.op == PING || f.op == PONG) ==> PartWay(total, ops0, NextMessage(br.Rest(), open), ops)
      ensures r.None? && f.op != PING && f.op != PONG ==> ops == old(ops)
    {
      hide NextMessage, ParseFrame, PartWay, Agrees, Effort;
      ghost var from := br.Rest();
      EffortNone(live, !closeSent, t.Style(), ops);
      r, f := ReadOne(live, open, total, ops0);
      if r.None? && f.op in {PING, PONG, CLOSE} {
        var stop := AnswerControl(live, f, open, total, ops0, from);
        if stop {
          r := Some(Fail(PeerClosed));
        }
      }
    }

    /** Reads up to the next frame that is not a ping or a pong. A failed read, a close frame or, unless the
        context is live, a cancellation ends the Read with `r`; otherwise `f` was found at the front of `from`. */
    method NextData(live: bool, open: Open, ghost total: Next, ghost ops0: seq<Gate.Op>)
      returns (r: Option<ReadResult>, f: Frame, ghost from: seq<byte>)
      requires Valid() && PartWay(total, ops0, NextMessage(br.Rest(), open), ops)
      modifies this, br, t.Repr, t.s
      ensures Valid() && ops0 <= ops && old(t.Repr) <= t.Repr && fresh(t.Repr - old(t.Repr))
      ensures r.Some? ==> Agrees(r.value, total, ops[|ops0|..], br.Rest(), t.s.closed)
      ensures (live ==> r != Some(Cancelled)) && (r.Some? ==> !r.value.Got?)
      ensures old(ops) <= ops && (r.None? ==> closeSent == old(closeSent))
      ensures t.s.faults >= old(t.s.faults)
      ensures Effort(live, !old(closeSent) && t.s.faults == old(t.s.faults), t.Style(), ops[|old(ops)|..])
      ensures r.None? ==> |from| <= |old(br.Rest())| && f.op !in {PING, PONG, CLOSE}
      ensures r.None? ==> ParseFrame(from, false) == Parsed(f, br.Rest())
      ensures r.None? ==> PartWay(total, ops0, NextMessage(from, open), ops)
    {
      hide NextMessage, PartWay, Agrees, Effort;
      from := br.Rest();
      EffortNone(live, !closeSent, t.Style(), ops);
      while true
        invariant Valid() && old(t.Repr) <= t.Repr && fresh(t.Repr - old(t.Repr))
        invariant old(ops) <= ops && closeSent == old(closeSent) && t.s.faults >= old(t.s.faults)
        invariant Effort(live, !closeSent && t.s.faults == old(t.s.faults), t.Style(), ops[|old(ops)|..])
        invariant from == br.Rest() && |from| <= |old(br.Rest())|
        invariant PartWay(total, ops0, NextMessage(from, open), ops)
        decreases |from|
      {
        ghost var ops1, faults1 := ops, t.s.faults;
        r, f := ReadStep(live, open, total, ops0);
        EffortSteps(live, !old(closeSent) && t.s.faults == old(t.s.faults), t.Style(), old(ops), ops1, ops,
                    !old(closeSent) && faults1 == old(t.s.faults), !old(closeSent) && t.s.faults == faults1);
        if r.Some? || (f.op != PING && f.op != PONG) { return; }
        from := br.Rest();
      }
    }

    /** The non-control frame that starts (or fails to start) a message. */
    method HandleFirst(live: bool, f: Frame, ghost before: seq<byte>) returns (r: ReadResult)
      requires Valid() && ParseFrame(before, false) == Parsed(f, br.Rest()) && f.op !in {PING, PONG, CLOSE}
      modifies this, br, t.Repr, t.s
      ensures Valid() && old(ops) <= ops && old(t.Repr) <= t.Repr && fresh(t.Repr - old(t.Repr))
      ensures Agrees(r, NextMessage(before, Idle), ops[|old(ops)|..], br.Rest(), t.s.closed)
      ensures live ==> r != Cancelled
      ensures r.Got? ==> closeSent == old(closeSent)
      ensures t.s.faults >= old(t.s.faults)
      ensures Effort(live, !old(closeSent) && t.s.faults == old(t.s.faults), t.Style(), ops[|old(ops)|..])
    {
      hide NextMessage, ParseFrame, Agrees, Effort;
      EffortNone(live, !closeSent, t.Style(), ops);
      FirstFrame(before, f, br.Rest(), t.s.closed);
      assert ops[|ops|..] == [];
      if f.op == CONTINUATION {
        r := Fail(UnexpectedContinuation);
      } else if f.op == TEXT || f.op == BINARY {
        if f.fin {
          r := Got(f.op, f.payload);
        } else {
          r := ReadFragmentedMessage(live, f.op, f.payload);
        }
      } else {
        r := Fail(ReservedOpcode);
      }
    }

    /** One message, or why there is none; a cancellation only if the context is not live throughout. */
    method Read(live: bool) returns (r: ReadResult)
      requires Valid()
      modifies this, br, t.Repr, t.s
      ensures Valid() && old(ops) <= ops && old(t.Repr) <= t.Repr && fresh(t.Repr - old(t.Repr))
      ensures Agrees(r, NextMessage(old(br.Rest()), Idle), ops[|old(ops)|..], br.Rest(), t.s.closed)
      ensures live ==> r != Cancelled
      ensures r.Got? ==> closeSent == old(closeSent)
      ensures t.s.faults >= old(t.s.faults)
      ensures Effort(live, !old(closeSent) && t.s.faults == old(t.s.faults), t.Style(), ops[|old(ops)|..])
    {
      hide NextMessage, PartWay, Agrees, Effort;
      ghost var total := NextMessage(br.Rest(), Idle);
      PartWayStart(total, ops);
      ghost var from;
      var done, f;
      done, f, from := NextData(live, Idle, total, ops);
      if done.Some? { return done.value; }
      ghost var ops1, faults1 := ops, t.s.faults;
      r := HandleFirst(live, f, from);
      EffortSteps(live, !old(closeSent) && t.s.faults == old(t.s.faults), t.Style(), old(ops), ops1, ops,
                  !old(closeSent) && faults1 == old(t.s.faults), !old(closeSent) && t.s.faults == faults1);
      PartWayDone(total, old(ops), NextMessage(from, Idle), ops1, ops, r, br.Rest(), t.s.closed);
    }

    /** One more fragment of a message that has grown to buf. */
    method NextFragment(live: bool, typ: byte, buf: seq<byte>, ghost total: Next, ghost ops0: seq<Gate.Op>)
      returns (r: Option<ReadResult>, longer: seq<byte>)
      requires Valid() && PartWay(total, ops0, NextMessage(br.Rest(), InMessage(typ, buf)), ops)
      modifies this, br, t.Repr, t.s
      ensures Valid() && ops0 <= ops && old(t.Repr) <= t.Repr && fresh(t.Repr - old(t.Repr))
      ensures r.Some? ==> Agrees(r.value, total, ops[|ops0|..], br.Rest(), t.s.closed)
      ensures live ==> r != Some(Cancelled)
      ensures old(ops) <= ops && (r.None? || r.value.Got? ==> closeSent == old(closeSent))
      ensures t.s.faults >= old(t.s.faults)
      ensures Effort(live, !old(closeSent) && t.s.faults == old(t.s.faults), t.Style(), ops[|old(ops)|..])
      ensures r.None? ==> |br.Rest()| < |old(br.Rest())|
      ensures r.None? ==> PartWay(total, ops0, NextMessage(br.Rest(), InMessage(typ, longer)), ops)
    {
      hide Effort, PartWay, Agrees, NextMessage, ParseFrame;
      ghost var from;
      var f;
      longer := buf;
      r, f, from := NextData(live, InMessage(typ, buf), total, ops0);
      if r.Some? { return; }
      FragmentStep(total, ops0, ops, from, f, br.Rest(), typ, buf, t.s.closed);
      if f.op != CONTINUATION { return Some(Fail(ExpectedContinuation)), buf; }
      longer := buf + f.payload;
      r := if f.fin then Some(Got(typ, longer)) else None;
    }

    method ReadFragmentedMessage(live: bool, typ: byte, first: seq<byte>) returns (r: ReadResult)
      requires Valid()
      modifies this, br, t.Repr, t.s
      ensures Valid() && old(ops) <= ops && old(t.Repr) <= t.Repr && fresh(t.Repr - old(t.Repr))
      ensures Agrees(r, NextMessage(old(br.Rest()), InMessage(typ, first)), ops[|old(ops)|..], br.Rest(), t.s.closed)
      ensures live ==> r != Cancelled
      ensures r.Got? ==> closeSent == old(closeSent)
      ensures t.s.faults >= old(t.s.faults)
      ensures Effort(live, !old(closeSent) && t.s.faults == old(t.s.faults), t.Style(), ops[|old(ops)|..])
    {
      hide NextMessage, PartWay, Agrees, Effort;
      ghost var total := NextMessage(br.Rest(), InMessage(typ, first));
      EffortNone(live, !closeSent, t.Style(), ops);
      PartWayStart(total, ops);
      var buf, done := first, None;
      while done.None?
        invariant Valid() && old(t.Repr) <= t.Repr && fresh(t.Repr - old(t.Repr)) && old(ops) <= ops
        invariant done.None? ==> PartWay(total, old(ops), NextMessage(br.Rest(), InMessage(typ, buf)), ops)
        invariant live ==> done != Some(Cancelled)
        invariant (done.None? || done.value.Got? ==> closeSent == old(closeSent)) && t.s.faults >= old(t.s.faults)
        invariant Effort(live, !old(closeSent) && t.s.faults == old(t.s.faults), t.Style(), ops[|old(ops)|..])
        invariant done.Some? ==> Agrees(done.value, total, ops[|old(ops)|..], br.Rest(), t.s.closed)
        decreases done.None?, |br.Rest()|
      {
        ghost var ops1, faults1 := ops, t.s.faults;
        done, buf := NextFragment(live, typ, buf, total, old(ops));
        EffortSteps(live, !old(closeSent) && t.s.faults == old(t.s.faults), t.Style(), old(ops), ops1, ops,
                    !old(closeSent) && faults1 == old(t.s.faults), !old(closeSent) && t.s.faults == faults1);
      }
      r := done.value;
    }
  }
}
