/**
 The tunnel end to end: DATA frames, WebSocket frames, messages, and the byte stream that the
 caller reads and writes.
 */
module Pipeline {
  import opened Bytes
  import opened Streams
  import opened Transport
  import opened WSFrame
  import opened WSConn
  import Gate = CloseGate
  import H3

  function BinaryPart(typ: byte, p: seq<byte>): (s: seq<byte>) {
    if typ == BINARY then p else []
  }

  /** The bytes a stream reader gets from the unframed bytes s before the first error or close. */
  function Tunnel(s: seq<byte>, open: Open): (bytes: seq<byte>)
    decreases |s|
  {
    match NextMessage(s, open)
    case Stopped(_, _) => []
    case Message(typ, payload, rest, _) => BinaryPart(typ, payload) + Tunnel(rest, Idle)
  }

  // ---- what a conforming server sends ----

  predicate Control(f: Frame) {
    f.op == PING || f.op == PONG
  }

  /** Data frames follow section 5.4 of RFC 6455, pings and pongs fall anywhere, and every message
      that is started is finished. */
  predicate Legal(fs: seq<Frame>, inMessage: bool)
  {
    if fs == [] then !inMessage
    else
      |fs[0].payload| <= MAX_PAYLOAD &&
      if Control(fs[0]) then Legal(fs[1..], inMessage)
      else
        && (if inMessage then fs[0].op == CONTINUATION else fs[0].op == TEXT || fs[0].op == BINARY)
        && Legal(fs[1..], !fs[0].fin)
  }

  /** The payloads of the frames of binary messages, in order. `typ` is the type of the message
      the frames are in the middle of. */
  function Payloads(fs: seq<Frame>, typ: byte): (s: seq<byte>)
  {
    if fs == [] then []
    else if Control(fs[0]) then Payloads(fs[1..], typ)
    else
      var typ' := if fs[0].op == CONTINUATION then typ else fs[0].op;
      (if typ' == BINARY then fs[0].payload else []) + Payloads(fs[1..], typ')
  }

  predicate Sized(fs: seq<Frame>) {
    forall i | 0 <= i < |fs| :: |fs[i].payload| <= MAX_PAYLOAD
  }

  function ServerBytes(fs: seq<Frame>): (s: seq<byte>)
    requires Sized(fs)
  {
    if fs == [] then [] else EncodeFrame(fs[0], None) + ServerBytes(fs[1..])
  }

  lemma {:induction false} LegalSizes(fs: seq<Frame>, inMessage: bool)
    requires Legal(fs, inMessage)
    ensures Sized(fs) && forall i | 0 <= i < |fs| :: fs[i].op < 16
  {
    if fs != [] {
      LegalSizes(fs[1..], if Control(fs[0]) then inMessage else !fs[0].fin);
    }
  }

  // ---- inbound ----

  function Held(open: Open): (s: seq<byte>) {
    match open
    case Idle => []
    case InMessage(typ, acc) => BinaryPart(typ, acc)
  }

  function TypeOf(open: Open): (typ: byte) {
    match open
    case Idle => TEXT
    case InMessage(typ, _) => typ
  }

  /** What a frame completes, and the message it leaves open. */
  function Completed(v: Verdict): (s: seq<byte>) {
    if v.Deliver? then BinaryPart(v.typ, v.payload) else []
  }

  function Left(v: Verdict): (open: Open) {
    if v.Continue? then v.open else Idle
  }

  /** One well-formed frame in front of the bytes changes the tunnel as OnFrame says. */
  lemma TunnelFrame(f: Frame, rest: seq<byte>, open: Open)
    requires |f.payload| <= MAX_PAYLOAD && f.op < 16
    ensures var v := OnFrame(f, open);
            Tunnel(EncodeFrame(f, None) + rest, open) == if v.Halt? then [] else Completed(v) + Tunnel(rest, Left(v))
  {
    RoundTrip(f, None, rest);
  }

  /** Outside a message the remembered type does not matter. */
  lemma {:induction false} PayloadsType(fs: seq<Frame>, t: byte, t': byte)
    requires Legal(fs, false)
    ensures Payloads(fs, t) == Payloads(fs, t')
  {
    if fs != [] && Control(fs[0]) {
      PayloadsType(fs[1..], t, t');
    }
  }

  /** What is held and what follows, against what a frame completes, holds and leaves. */
  ghost predicate Conserves(fs: seq<Frame>, open: Open)
    requires fs != []
  {
    var v := OnFrame(fs[0], open);
    && !v.Halt? && Legal(fs[1..], Left(v).InMessage?)
    && Held(open) + Payloads(fs, TypeOf(open)) == Completed(v) + (Held(Left(v)) + Payloads(fs[1..], TypeOf(Left(v))))
  }

  lemma StartConserves(fs: seq<Frame>)
    requires fs != [] && Legal(fs, false) && !Control(fs[0])
    ensures Conserves(fs, Idle)
  {
    var f := fs[0];
    var part, rest := BinaryPart(f.op, f.payload), Payloads(fs[1..], f.op);
    assert [] + (part + rest) == part + rest;
    if f.fin {
      PayloadsType(fs[1..], TEXT, f.op);
      assert [] + rest == rest;
    }
  }

  lemma ContinuationConserves(fs: seq<Frame>, typ: byte, acc: seq<byte>)
    requires fs != [] && Legal(fs, true) && !Control(fs[0])
    ensures Conserves(fs, InMessage(typ, acc))
  {
    var f, rest := fs[0], Payloads(fs[1..], typ);
    assert Payloads(fs, typ) == BinaryPart(typ, f.payload) + rest;
    hide BinaryPart, Payloads;
    Assoc(BinaryPart(typ, acc), BinaryPart(typ, f.payload), rest);
    PartsJoin(typ, acc, f.payload);
    if f.fin {
      PayloadsType(fs[1..], TEXT, typ);
      assert [] + rest == rest;
    } else {
      var all := BinaryPart(typ, acc + f.payload) + rest;
      assert [] + all == all;
    }
  }

  lemma PartsJoin(typ: byte, p: seq<byte>, q: seq<byte>)
    ensures BinaryPart(typ, p) + BinaryPart(typ, q) == BinaryPart(typ, p + q)
  {
  }

  lemma PayloadsStep(fs: seq<Frame>, open: Open)
    requires fs != [] && Legal(fs, open.InMessage?)
    ensures Conserves(fs, open)
  {
    if Control(fs[0]) {
      var all := Held(open) + Payloads(fs, TypeOf(open));
      assert [] + all == all;
    } else {
      match open
      case Idle => StartConserves(fs);
      case InMessage(typ, acc) => ContinuationConserves(fs, typ, acc);
    }
  }

  /** A legal list of frames contributes its binary payloads and leaves the reader idle. */
  lemma {:induction false} TunnelFrames(fs: seq<Frame>, open: Open, tail: seq<byte>)
    requires Legal(fs, open.InMessage?)
    requires Sized(fs)
    ensures Tunnel(ServerBytes(fs) + tail, open)
         == (Held(open) + Payloads(fs, TypeOf(open))) + Tunnel(tail, Idle)
  {
    if fs == [] {
      assert ServerBytes(fs) + tail == tail;
    } else {
      var v, rest := OnFrame(fs[0], open), ServerBytes(fs[1..]) + tail;
      PayloadsStep(fs, open);
      TunnelFrame(fs[0], rest, open);
      Assoc(EncodeFrame(fs[0], None), ServerBytes(fs[1..]), tail);
      TunnelFrames(fs[1..], Left(v), tail);
      Assoc(Completed(v), Held(Left(v)) + Payloads(fs[1..], TypeOf(Left(v))), Tunnel(tail, Idle));
    }
  }

  // ---- and what the reader sends back ----

  /** The replies that Reads attempt on the bytes s before the first error or close, and with it. */
  function Replies(s: seq<byte>, open: Open): (rs: seq<Reply>)
    decreases |s|
  {
    match NextMessage(s, open)
    case Stopped(_, rs) => rs
    case Message(_, _, rest, rs) => rs + Replies(rest, Idle)
  }

  /** What a frame is answered with. */
  function Answer(v: Verdict): (rs: seq<Reply>) {
    if v.Deliver? then [] else v.replies
  }

  lemma RepliesBefore(s: seq<byte>, open: Open, rs: seq<Reply>, rest: seq<byte>, open': Open)
    requires NextMessage(s, open) == Before(rs, NextMessage(rest, open'))
    ensures Replies(s, open) == rs + Replies(rest, open')
  {
    var n := NextMessage(rest, open');
    if n.Message? { Assoc(rs, n.replies, Replies(n.rest, Idle)); }
  }

  lemma RepliesFrame(f: Frame, rest: seq<byte>, open: Open)
    requires |f.payload| <= MAX_PAYLOAD && f.op < 16
    ensures var v := OnFrame(f, open);
            Replies(EncodeFrame(f, None) + rest, open) == Answer(v) + if v.Halt? then [] else Replies(rest, Left(v))
  {
    RoundTrip(f, None, rest);
    var v, s := OnFrame(f, open), EncodeFrame(f, None) + rest;
    match v
    case Continue(open', rs) => RepliesBefore(s, open, rs, rest, open');
    case Deliver(_, _) =>
    case Halt(_, rs) => assert rs + [] == rs;
  }

  /** The payloads of the pings, in order. */
  function Pings(fs: seq<Frame>): (ps: seq<Gate.Data>)
    requires Sized(fs)
  {
    if fs == [] then [] else (if fs[0].op == PING then [fs[0].payload] else []) + Pings(fs[1..])
  }

  function Pongs(ps: seq<Gate.Data>): (rs: seq<Reply>) {
    seq(|ps|, i requires 0 <= i < |ps| => PongReply(ps[i]))
  }

  lemma PongsSum(ps: seq<Gate.Data>, qs: seq<Gate.Data>)
    ensures Pongs(ps + qs) == Pongs(ps) + Pongs(qs)
  {
  }

  /** Legal frames are answered with one pong per ping, with its payload and in order, and with nothing else. */
  lemma {:induction false} RepliesFrames(fs: seq<Frame>, open: Open, tail: seq<byte>)
    requires Legal(fs, open.InMessage?) && Sized(fs)
    ensures Replies(ServerBytes(fs) + tail, open) == Pongs(Pings(fs)) + Replies(tail, Idle)
  {
    if fs == [] {
      assert ServerBytes(fs) + tail == tail && Pongs([]) + Replies(tail, Idle) == Replies(tail, Idle);
    } else {
      var f, v, rest := fs[0], OnFrame(fs[0], open), ServerBytes(fs[1..]) + tail;
      var here: seq<Gate.Data> := if f.op == PING then [f.payload] else [];
      PayloadsStep(fs, open);
      assert Answer(v) == Pongs(here);
      RepliesFrame(f, rest, open);
      Assoc(EncodeFrame(f, None), ServerBytes(fs[1..]), tail);
      RepliesFrames(fs[1..], Left(v), tail);
      PongsSum(here, Pings(fs[1..]));
      Assoc(Pongs(here), Pongs(Pings(fs[1..])), Replies(tail, Idle));
    }
  }

  /** The same through any cutting into DATA frames. */
  lemma InboundReplies(fs: seq<Frame>, tail: seq<byte>, chunks: seq<seq<byte>>, rest: seq<byte>)
    requires Legal(fs, false) && Sized(fs)
    requires forall c | c in chunks :: |c| <= H3.MAX_DATA_FRAME
    requires Concat(chunks) == ServerBytes(fs) + tail
    ensures Replies(H3.Deliver(H3.DataFrames(chunks) + rest).data, Idle)
         == Pongs(Pings(fs)) + Replies(tail + H3.Deliver(rest).data, Idle)
  {
    H3.DeliverChunks(chunks, rest);
    Assoc(ServerBytes(fs), tail, H3.Deliver(rest).data);
    RepliesFrames(fs, Idle, tail + H3.Deliver(rest).data);
  }

  /** Between two points of a run of Reads: the attempts since ops0 answer the first of `all` the replies, and the
      bytes s call for the others. */
  ghost predicate Replied(all: seq<Reply>, ops0: seq<Gate.Op>, ops: seq<Gate.Op>, s: seq<byte>) {
    && ops0 <= ops && |ops| - |ops0| <= |all|
    && AnswersAll(ops[|ops0|..], all[..|ops| - |ops0|]) && all[|ops| - |ops0|..] == Replies(s, Idle)
  }

  lemma RepliedNone(s: seq<byte>, ops: seq<Gate.Op>)
    ensures Replied(Replies(s, Idle), ops, ops, s)
  {
  }

  lemma RepliedSteps(all: seq<Reply>, ops0: seq<Gate.Op>, ops1: seq<Gate.Op>, s1: seq<byte>, ops2: seq<Gate.Op>,
                     s2: seq<byte>)
    requires Replied(all, ops0, ops1, s1) && Replied(Replies(s1, Idle), ops1, ops2, s2)
    ensures Replied(all, ops0, ops2, s2)
  {
    hide AnswersAll;
    var k, m := |ops1| - |ops0|, |ops2| - |ops1|;
    Suffixes(ops0, ops1, ops2);
    Extend(all, k, m);
    AnswersJoin(ops1[|ops0|..], all[..k], ops2[|ops1|..], all[k..][..m]);
  }

  lemma AnswersJoin(xs: seq<Gate.Op>, rs: seq<Reply>, ys: seq<Gate.Op>, qs: seq<Reply>)
    requires AnswersAll(xs, rs) && AnswersAll(ys, qs)
    ensures AnswersAll(xs + ys, rs + qs)
  {
  }

  lemma RepliedEnd(all: seq<Reply>, ops0: seq<Gate.Op>, ops1: seq<Gate.Op>, s1: seq<byte>, ops2: seq<Gate.Op>)
    requires Replied(all, ops0, ops1, s1) && ops1 <= ops2 && AnswersAll(ops2[|ops1|..], Replies(s1, Idle))
    ensures ops0 <= ops2 && AnswersAll(ops2[|ops0|..], all)
  {
    hide AnswersAll;
    var k := |ops1| - |ops0|;
    Suffixes(ops0, ops1, ops2);
    AnswersJoin(ops1[|ops0|..], all[..k], ops2[|ops1|..], all[k..]);
    assert all == all[..k] + all[k..];
  }

  /** What one finished Read contributes. */
  lemma ReadReplied(r: ReadResult, s: seq<byte>, ops0: seq<Gate.Op>, ops: seq<Gate.Op>, rest: seq<byte>, closed: bool)
    requires ops0 <= ops && Agrees(r, NextMessage(s, Idle), ops[|ops0|..], rest, closed) && !r.Cancelled?
    ensures r.Got? ==> Replied(Replies(s, Idle), ops0, ops, rest)
    ensures r.Fail? ==> AnswersAll(ops[|ops0|..], Replies(s, Idle))
  {
  }

  /**
   Inbound theorem on the wire. A server sends legal frames, then anything; the bytes are cut into DATA
   frames anywhere, and anything may follow. The tunnel delivers exactly the binary payloads of those frames,
   in order, and then whatever comes behind them amounts to.
   */
  lemma Inbound(fs: seq<Frame>, tail: seq<byte>, chunks: seq<seq<byte>>, rest: seq<byte>)
    requires Legal(fs, false) && Sized(fs)
    requires forall c | c in chunks :: |c| <= H3.MAX_DATA_FRAME
    requires Concat(chunks) == ServerBytes(fs) + tail
    ensures Tunnel(H3.Deliver(H3.DataFrames(chunks) + rest).data, Idle)
         == Payloads(fs, TEXT) + Tunnel(tail + H3.Deliver(rest).data, Idle)
  {
    var behind := tail + H3.Deliver(rest).data;
    H3.DeliverChunks(chunks, rest);
    Assoc(ServerBytes(fs), tail, H3.Deliver(rest).data);
    TunnelFrames(fs, Idle, behind);
    assert Held(Idle) + Payloads(fs, TEXT) == Payloads(fs, TEXT);
  }

  /** Section 5.4 of RFC 6455: what may come next, inside and outside a message. */
  predicate Allowed(f: Frame, inMessage: bool) {
    Control(f) || if inMessage then f.op == CONTINUATION else f.op == TEXT || f.op == BINARY
  }

  /** Any other frame, and a close frame in particular, ends the tunnel whatever follows it. */
  lemma IllegalFrameEndsTunnel(f: Frame, junk: seq<byte>, open: Open)
    requires |f.payload| <= MAX_PAYLOAD && f.op < 16 && !Allowed(f, open.InMessage?)
    ensures Tunnel(EncodeFrame(f, None) + junk, open) == []
  {
    TunnelFrame(f, junk, open);
  }

  // ---- outbound ----

  /** Every frame a receiver reads from s, expecting masks, and the error that ends it. */
  function Receive(s: seq<byte>): (r: (seq<Frame>, FrameError))
    decreases |s|
  {
    match ParseFrame(s, true)
    case Failed(e) => ([], e)
    case Parsed(f, rest) => var (fs, e) := Receive(rest); ([f] + fs, e)
  }

  datatype Msg = Msg(typ: byte, data: Gate.Data)

  /** A message, with the mask key its frame happens to be given. */
  datatype Outgoing = Outgoing(m: Msg, key: Key)

  function Encoded(o: Outgoing): (s: seq<byte>)
    ensures |s| <= |o.m.data| + 14
  {
    Gate.Encode(o.m.typ, o.m.data, o.key)
  }

  function AllEncoded(os: seq<Outgoing>): (s: seq<seq<byte>>)
  {
    seq(|os|, i requires 0 <= i < |os| => Encoded(os[i]))
  }

  function Messages(os: seq<Outgoing>): (ms: seq<Msg>)
  {
    seq(|os|, i requires 0 <= i < |os| => os[i].m)
  }

  /** The frames as the receiver should see them. */
  function Sent(ms: seq<Msg>): (fs: seq<Frame>)
  {
    seq(|ms|, i requires 0 <= i < |ms| => Frame(true, ms[i].typ, ms[i].data))
  }

  ghost predicate Sendable(os: seq<Outgoing>) {
    forall i | 0 <= i < |os| :: os[i].m.typ < 16 && |Encoded(os[i])| <= H3.MAX_DATA_FRAME
  }

  lemma ReceiveFrame(f: Frame, key: Key, rest: seq<byte>)
    requires |f.payload| <= MAX_PAYLOAD && f.op < 16
    ensures Receive(EncodeFrame(f, Some(key)) + rest) == ([f] + Receive(rest).0, Receive(rest).1)
  {
    RoundTrip(f, Some(key), rest);
  }

  lemma EncodedCons(os: seq<Outgoing>)
    requires os != []
    ensures AllEncoded(os) == [Encoded(os[0])] + AllEncoded(os[1..])
  {
  }

  lemma SentCons(os: seq<Outgoing>)
    requires os != []
    ensures Sent(Messages(os)) == [Frame(true, os[0].m.typ, os[0].m.data)] + Sent(Messages(os[1..]))
  {
  }

  lemma {:induction false} ReceiveEncoded(os: seq<Outgoing>, rest: seq<byte>)
    requires Sendable(os)
    ensures Receive(Concat(AllEncoded(os)) + rest) == (Sent(Messages(os)) + Receive(rest).0, Receive(rest).1)
  {
    if os == [] {
      assert AllEncoded(os) == [] && Sent(Messages(os)) == [];
      assert Concat([]) + rest == rest;
      assert [] + Receive(rest).0 == Receive(rest).0;
    } else {
      var o := os[0];
      var f := Frame(true, o.m.typ, o.m.data);
      ReceiveEncoded(os[1..], rest);
      EncodedCons(os);
      SentCons(os);
      Assoc(Encoded(o), Concat(AllEncoded(os[1..])), rest);
      ReceiveFrame(f, o.key, Concat(AllEncoded(os[1..])) + rest);
      Assoc([f], Sent(Messages(os[1..])), Receive(rest).0);
    }
  }

  lemma EncodedFits(os: seq<Outgoing>)
    requires Sendable(os)
    ensures forall s | s in AllEncoded(os) :: |s| <= H3.MAX_DATA_FRAME
  {
  }

  /** Outbound theorem on the wire. Encoded messages, one DATA frame each and with any mask keys, followed by
      anything: the peer recovers all the messages in order, and then what follows. */
  lemma Outbound(os: seq<Outgoing>, rest: seq<byte>)
    requires Sendable(os)
    ensures forall s | s in AllEncoded(os) :: |s| <= H3.MAX_DATA_FRAME
    ensures var tail := Receive(H3.Deliver(rest).data);
            Receive(H3.Deliver(H3.DataFrames(AllEncoded(os)) + rest).data) == (Sent(Messages(os)) + tail.0, tail.1)
  {
    EncodedFits(os);
    H3.DeliverChunks(AllEncoded(os), rest);
    ReceiveEncoded(os, H3.Deliver(rest).data);
  }

  /** What the wire gets for each message. */
  function AllOnWire(style: Framing, os: seq<Outgoing>): (s: seq<seq<byte>>)
  {
    seq(|os|, i requires 0 <= i < |os| => OnWire(style, Encoded(os[i])))
  }

  lemma OnWireCons(style: Framing, os: seq<Outgoing>)
    requires os != []
    ensures AllOnWire(style, os) == [OnWire(style, Encoded(os[0]))] + AllOnWire(style, os[1..])
  {
  }

  lemma OnWireSnoc(style: Framing, os: seq<Outgoing>)
    requires os != []
    ensures AllOnWire(style, os) == AllOnWire(style, os[..|os| - 1]) + [OnWire(style, Encoded(os[|os| - 1]))]
  {
  }

  lemma {:induction false} WrappedWire(os: seq<Outgoing>)
    requires Sendable(os)
    ensures forall s | s in AllEncoded(os) :: |s| <= H3.MAX_DATA_FRAME
    ensures Concat(AllOnWire(Wrapped, os)) == H3.DataFrames(AllEncoded(os))
  {
    EncodedFits(os);
    if os == [] {
      assert AllOnWire(Wrapped, os) == [] && AllEncoded(os) == [];
    } else {
      WrappedWire(os[1..]);
      EncodedCons(os);
      OnWireCons(Wrapped, os);
    }
  }

  /** The attempts are completed writes of these messages. */
  ghost predicate Written(style: Framing, os: seq<Outgoing>, ops: seq<Gate.Op>) {
    && |os| == |ops|
    && forall i | 0 <= i < |ops| ::
         && ops[i].WriteOp? && os[i] == Outgoing(Msg(ops[i].typ, ops[i].data), ops[i].key)
         && Gate.Complete(style, ops[i])
  }

  /** The connection's wire after writes that all succeed is the concatenation of their frames. */
  lemma {:induction false} WireOfWrites(style: Framing, os: seq<Outgoing>, ops: seq<Gate.Op>)
    requires Written(style, os, ops)
    ensures !Gate.Run(Gate.Init(style), ops).closeSent
    ensures Gate.Wire(Gate.Run(Gate.Init(style), ops).log) == Concat(AllOnWire(style, os))
  {
    if ops != [] {
      var n := |ops| - 1;
      WireOfWrites(style, os[..n], ops[..n]);
      Gate.WireOfWrite(Gate.Run(Gate.Init(style), ops[..n]), ops[n]);
      OnWireSnoc(style, os);
      ConcatSnoc(AllOnWire(style, os[..n]), OnWire(style, Encoded(os[n])));
    }
  }

  // ---- the byte stream ----

  /** Where a run of Reads has got to: the attempts made, the bytes left, and the state of the gate and the stream. */
  datatype Point = Point(ops: seq<Gate.Op>, rest: seq<byte>, shut: bool, faults: nat)

  /** Between p and q every ping met has been answered; while the context is live, the gate open and the stream does not
      fail, the answers are on the wire. A failed Read has answered everything there was. */
  ghost predicate Answered(live: bool, failed: Option<ReadResult>, style: Framing, p: Point, q: Point) {
    && p.ops <= q.ops && p.faults <= q.faults
    && Effort(live, !p.shut && q.faults == p.faults, style, q.ops[|p.ops|..])
    && (failed.None? ==> q.shut == p.shut && Replied(Replies(p.rest, Idle), p.ops, q.ops, q.rest))
    && (failed.Some? && failed.value.Fail? ==> AnswersAll(q.ops[|p.ops|..], Replies(p.rest, Idle)))
  }

  /** What one Read does to the bytes of the tunnel. */
  lemma ReadTunnel(r: ReadResult, s: seq<byte>, ops: seq<Gate.Op>, rest: seq<byte>, closed: bool)
    requires Agrees(r, NextMessage(s, Idle), ops, rest, closed)
    ensures r.Got? ==> |rest| < |s|
    ensures r.Got? && r.typ == BINARY ==> [] + Tunnel(s, Idle) == r.payload + Tunnel(rest, Idle)
    ensures r.Got? && r.typ != BINARY ==> [] + Tunnel(s, Idle) == [] + Tunnel(rest, Idle)
    ensures r.Fail? ==> [] + Tunnel(s, Idle) == []
  {
    assert [] + Tunnel(s, Idle) == Tunnel(s, Idle);
  }

  /** And to what has been answered. */
  lemma ReadAnswered(live: bool, r: ReadResult, style: Framing, p: Point, q: Point, closed: bool)
    requires p.ops <= q.ops && p.faults <= q.faults && (r.Got? ==> q.shut == p.shut)
    requires Effort(live, !p.shut && q.faults == p.faults, style, q.ops[|p.ops|..])
    requires Agrees(r, NextMessage(p.rest, Idle), q.ops[|p.ops|..], q.rest, closed)
    ensures Answered(live, if r.Got? then None else Some(r), style, p, q)
  {
    if !r.Cancelled? { ReadReplied(r, p.rest, p.ops, q.ops, q.rest, closed); }
  }

  lemma AnsweredNone(live: bool, style: Framing, p: Point)
    ensures Answered(live, None, style, p, p)
  {
    RepliedNone(p.rest, p.ops);
    EffortNone(live, !p.shut, style, p.ops);
  }

  lemma AnsweredSteps(live: bool, failed: Option<ReadResult>, style: Framing, p: Point, q: Point, r: Point)
    requires Answered(live, None, style, p, q) && Answered(live, failed, style, q, r)
    ensures Answered(live, failed, style, p, r)
  {
    hide Replied, Effort, Replies, AnswersAll;
    EffortSteps(live, !p.shut && r.faults == p.faults, style, p.ops, q.ops, r.ops,
                !p.shut && q.faults == p.faults, !q.shut && r.faults == q.faults);
    if failed.None? {
      RepliedSteps(Replies(p.rest, Idle), p.ops, q.ops, q.rest, r.ops, r.rest);
    } else if failed.value.Fail? {
      RepliedEnd(Replies(p.rest, Idle), p.ops, q.ops, q.rest, r.ops);
    }
  }

  class WSStreamConn {
    const c: FramedWSConn
    var rb: seq<byte>

    ghost predicate Valid()
      reads this, c, c.t, c.t.Repr, c.t.s`outgoing
    {
      c.Valid() && this !in c.t.Repr
    }

    /** Everything later reads can return. */
    ghost function Remaining(): seq<byte>
      reads this, c, c.br, c.t, c.t.Repr, c.t.s`outgoing, c.t.s`incoming
      requires Valid()
    {
      rb + Tunnel(c.br.Rest(), Idle)
    }

    constructor (c: FramedWSConn)
      requires c.Valid()
      ensures Valid() && this.c == c && Remaining() == Tunnel(c.br.Rest(), Idle)
    {
      this.c := c;
      rb := [];
      new;
      Front([], 0, Tunnel(c.br.Rest(), Idle));
    }

    ghost function Here(): Point
      reads this, c, c.br, c.t, c.t.Repr, c.t.s
      requires Valid()
    {
      Point(c.ops, c.br.Rest(), c.closeSent, c.t.s.faults)
    }

    /** Fetches one message; a binary one becomes the residual buffer. */
    method LoadMessage(live: bool) returns (failed: Option<ReadResult>)
      requires Valid() && rb == []
      modifies this, c, c.br, c.t.Repr, c.t.s
      ensures Valid() && old(c.t.Repr) <= c.t.Repr && fresh(c.t.Repr - old(c.t.Repr))
      ensures failed.None? ==> Remaining() == old(Remaining()) && |c.br.Rest()| < |old(c.br.Rest())|
      ensures failed.Some? ==> failed.value.Cancelled? || (failed.value.Fail? && old(Remaining()) == [])
      ensures live ==> failed != Some(Cancelled)
      ensures failed.Some? ==> rb == []
      ensures Answered(live, failed, c.t.Style(), old(Here()), Here())
    {
      hide Answered, Agrees, Effort, NextMessage, Tunnel, BinaryPart;
      ghost var start := Here();
      var r := c.Read(live);
      ReadAnswered(live, r, c.t.Style(), start, Here(), c.t.s.closed);
      ReadTunnel(r, start.rest, c.ops[|start.ops|..], c.br.Rest(), c.t.s.closed);
      if !r.Got? { return Some(r); }
      if r.typ == BINARY {
        rb := r.payload;
      }
      return None;
    }

    /** Loads messages until there is something to hand out. */
    method Advance(live: bool) returns (failed: Option<ReadResult>)
      requires Valid()
      modifies this, c, c.br, c.t.Repr, c.t.s
      ensures Valid() && old(c.t.Repr) <= c.t.Repr && fresh(c.t.Repr - old(c.t.Repr))
      ensures failed.None? ==> rb != [] && Remaining() == old(Remaining())
      ensures failed.Some? ==> failed.value.Cancelled? || (failed.value.Fail? && old(Remaining()) == [])
      ensures live ==> failed != Some(Cancelled)
      ensures Answered(live, failed, c.t.Style(), old(Here()), Here())
    {
      hide Answered, Remaining;
      ghost var all, start := Remaining(), Here();
      failed := None;
      AnsweredNone(live, c.t.Style(), start);
      while rb == []
        invariant Valid() && old(c.t.Repr) <= c.t.Repr && fresh(c.t.Repr - old(c.t.Repr))
        invariant failed.None? && Remaining() == all && Answered(live, None, c.t.Style(), start, Here())
        decreases |c.br.Rest()|
      {
        ghost var before := Here();
        failed := LoadMessage(live);
        AnsweredSteps(live, failed, c.t.Style(), start, before, Here());
        if failed.Some? { return; }
      }
    }

    /** The bytes returned are the next bytes of the tunnel; an error other than cancellation means
        there were none left. */
    method Read(p: array<byte>, live: bool) returns (n: nat, failed: Option<ReadResult>)
      requires Valid() && p !in c.t.Repr
      modifies this, c, c.br, c.t.Repr, c.t.s, p
      ensures Valid() && old(c.t.Repr) <= c.t.Repr && fresh(c.t.Repr - old(c.t.Repr))
      ensures failed.None? ==> n <= p.Length && p[..n] + Remaining() == old(Remaining())
      ensures failed.None? && p.Length > 0 ==> n > 0
      ensures failed.Some? ==> failed.value.Cancelled? || (failed.value.Fail? && old(Remaining()) == [])
      ensures live ==> failed != Some(Cancelled)
      ensures Answered(live, failed, c.t.Style(), old(Here()), Here())
    {
      hide Answered, Remaining;
      failed := Advance(live);
      if failed.Some? { return 0, failed; }
      n := CopyOut(p);
    }

    /** Copies what fits of the residual buffer into p. */
    method CopyOut(p: array<byte>) returns (n: nat)
      requires Valid() && p !in c.t.Repr
      modifies this, p
      ensures Valid() && n <= p.Length && p[..n] + Remaining() == old(Remaining()) && Here() == old(Here())
      ensures p.Length > 0 && old(rb) != [] ==> n > 0
    {
      hide Tunnel;
      ghost var rest := Tunnel(c.br.Rest(), Idle);
      n := if p.Length < |rb| then p.Length else |rb|;
      forall i | 0 <= i < n {
        p[i] := rb[i];
      }
      assert p[..n] == rb[..n];
      Front(rb, n, rest);
      rb := rb[n..];
    }

    /** One binary message per write, all of it unless the write fails. */
    method Write(p: Gate.Data, giveUp: bool) returns (n: nat, failed: bool)
      requires Valid()
      modifies c`ops, c`log, c.t.s`outgoing, c.t.s`faults
      ensures Valid() && old(c.ops) <= c.ops && |c.ops| == |old(c.ops)| + 1
      ensures failed <==> giveUp || c.closeSent || c.t.s.faults > old(c.t.s.faults)
      ensures n == if failed then 0 else |p|
      ensures !failed ==> var op := c.ops[|c.ops| - 1];
                          op.WriteOp? && op.typ == BINARY && op.data == p && Gate.Complete(c.t.Style(), op)
    {
      failed := c.Write(BINARY, p, giveUp);
      n := if failed then 0 else |p|;
    }
  }

  /** How many of the first n buffers have room. */
  function Roomy(sizes: seq<nat>, n: nat): (k: nat)
    requires n <= |sizes|
  {
    if n == 0 then 0 else Roomy(sizes, n - 1) + if sizes[n - 1] > 0 then 1 else 0
  }

  /** One read into a fresh buffer, in a run of Reads that began at `start`. */
  method ReadSome(w: WSStreamConn, size: nat, live: bool, ghost start: Point)
    returns (data: seq<byte>, failed: Option<ReadResult>)
    requires w.Valid() && Answered(live, None, w.c.t.Style(), start, w.Here())
    modifies w, w.c, w.c.br, w.c.t.Repr, w.c.t.s
    ensures w.Valid() && old(w.c.t.Repr) <= w.c.t.Repr && fresh(w.c.t.Repr - old(w.c.t.Repr))
    ensures failed.None? ==> data + w.Remaining() == old(w.Remaining()) && (size > 0 ==> data != [])
    ensures failed.Some? ==> failed.value.Cancelled? || (failed.value.Fail? && old(w.Remaining()) == [])
    ensures live ==> failed != Some(Cancelled)
    ensures failed.None? ==> Answered(live, None, w.c.t.Style(), start, w.Here())
    ensures failed.Some? && failed.value.Fail? ==> Answered(live, Ending(true), w.c.t.Style(), start, w.Here())
  {
    hide WSStreamConn.Remaining, Answered;
    ghost var before := w.Here();
    var p := new byte[size];
    var n;
    n, failed := w.Read(p, live);
    data := if failed.None? then p[..n] else [];
    AnsweredSteps(live, failed, w.c.t.Style(), start, before, w.Here());
    if failed.Some? && failed.value.Fail? { AnyFailure(live, failed.value, w.c.t.Style(), start, w.Here()); }
  }

  /** A caller that reads with any sequence of buffer sizes until an error: what it collects is a
      prefix of the tunnel's bytes, and all of them once the stream has failed. While its context is live it
      stops for nothing else, and every buffer with room brings at least a byte. */
  method ReadAll(w: WSStreamConn, sizes: seq<nat>, live: bool) returns (out: seq<byte>, ended: bool)
    requires w.Valid()
    modifies w, w.c, w.c.br, w.c.t.Repr, w.c.t.s
    ensures w.Valid()
    ensures out <= old(w.Remaining())
    ensures ended ==> out == old(w.Remaining())
    ensures live && !ended ==> |out| >= Roomy(sizes, |sizes|)
    ensures Answered(live, Ending(ended), w.c.t.Style(), old(w.Here()), w.Here()) || (!live && !ended)
  {
    hide WSStreamConn.Remaining, Answered;
    ghost var all, start := w.Remaining(), w.Here();
    out, ended := [], false;
    AnsweredNone(live, w.c.t.Style(), start);
    for i := 0 to |sizes|
      invariant w.Valid() && fresh(w.c.t.Repr - old(w.c.t.Repr)) && out + w.Remaining() == all
      invariant |out| >= Roomy(sizes, i)
      invariant Answered(live, None, w.c.t.Style(), start, w.Here())
    {
      var data, failed := ReadSome(w, sizes[i], live, start);
      if failed.Some? { return out, failed.value.Fail?; }
      Assoc(out, data, w.Remaining());
      out := out + data;
    }
  }

  /** How a run of Reads that stopped for a failure, or did not, is to be judged. */
  ghost function Ending(ended: bool): (r: Option<ReadResult>) {
    if ended then Some(Fail(PeerClosed)) else None
  }

  lemma AnyFailure(live: bool, r: ReadResult, style: Framing, p: Point, q: Point)
    requires r.Fail? && Answered(live, Some(r), style, p, q)
    ensures Answered(live, Ending(true), style, p, q)
  {
  }

  // ---- the whole stack over HTTP/3 ----

  /** What the peer makes of the wire after completed writes. */
  lemma AllArrive(os: seq<Outgoing>, ops: seq<Gate.Op>)
    requires Sendable(os) && Written(Wrapped, os, ops)
    ensures Receive(H3.Deliver(Gate.Wire(Gate.Run(Gate.Init(Wrapped), ops).log)).data) == (Sent(Messages(os)), Short)
  {
    var wire := Gate.Wire(Gate.Run(Gate.Init(Wrapped), ops).log);
    WireOfWrites(Wrapped, os, ops);
    WrappedWire(os);
    Outbound(os, []);
    assert wire + [] == wire;
    assert Sent(Messages(os)) + [] == Sent(Messages(os));
  }

  /** And after more attempts, whatever they put on the wire. */
  lemma FirstArrive(os: seq<Outgoing>, ops: seq<Gate.Op>, more: seq<Gate.Op>)
    requires Sendable(os) && Written(Wrapped, os, ops)
    ensures Sent(Messages(os)) <= Receive(H3.Deliver(Gate.Wire(Gate.Run(Gate.Init(Wrapped), ops + more).log)).data).0
  {
    var x := Gate.WireGrows(Gate.Init(Wrapped), ops, more);
    WireOfWrites(Wrapped, os, ops);
    WrappedWire(os);
    Outbound(os, x);
  }

  /** The connection that the program builds once CONNECT has been accepted. */
  method Connect(wire: Stream) returns (c: FramedWSConn)
    requires wire.outgoing == []
    ensures c.Valid() && fresh(c) && fresh(c.br) && fresh(c.t) && fresh(c.t.Repr)
    ensures c.t.s == wire && c.t.Style() == Wrapped && c.ops == [] && !c.closeSent
    ensures c.br.Rest() == H3.Deliver(wire.incoming).data
  {
    var h := new H3.H3Stream(wire);
    var t := new Transport.InData(h);
    c := new FramedWSConn(t);
  }

  /**
   Inbound over HTTP/3. The server's legal frames and then anything are cut into DATA frames anywhere, and
   anything may follow on the wire. Whatever buffer sizes the caller reads with, it collects a prefix of the
   binary payloads in order followed by what comes behind them, and all of it once a read has failed. With a
   live context it gets all of it as soon as more buffers with room are offered than there are bytes.
   */
  method ReadOverH3(wire: Stream, sizes: seq<nat>, live: bool, ghost fs: seq<Frame>, ghost tail: seq<byte>,
                    ghost chunks: seq<seq<byte>>, ghost rest: seq<byte>)
    returns (out: seq<byte>, ended: bool)
    requires wire.outgoing == [] && Legal(fs, false) && Sized(fs)
    requires forall c | c in chunks :: |c| <= H3.MAX_DATA_FRAME
    requires Concat(chunks) == ServerBytes(fs) + tail && wire.incoming == H3.DataFrames(chunks) + rest
    modifies wire
    ensures out <= Payloads(fs, TEXT) + Tunnel(tail + H3.Deliver(rest).data, Idle)
    ensures ended ==> out == Payloads(fs, TEXT) + Tunnel(tail + H3.Deliver(rest).data, Idle)
    ensures live && Roomy(sizes, |sizes|) > |Payloads(fs, TEXT) + Tunnel(tail + H3.Deliver(rest).data, Idle)| ==> ended
    ensures live && ended && wire.faults == old(wire.faults) && Fit(PongMsgs(Pings(fs))) ==>
              PeerGets(wire.outgoing, Pings(fs), tail == [] && rest == [])
  {
    hide Answered, PeerGets, Fit, Pings, PongMsgs, Pongs, Replies, Tunnel, Payloads, Legal, Receive;
    Inbound(fs, tail, chunks, rest);
    InboundReplies(fs, tail, chunks, rest);
    var c := Connect(wire);
    var w := new WSStreamConn(c);
    ghost var start := w.Here();
    out, ended := ReadAll(w, sizes, live);
    if live && ended && wire.faults == start.faults && Fit(PongMsgs(Pings(fs))) {
      NothingBehind();
      RunAnswered(start, w.Here(), Pings(fs), Replies(tail + H3.Deliver(rest).data, Idle));
      PeerGetsLess(wire.outgoing, Pings(fs), Replies(tail + H3.Deliver(rest).data, Idle) == [], tail == [] && rest == []);
    }
  }

  lemma PeerGetsLess(wire: seq<byte>, ps: seq<Gate.Data>, all: bool, fewer: bool)
    requires PeerGets(wire, ps, all) && (fewer ==> all)
    ensures PeerGets(wire, ps, fewer)
  {
  }

  lemma NothingBehind()
    ensures Replies([] + H3.Deliver([]).data, Idle) == []
  {
  }

  /** The pongs that the peer should see. */
  function PongMsgs(ps: seq<Gate.Data>): (ms: seq<Msg>) {
    seq(|ps|, i requires 0 <= i < |ps| => Msg(PONG, ps[i]))
  }

  lemma PongAt(ps: seq<Gate.Data>, more: seq<Reply>, ops: seq<Gate.Op>, i: nat)
    requires AnswersAll(ops, Pongs(ps) + more) && Effort(true, true, Wrapped, ops) && i < |ps|
    ensures |ps| <= |ops| && ops[i].WriteOp? && ops[i].typ == PONG && ops[i].data == ps[i]
    ensures Gate.Complete(Wrapped, ops[i])
  {
    hide Gate.Complete;
    assert (Pongs(ps) + more)[i] == PongReply(ps[i]);
    assert Answers(ops[i], PongReply(ps[i]));
  }

  /** The pongs with the keys that they were given. */
  lemma PongsWritten(ps: seq<Gate.Data>, more: seq<Reply>, ops: seq<Gate.Op>) returns (os: seq<Outgoing>)
    requires AnswersAll(ops, Pongs(ps) + more) && Effort(true, true, Wrapped, ops)
    ensures |ps| <= |ops| && Written(Wrapped, os, ops[..|ps|]) && Messages(os) == PongMsgs(ps)
    ensures more == [] ==> ops[..|ps|] == ops
  {
    forall i | 0 <= i < |ps|
      ensures ops[i].WriteOp? && ops[i].typ == PONG && ops[i].data == ps[i] && Gate.Complete(Wrapped, ops[i])
    {
      PongAt(ps, more, ops, i);
    }
    hide Gate.Complete, Effort;
    os := seq(|ps|, i requires 0 <= i < |ps| => Outgoing(Msg(PONG, ps[i]), ops[i].key));
  }

  /** Answers that are all on the wire, the first of them pongs: the peer gets those pongs, and whatever follows. */
  lemma PongsArrive(ps: seq<Gate.Data>, more: seq<Reply>, ops: seq<Gate.Op>)
    requires AnswersAll(ops, Pongs(ps) + more) && Effort(true, true, Wrapped, ops) && Fit(PongMsgs(ps))
    ensures PeerGets(Gate.Wire(Gate.Run(Gate.Init(Wrapped), ops).log), ps, more == [])
  {
    hide AnswersAll, Effort, Written, Sendable, Fit, Messages, PongMsgs, Pongs, Gate.Run, Gate.Wire;
    var os := PongsWritten(ps, more, ops);
    FitSendable(os, PongMsgs(ps));
    if more == [] {
      AllArrive(os, ops);
    } else {
      FirstArrive(os, ops[..|ps|], ops[|ps|..]);
      assert ops[..|ps|] + ops[|ps|..] == ops;
    }
  }

  /** The peer that reads the wire gets these pongs first, and nothing else if there is no more. */
  ghost predicate PeerGets(wire: seq<byte>, ps: seq<Gate.Data>, all: bool) {
    var got := Receive(H3.Deliver(wire).data);
    Sent(PongMsgs(ps)) <= got.0 && (all ==> got == (Sent(PongMsgs(ps)), Short))
  }

  /** A run of Reads from the start that ended with a failed Read, on a stream that did not fail. */
  lemma RunAnswered(p: Point, q: Point, ps: seq<Gate.Data>, more: seq<Reply>)
    requires Answered(true, Ending(true), Wrapped, p, q) && p.ops == [] && !p.shut && q.faults == p.faults
    requires Replies(p.rest, Idle) == Pongs(ps) + more && Fit(PongMsgs(ps))
    ensures PeerGets(Gate.Wire(Gate.Run(Gate.Init(Wrapped), q.ops).log), ps, more == [])
  {
    hide Effort, AnswersAll, Fit, Pongs, PeerGets, Replies;
    assert q.ops[0..] == q.ops;
    PongsArrive(ps, more, q.ops);
  }

  lemma WrittenSnoc(style: Framing, os: seq<Outgoing>, ops: seq<Gate.Op>, m: Msg, op: Gate.Op)
    requires Written(style, os, ops) && op.WriteOp? && Gate.Complete(style, op) && m == Msg(op.typ, op.data)
    ensures Written(style, os + [Outgoing(m, op.key)], ops + [op])
    ensures Messages(os + [Outgoing(m, op.key)]) == Messages(os) + [m]
  {
  }

  /** Messages short enough for one DATA frame each. */
  predicate Fit(ms: seq<Msg>) {
    forall i | 0 <= i < |ms| :: ms[i].typ < 16 && |ms[i].data| + 14 <= H3.MAX_DATA_FRAME
  }

  lemma FitSendable(os: seq<Outgoing>, ms: seq<Msg>)
    requires Fit(ms) && Messages(os) <= ms
    ensures Sendable(os)
  {
    assert forall i | 0 <= i < |os| :: Messages(os)[i] == os[i].m == ms[i];
  }

  method SendOne(c: FramedWSConn, m: Msg, ghost os: seq<Outgoing>) returns (failed: bool, ghost os': seq<Outgoing>)
    requires c.Valid() && !c.closeSent && Written(c.t.Style(), os, c.ops)
    modifies c`ops, c`log, c.t.s`outgoing, c.t.s`faults
    ensures c.Valid() && |c.ops| == |old(c.ops)| + 1 && old(c.ops) <= c.ops && c.ops[|old(c.ops)|].WriteOp?
    ensures failed ==> c.t.s.faults > old(c.t.s.faults)
    ensures !failed ==> c.t.s.faults == old(c.t.s.faults)
    ensures !failed ==> Written(c.t.Style(), os', c.ops) && Messages(os') == Messages(os) + [m]
  {
    ghost var before := c.ops;
    failed := c.Write(m.typ, m.data, false);
    OneMore(before, c.ops);
    ghost var op := c.ops[|before|];
    os' := os + [Outgoing(m, op.key)];
    if !failed { WrittenSnoc(c.t.Style(), os, before, m, op); }
  }

  /** Writes the messages until one fails: the attempts are completed writes of the first `sent` messages, and
      one more if the stream failed. */
  method SendAll(c: FramedWSConn, ms: seq<Msg>) returns (sent: nat, ghost os: seq<Outgoing>, ghost done: seq<Gate.Op>)
    requires c.Valid() && c.ops == [] && !c.closeSent
    modifies c`ops, c`log, c.t.s`outgoing, c.t.s`faults
    ensures c.Valid() && sent <= |ms| && Messages(os) == ms[..sent] && Written(c.t.Style(), os, done)
    ensures sent == |ms| <==> c.t.s.faults == old(c.t.s.faults)
    ensures done <= c.ops && |c.ops| == |done| + if sent == |ms| then 0 else 1
    ensures sent < |ms| ==> c.ops[|done|].WriteOp?
  {
    sent, os, done := 0, [], [];
    while sent < |ms|
      invariant sent <= |ms| && c.Valid() && c.ops == done && c.t.s.faults == old(c.t.s.faults)
      invariant Messages(os) == ms[..sent] && Written(c.t.Style(), os, done)
    {
      ghost var os';
      var failed;
      failed, os' := SendOne(c, ms[sent], os);
      if failed { return; }
      TakeOne(ms, sent);
      os, done, sent := os', c.ops, sent + 1;
    }
  }

  /** What has arrived when SendAll is done. */
  lemma Arrived(ms: seq<Msg>, sent: nat, os: seq<Outgoing>, done: seq<Gate.Op>, ops: seq<Gate.Op>)
    requires sent <= |ms| && Fit(ms) && Messages(os) == ms[..sent] && Written(Wrapped, os, done)
    requires done <= ops && |ops| == |done| + if sent == |ms| then 0 else 1
    requires sent < |ms| ==> ops[|done|].WriteOp?
    ensures var got := Receive(H3.Deliver(Gate.Wire(Gate.Run(Gate.Init(Wrapped), ops).log)).data);
            Sent(ms[..sent]) <= got.0 && (sent == |ms| ==> got == (Sent(ms), Short))
  {
    FitSendable(os, ms);
    if sent == |ms| {
      AllArrive(os, done);
      assert ms[..sent] == ms && ops == done;
    } else {
      OneMore(done, ops);
      FirstArrive(os, done, [ops[|done|]]);
    }
  }

  /**
   Outbound over HTTP/3. The messages are written one after another. A peer that reads DATA frames and then
   masked frames recovers, with type, payload and FIN, every message whose write succeeded, in order, and
   exactly all of them when no write fails; and writes fail only when the stream does.
   */
  method SendOverH3(wire: Stream, ms: seq<Msg>) returns (sent: nat)
    requires wire.outgoing == [] && Fit(ms)
    modifies wire
    ensures sent <= |ms| && (sent == |ms| <==> wire.faults == old(wire.faults))
    ensures Sent(ms[..sent]) <= Receive(H3.Deliver(wire.outgoing).data).0
    ensures sent == |ms| ==> Receive(H3.Deliver(wire.outgoing).data) == (Sent(ms), Short)
  {
    var c := Connect(wire);
    ghost var os, done;
    sent, os, done := SendAll(c, ms);
    Arrived(ms, sent, os, done, c.ops);
  }
}
