/**
 The write side of a framed WebSocket connection: every write holds the mutex from the
 close check to its last byte, so a run is a list of operations in lock order.
 */
module CloseGate {
  import opened Bytes
  import opened Transport
  import WSFrame

  /** The encoded frame has to fit a slice too. */
  type Data = d: seq<byte> | |d| < MAX_LEN - 14

  /** An attempt to write. `reached` is how many bytes got to the wire before it failed, if it failed.
      Dropped is an attempt given up before the lock was taken. */
  datatype Op =
    | WriteOp(typ: byte, data: Data, key: WSFrame.Key, reached: nat)
    | CloseOp(data: Data, key: WSFrame.Key, reached: nat)
    | Dropped(typ: byte, data: Data)

  /** A frame as the transport puts it on the wire, and the part of it that got there. */
  datatype Entry = Entry(op: byte, frame: seq<byte>, sent: seq<byte>)

  datatype Gate = Gate(style: Framing, closeSent: bool, log: seq<Entry>)

  function Init(style: Framing): (g: Gate) {
    Gate(style, false, [])
  }

  function Encode(typ: byte, data: Data, key: WSFrame.Key): (s: seq<byte>)
    ensures |data| < |s| <= |data| + 14
  {
    WSFrame.EncodeFrame(WSFrame.Frame(true, typ, data), Some(key))
  }

  function FrameOf(style: Framing, typ: byte, data: Data, key: WSFrame.Key): (s: seq<byte>) {
    OnWire(style, Encode(typ, data, key))
  }

  function EntryOf(style: Framing, typ: byte, data: Data, key: WSFrame.Key, reached: nat): (e: Entry)
  {
    var f := FrameOf(style, typ, data, key);
    Entry(typ % 16, f, if reached < |f| then f[..reached] else f)
  }

  function Apply(g: Gate, op: Op): (g': Gate)
    ensures g'.style == g.style
  {
    match op
    case Dropped(_, _) => g
    case WriteOp(typ, data, key, reached) =>
      if g.closeSent then g else g.(log := g.log + [EntryOf(g.style, typ, data, key, reached)])
    case CloseOp(data, key, reached) =>
      if g.closeSent then g
      else g.(closeSent := true, log := g.log + [EntryOf(g.style, WSFrame.CLOSE, data, key, reached)])
  }

  function Run(g: Gate, ops: seq<Op>): (g': Gate)
    ensures g'.style == g.style
  {
    if ops == [] then g else Apply(Run(g, ops[..|ops| - 1]), ops[|ops| - 1])
  }

  lemma RunSnoc(g: Gate, ops: seq<Op>, op: Op)
    ensures Run(g, ops + [op]) == Apply(Run(g, ops), op)
  {
    hide Apply;
    assert (ops + [op])[..|ops|] == ops;
  }

  /** The bytes on the wire. */
  function Wire(log: seq<Entry>): (s: seq<byte>)
  {
    if log == [] then [] else Wire(log[..|log| - 1]) + log[|log| - 1].sent
  }

  lemma WireSnoc(log: seq<Entry>, e: Entry)
    ensures Wire(log + [e]) == Wire(log) + e.sent
  {
    assert (log + [e])[..|log|] == log;
  }

  /** Later attempts only add to the wire. */
  lemma {:induction false} WireGrows(g: Gate, ops: seq<Op>, more: seq<Op>) returns (x: seq<byte>)
    ensures Wire(Run(g, ops + more).log) == Wire(Run(g, ops).log) + x
  {
    if more == [] {
      x := [];
      assert ops + more == ops;
    } else {
      var init, op := more[..|more| - 1], more[|more| - 1];
      x := WireGrows(g, ops, init);
      InitOfSum(ops, more);
      var y := ApplyGrows(Run(g, ops + init), op);
      Assoc(Wire(Run(g, ops).log), x, y);
      x := x + y;
    }
  }

  lemma ApplyGrows(g: Gate, op: Op) returns (x: seq<byte>)
    ensures Wire(Apply(g, op).log) == Wire(g.log) + x
  {
    hide EntryOf, Wire;
    x := [];
    if |Apply(g, op).log| > |g.log| {
      var e := Apply(g, op).log[|g.log|];
      WireSnoc(g.log, e);
      x := e.sent;
    }
  }

  /** A write at an open gate adds its frame to the wire, or the part of it that got there. */
  lemma WireOfWrite(g: Gate, op: Op)
    requires op.WriteOp? && !g.closeSent
    ensures var e := EntryOf(g.style, op.typ, op.data, op.key, op.reached);
            !Apply(g, op).closeSent && Wire(Apply(g, op).log) == Wire(g.log) + e.sent
    ensures Complete(g.style, op) ==>
              Wire(Apply(g, op).log) == Wire(g.log) + OnWire(g.style, Encode(op.typ, op.data, op.key))
  {
    WireSnoc(g.log, EntryOf(g.style, op.typ, op.data, op.key, op.reached));
  }

  /** A close frame pushed through the ordinary write path while the gate is open. */
  predicate Bypass(g: Gate, op: Op)
  {
    op.WriteOp? && op.typ % 16 == WSFrame.CLOSE && !g.closeSent
  }

  predicate SomeBypass(style: Framing, ops: seq<Op>)
  {
    ops != [] &&
    (SomeBypass(style, ops[..|ops| - 1]) || Bypass(Run(Init(style), ops[..|ops| - 1]), ops[|ops| - 1]))
  }

  ghost predicate Complete(style: Framing, op: Op)
  {
    match op
    case Dropped(_, _) => true
    case WriteOp(typ, data, key, reached) => reached >= |FrameOf(style, typ, data, key)|
    case CloseOp(data, key, reached) => reached >= |FrameOf(style, WSFrame.CLOSE, data, key)|
  }

  /** A close frame can only be the last entry. */
  ghost predicate CloseIsLast(g: Gate)
  {
    && (forall i | 0 <= i < |g.log| :: g.log[i].op == WSFrame.CLOSE ==> i == |g.log| - 1)
    && (g.closeSent <==> g.log != [] && g.log[|g.log| - 1].op == WSFrame.CLOSE)
  }

  ghost predicate ShutMeansClosed(g: Gate)
  {
    g.closeSent ==> g.log != [] && g.log[|g.log| - 1].op == WSFrame.CLOSE
  }

  lemma ApplyCloseIsLast(g: Gate, op: Op)
    requires ShutMeansClosed(g)
    ensures ShutMeansClosed(Apply(g, op))
    ensures CloseIsLast(Apply(g, op)) <==> CloseIsLast(g) && !Bypass(g, op)
  {
    hide FrameOf;
    var g' := Apply(g, op);
    assert g.log <= g'.log;
    if !CloseIsLast(g) && |g'.log| > |g.log| {
      var i :| 0 <= i < |g.log| && g.log[i].op == WSFrame.CLOSE;
      assert g'.log[i].op == WSFrame.CLOSE;
    }
  }

  /** In every interleaving at most one close frame reaches the wire and nothing follows it,
      if and only if no caller writes a close frame past sendClose. */
  lemma {:induction false} CloseIsFinal(style: Framing, ops: seq<Op>)
    ensures ShutMeansClosed(Run(Init(style), ops))
    ensures CloseIsLast(Run(Init(style), ops)) <==> !SomeBypass(style, ops)
  {
    if ops != [] {
      CloseIsFinal(style, ops[..|ops| - 1]);
      ApplyCloseIsLast(Run(Init(style), ops[..|ops| - 1]), ops[|ops| - 1]);
    }
  }

  lemma RunTwo(g: Gate, a: Op, b: Op)
    ensures Run(g, [a, b]) == Apply(Apply(g, a), b)
  {
    hide Apply;
    RunSnoc(g, [], a);
    RunSnoc(g, [a], b);
    assert [] + [a] == [a] && [a] + [b] == [a, b];
  }

  lemma CloseThenMore(g: Gate)
    requires |g.log| > 1 && g.log[0].op == WSFrame.CLOSE
    ensures !CloseIsLast(g)
  {
  }

  lemma WriteLogged(g: Gate, op: Op)
    requires op.WriteOp? && !g.closeSent
    ensures var g' := Apply(g, op);
            !g'.closeSent && |g'.log| == |g.log| + 1 && g.log <= g'.log && g'.log[|g.log|].op == op.typ % 16
  {
    hide FrameOf;
  }

  /** Such a caller: a close frame through the ordinary path, and a data frame goes out behind it. */
  lemma DataAfterClose(style: Framing, key: WSFrame.Key, reached: nat)
    ensures var ops := [WriteOp(WSFrame.CLOSE, [], key, reached), WriteOp(WSFrame.BINARY, [], key, reached)];
            var log := Run(Init(style), ops).log;
            && |log| == 2 && log[0].op == WSFrame.CLOSE && log[1].op == WSFrame.BINARY
            && !CloseIsLast(Run(Init(style), ops))
  {
    var close, data := WriteOp(WSFrame.CLOSE, [], key, reached), WriteOp(WSFrame.BINARY, [], key, reached);
    var start := Init(style);
    hide Apply, Run, CloseIsLast;
    RunTwo(start, close, data);
    WriteLogged(start, close);
    WriteLogged(Apply(start, close), data);
    CloseThenMore(Run(start, [close, data]));
  }

  /** Once the close frame is out, no later operation changes anything. */
  lemma {:induction false} ClosedForGood(g: Gate, before: seq<Op>, after: seq<Op>)
    requires Run(g, before).closeSent
    ensures Run(g, before + after) == Run(g, before)
  {
    hide EntryOf;
    if after == [] {
      assert before + after == before;
    } else {
      ClosedForGood(g, before, after[..|after| - 1]);
      InitOfSum(before, after);
    }
  }

  /** The wire after the first close operation is the wire for ever, whatever is attempted later. */
  lemma NothingFollowsClose(style: Framing, before: seq<Op>, close: Op, after: seq<Op>)
    requires close.CloseOp?
    ensures Wire(Run(Init(style), before + [close] + after).log) == Wire(Run(Init(style), before + [close]).log)
  {
    RunSnoc(Init(style), before, close);
    ClosedForGood(Init(style), before + [close], after);
  }

  /** The frames the log stands for, in order. */
  function Frames(log: seq<Entry>): (s: seq<byte>)
  {
    if log == [] then [] else Frames(log[..|log| - 1]) + log[|log| - 1].frame
  }

  lemma {:induction false} AllEntriesWhole(style: Framing, ops: seq<Op>)
    requires forall op | op in ops :: Complete(style, op)
    ensures forall e | e in Run(Init(style), ops).log :: e.sent == e.frame
  {
    if ops != [] {
      AllEntriesWhole(style, ops[..|ops| - 1]);
      assert Complete(style, ops[|ops| - 1]);
    }
  }

  lemma {:induction false} WholeEntriesWire(log: seq<Entry>)
    requires forall e | e in log :: e.sent == e.frame
    ensures Wire(log) == Frames(log)
  {
    if log != [] {
      WholeEntriesWire(log[..|log| - 1]);
    }
  }

  /** If no write fails, the wire is a concatenation of whole frames. */
  lemma WireIsWholeFrames(style: Framing, ops: seq<Op>)
    requires forall op | op in ops :: Complete(style, op)
    ensures Wire(Run(Init(style), ops).log) == Frames(Run(Init(style), ops).log)
  {
    AllEntriesWhole(style, ops);
    WholeEntriesWire(Run(Init(style), ops).log);
  }
}
