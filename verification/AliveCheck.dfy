/** The ping/pong liveness check of an idle standby connection. */
module AliveCheck {
  import opened Bytes
  import opened WSFrame
  import Gate = CloseGate
  import WSConn

  /** What one Read of a connection returns. */
  datatype Item = Item(typ: byte, data: seq<byte>)

  /** Any WSConn: it returns the scripted messages and then fails; unless it is sound, writes may fail at any time. */
  class Conn {
    const sound: bool
    var script: seq<Item>
    var writes: seq<Item> // every attempt, in order

    constructor (script: seq<Item>, sound: bool)
      ensures this.script == script && writes == [] && this.sound == sound
    {
      this.script, writes, this.sound := script, [], sound;
    }

    method Read() returns (failed: bool, m: Item)
      modifies this`script
      ensures failed <==> old(script) == []
      ensures !failed ==> m == old(script)[0] && script == old(script)[1..]
      ensures failed ==> script == []
    {
      m := Item(0, []);
      failed := script == [];
      if !failed {
        m, script := script[0], script[1..];
      }
    }

    method Write(typ: byte, data: seq<byte>) returns (failed: bool)
      modifies this`writes
      ensures writes == old(writes) + [Item(typ, data)] && (sound ==> !failed)
    {
      failed := *;
      failed := failed && !sound;
      writes := writes + [Item(typ, data)];
    }
  }

  predicate Decisive(m: Item) {
    m.typ == PONG || m.typ == CLOSE
  }

  /** Item k is a matching pong and nothing before it is a pong or a close. */
  predicate AnsweredAt(script: seq<Item>, ping: seq<byte>, k: nat)
  {
    && k < |script|
    && (forall i | 0 <= i < k :: !Decisive(script[i]))
    && script[k].typ == PONG && (script[k].data == [] || script[k].data == ping)
  }

  ghost predicate Answered(script: seq<Item>, ping: seq<byte>)
  {
    exists k: nat :: AnsweredAt(script, ping, k)
  }

  /** A pong for every ping, with its payload, in order. */
  function Pongs(items: seq<Item>): (s: seq<Item>)
  {
    if items == [] then []
    else Pongs(items[..|items| - 1]) +
         (if items[|items| - 1].typ == PING then [Item(PONG, items[|items| - 1].data)] else [])
  }

  /**
   True exactly when the ping could be written and the first pong comes before any close or error
   and is empty or echoes the ping; a pong is attempted for every ping met on the way.
   */
  method WsAliveCheck(c: Conn, ping: seq<byte>) returns (pingFailed: bool, ok: bool)
    modifies c
    ensures ok <==> !pingFailed && Answered(old(c.script), ping)
    ensures c.sound ==> !pingFailed
    ensures |c.script| <= |old(c.script)|
    ensures var met := old(c.script)[..|old(c.script)| - |c.script|];
            c.writes == old(c.writes) + [Item(PING, ping)] + Pongs(met)
  {
    ghost var script := c.script;
    pingFailed := c.Write(PING, ping);
    if pingFailed {
      assert script[..0] == [];
      return true, false;
    }
    ghost var k := 0;
    assert script[..0] == [];
    while true
      invariant k <= |script| && c.script == script[k..]
      invariant forall i | 0 <= i < k :: !Decisive(script[i])
      invariant c.writes == old(c.writes) + [Item(PING, ping)] + Pongs(script[..k])
      decreases |c.script|
    {
      var failed, m := c.Read();
      if failed {
        assert k == |script|;
        return false, false;
      }
      assert m == script[k] && script[..k + 1][..k] == script[..k];
      if m.typ == PONG {
        ok := m.data == [] || m.data == ping;
        assert ok ==> AnsweredAt(script, ping, k);
        return false, ok;
      } else if m.typ == PING {
        var _ := c.Write(PONG, m.data);
      } else if m.typ == CLOSE {
        return false, false;
      }
      k := k + 1;
    }
  }

  /** Everything the framed connection's Read surfaces from the bytes s, call after call. */
  function Surfaced(s: seq<byte>): (items: seq<Item>)
    decreases |s|
  {
    match WSConn.NextMessage(s, WSConn.Idle)
    case Stopped(_, _) => []
    case Message(typ, payload, rest, _) => [Item(typ, payload)] + Surfaced(rest)
  }

  /** The framed connection never surfaces a control frame. */
  lemma {:induction false} SurfacesOnlyData(s: seq<byte>)
    ensures forall m | m in Surfaced(s) :: m.typ == TEXT || m.typ == BINARY
    decreases |s|
  {
    var n := WSConn.NextMessage(s, WSConn.Idle);
    if n.Message? {
      WSConn.OnlyDataSurfaces(s, WSConn.Idle);
      SurfacesOnlyData(n.rest);
    }
  }

  /** So over a framed connection the liveness check fails on every wire, live peer or not. */
  lemma NeverAliveOverFrames(s: seq<byte>, ping: seq<byte>)
    ensures !Answered(Surfaced(s), ping)
  {
    SurfacesOnlyData(s);
    var items := Surfaced(s);
    assert forall k | 0 <= k < |items| :: items[k] in items;
  }

  /** One Read takes the first of the items that the wire holds, and fails when there is none. */
  method ReadItem(c: WSConn.FramedWSConn, live: bool) returns (r: WSConn.ReadResult)
    requires c.Valid()
    modifies c, c.br, c.t.Repr, c.t.s
    ensures c.Valid() && old(c.ops) <= c.ops && old(c.t.Repr) <= c.t.Repr && fresh(c.t.Repr - old(c.t.Repr))
    ensures live ==> !r.Cancelled?
    ensures r.Fail? ==> Surfaced(old(c.br.Rest())) == []
    ensures r.Got? ==> |c.br.Rest()| < |old(c.br.Rest())|
    ensures r.Got? ==> Surfaced(old(c.br.Rest())) == [Item(r.typ, r.payload)] + Surfaced(c.br.Rest())
  {
    r := c.Read(live);
  }

  /** What up to max Reads of a framed connection surface: a prefix of what the wire holds, and all of it
      once a Read has failed. With a live context it is cut short by nothing else. */
  method Script(c: WSConn.FramedWSConn, max: nat, live: bool) returns (items: seq<Item>, ended: bool)
    requires c.Valid()
    modifies c, c.br, c.t.Repr, c.t.s
    ensures c.Valid() && items <= Surfaced(old(c.br.Rest())) && (ended ==> items == Surfaced(old(c.br.Rest())))
    ensures live && !ended ==> |items| == max
  {
    hide Surfaced;
    ghost var all := Surfaced(c.br.Rest());
    items, ended := [], false;
    for i := 0 to max
      invariant c.Valid() && fresh(c.t.Repr - old(c.t.Repr)) && items + Surfaced(c.br.Rest()) == all
      invariant |items| == i
    {
      var r := ReadItem(c, live);
      if !r.Got? { return items, r.Fail?; }
      Assoc(items, [Item(r.typ, r.payload)], Surfaced(c.br.Rest()));
      items := items + [Item(r.typ, r.payload)];
    }
  }

  /** The check on a framed connection, over a bare or an HTTP/3 stream: its ping is the first thing it attempts
      to write, and it never succeeds. Once the ping is out it passes over everything the connection surfaces,
      and with a live context it gives up only when a Read has failed. A message longer than can be sent back is
      not answered. */
  method AliveOverFrames(c: WSConn.FramedWSConn, ping: Gate.Data, giveUp: bool, live: bool)
    returns (pingFailed: bool, ok: bool, met: seq<Item>)
    requires c.Valid()
    modifies c, c.br, c.t.Repr, c.t.s
    ensures c.Valid() && !ok && met <= Surfaced(old(c.br.Rest()))
    ensures !pingFailed && live ==> met == Surfaced(old(c.br.Rest()))
    ensures !pingFailed ==> |old(c.ops)| < |c.ops| && Gate.Complete(c.t.Style(), c.ops[|old(c.ops)|])
    ensures |old(c.ops)| < |c.ops| && old(c.ops) <= c.ops && IsPing(c.ops[|old(c.ops)|], ping)
  {
    hide Surfaced, Gate.Complete;
    ghost var all := Surfaced(c.br.Rest());
    ok, met := false, [];
    pingFailed := c.Write(PING, ping, giveUp);
    ghost var ops := c.ops;
    var decided := pingFailed;
    while !decided
      invariant c.Valid() && old(c.t.Repr) <= c.t.Repr && fresh(c.t.Repr - old(c.t.Repr))
      invariant !ok && ops <= c.ops && met <= all
      invariant !decided ==> met + Surfaced(c.br.Rest()) == all
      invariant decided && !pingFailed && live ==> met == all
      decreases !decided, |c.br.Rest()|
    {
      var m;
      decided, ok, m := AliveStep(c, ping, giveUp, live);
      if !decided {
        Assoc(met, [m], Surfaced(c.br.Rest()));
        met := met + [m];
      }
    }
  }

  ghost predicate IsPing(op: Gate.Op, ping: seq<byte>) {
    (op.WriteOp? || op.Dropped?) && op.typ == PING && op.data == ping
  }

  /** One Read of the check: a pong or a close decides, a ping is answered, anything else is passed over. */
  method AliveStep(c: WSConn.FramedWSConn, ping: seq<byte>, giveUp: bool, live: bool)
    returns (decided: bool, ok: bool, m: Item)
    requires c.Valid()
    modifies c, c.br, c.t.Repr, c.t.s
    ensures c.Valid() && !ok && old(c.ops) <= c.ops
    ensures old(c.t.Repr) <= c.t.Repr && fresh(c.t.Repr - old(c.t.Repr))
    ensures !decided ==> |c.br.Rest()| < |old(c.br.Rest())|
    ensures !decided ==> Surfaced(old(c.br.Rest())) == [m] + Surfaced(c.br.Rest())
    ensures decided && live ==> Surfaced(old(c.br.Rest())) == []
  {
    ghost var from := c.br.Rest();
    var r := ReadItem(c, live);
    if !r.Got? { return true, false, Item(0, []); }
    m := Item(r.typ, r.payload);
    decided := r.typ == PONG || r.typ == CLOSE;
    ok := r.typ == PONG && (r.payload == [] || r.payload == ping);
    if r.typ == PING && |r.payload| < MAX_LEN - 14 {
      var _ := c.Write(PONG, r.payload, giveUp);
    }
    SurfacesOnlyData(from);
    assert m == Surfaced(from)[0];
  }
}
