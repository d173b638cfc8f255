/** The raw HTTP/2 stream: the DATA read loop with batched window updates, and chunked writes. */
module RawH2 {
  import opened Bytes
  import FlowControl

  const MAX_CHUNK := 16384

  datatype Frame =
    | DataFrame(stream: nat, data: seq<byte>, end: bool)
    | RstStream(stream: nat)
    | GoAway
    | Other

  // ---- reading ----

  /** What the loop has done: bytes passed on, window updates written, bytes not yet handed back. */
  datatype Progress = Progress(delivered: seq<byte>, updates: seq<nat>, pending: nat)

  const START := Progress([], [], 0)

  function Flush(p: Progress, force: bool): (p': Progress) {
    if p.pending == 0 || (!force && p.pending < FlowControl.UPDATE_BATCH) then p
    else p.(updates := p.updates + [p.pending], pending := 0)
  }

  function Ends(f: Frame): (b: bool) {
    match f
    case DataFrame(stream, _, end) => stream == 1 && end
    case RstStream(stream) => stream == 1
    case GoAway => true
    case Other => false
  }

  function OnFrame(p: Progress, f: Frame): (p': Progress)
  {
    if f.DataFrame? && f.stream == 1 && f.data != [] then
      Flush(p.(delivered := p.delivered + f.data, pending := p.pending + |f.data|), false)
    else p
  }

  /** The frames up to and including the one that ends the loop. */
  function Consumed(fs: seq<Frame>): (r: seq<Frame>) {
    if fs == [] then [] else if Ends(fs[0]) then [fs[0]] else [fs[0]] + Consumed(fs[1..])
  }

  function Payload(f: Frame): (s: seq<byte>) {
    if f.DataFrame? && f.stream == 1 then f.data else []
  }

  function Payloads(fs: seq<Frame>): (s: seq<byte>) {
    if fs == [] then [] else Payload(fs[0]) + Payloads(fs[1..])
  }

  function Sum(xs: seq<nat>): (n: nat) {
    if xs == [] then 0 else Sum(xs[..|xs| - 1]) + xs[|xs| - 1]
  }

  /** Handed back plus pending is what was delivered, and no update but a forced one is short. */
  ghost predicate Accounted(p: Progress) {
    Sum(p.updates) + p.pending == |p.delivered| && p.pending < FlowControl.UPDATE_BATCH && Full(p.updates)
  }

  ghost predicate Full(us: seq<nat>) {
    forall i | 0 <= i < |us| :: us[i] >= FlowControl.UPDATE_BATCH
  }

  lemma FullSnoc(us: seq<nat>, u: nat)
    requires Full(us) && u >= FlowControl.UPDATE_BATCH
    ensures Full(us + [u])
  {
  }

  lemma SumSnoc(xs: seq<nat>, x: nat)
    ensures Sum(xs + [x]) == Sum(xs) + x
  {
    assert (xs + [x])[..|xs|] == xs;
  }

  lemma OnFrameAccounted(p: Progress, f: Frame)
    requires Accounted(p)
    ensures Accounted(OnFrame(p, f)) && OnFrame(p, f).delivered == p.delivered + Payload(f)
  {
    hide Sum, Full;
    var now := p.pending + |Payload(f)|;
    if Payload(f) == [] {
      assert p.delivered + Payload(f) == p.delivered;
    } else if now >= FlowControl.UPDATE_BATCH {
      SumSnoc(p.updates, now);
      FullSnoc(p.updates, now);
    }
  }

  /** The window updates that a list of flushes puts on the wire: connection first, then stream. */
  function Emitted(us: seq<nat>): (r: seq<FlowControl.Update>) {
    if us == [] then []
    else Emitted(us[..|us| - 1]) + [FlowControl.OnConn(us[|us| - 1]), FlowControl.OnStream(us[|us| - 1])]
  }

  /** The loop and the flow-control state agree: same pending, delivered and handed back. */
  ghost predicate Follows(p: Progress, s: FlowControl.State, sent: seq<FlowControl.Update>) {
    && s.running && s.pending == p.pending && s.received == |p.delivered|
    && sent + s.updates == Emitted(p.updates)
  }

  lemma FlushFollows(p: Progress, s: FlowControl.State, sent: seq<FlowControl.Update>)
    requires Follows(p, s, sent) && p.pending > 0
    ensures Follows(p.(updates := p.updates + [p.pending], pending := 0), FlowControl.Flush(s), sent)
  {
    var us := p.updates + [p.pending];
    assert us[..|us| - 1] == p.updates;
    Assoc(sent, s.updates, [FlowControl.OnConn(p.pending), FlowControl.OnStream(p.pending)]);
  }

  /** A DATA frame of the stream is one Receive step of the flow-control protocol. */
  lemma OnFrameIsReceive(p: Progress, f: Frame, s: FlowControl.State, sent: seq<FlowControl.Update>)
    requires Accounted(p) && Follows(p, s, sent) && OnStream(f)
    requires s.data != [] && s.data[0].len == |f.data|
    ensures Follows(OnFrame(p, f), FlowControl.Step(s, FlowControl.Receive, FlowControl.UPDATE_BATCH), sent)
  {
    hide FlowControl.Flush, Emitted, Sum;
    var d := s.data[0];
    var q := p.(delivered := p.delivered + f.data, pending := p.pending + |f.data|);
    var t := s.(data := s.data[1..], pending := s.pending + d.len,
                received := s.received + d.len, lost := s.lost + d.pad);
    if f.data == [] {
      assert p.delivered + f.data == p.delivered;
    } else if q.pending >= FlowControl.UPDATE_BATCH {
      FlushFollows(q, t, sent);
    }
  }

  function OnFrames(p: Progress, fs: seq<Frame>, n: nat): (q: Progress)
    requires n <= |fs|
  {
    if n == 0 then p else OnFrame(OnFrames(p, fs, n - 1), fs[n - 1])
  }

  predicate OnStream(f: Frame) {
    f.DataFrame? && f.stream == 1
  }

  /** The client's protocol, from a window w. */
  ghost predicate Runs(w: nat, es: seq<FlowControl.Event>, s: FlowControl.State) {
    FlowControl.Run(w, FlowControl.UPDATE_BATCH, es, s)
  }

  /** The state before the last event of a run. */
  ghost function BeforeLast(w: nat, es: seq<FlowControl.Event>): (s: FlowControl.State)
    requires es != [] && FlowControl.Exec(w, FlowControl.UPDATE_BATCH, es).Reached?
    ensures Runs(w, es[..|es| - 1], s) && FlowControl.Enabled(s, es[|es| - 1])
    ensures Runs(w, es, FlowControl.Step(s, es[|es| - 1], FlowControl.UPDATE_BATCH))
  {
    FlowControl.Exec(w, FlowControl.UPDATE_BATCH, es[..|es| - 1]).s
  }

  /** The DATA frames that a run consumes, in order. */
  ghost function Taken(w: nat, es: seq<FlowControl.Event>): (ds: seq<FlowControl.Data>)
    requires FlowControl.Exec(w, FlowControl.UPDATE_BATCH, es).Reached?
  {
    if es == [] then []
    else
      var s := BeforeLast(w, es);
      Taken(w, es[..|es| - 1]) + if es[|es| - 1].Receive? then [s.data[0]] else []
  }

  /** The window updates that have reached the peer, in order. */
  ghost function Credited(w: nat, es: seq<FlowControl.Event>): (us: seq<FlowControl.Update>)
    requires FlowControl.Exec(w, FlowControl.UPDATE_BATCH, es).Reached?
  {
    if es == [] then []
    else
      var s := BeforeLast(w, es);
      Credited(w, es[..|es| - 1]) + if es[|es| - 1].Credit? then [s.updates[0]] else []
  }

  /** The stream's frames fs hold the payloads of the DATA frames ds. */
  ghost predicate Carry(fs: seq<Frame>, ds: seq<FlowControl.Data>) {
    |fs| == |ds| && forall i | 0 <= i < |fs| :: OnStream(fs[i]) && |fs[i].data| == ds[i].len
  }

  lemma {:induction false} OnFramesAgree(p: Progress, fs: seq<Frame>, gs: seq<Frame>, n: nat)
    requires n <= |fs| && n <= |gs| && forall i | 0 <= i < n :: fs[i] == gs[i]
    ensures OnFrames(p, fs, n) == OnFrames(p, gs, n)
  {
    if n > 0 { OnFramesAgree(p, fs, gs, n - 1); }
  }

  lemma CreditFollows(p: Progress, s: FlowControl.State, sent: seq<FlowControl.Update>)
    requires Follows(p, s, sent) && s.updates != []
    ensures Follows(p, FlowControl.Step(s, FlowControl.Credit, FlowControl.UPDATE_BATCH), sent + [s.updates[0]])
  {
    var u, rest := s.updates[0], s.updates[1..];
    assert s.updates == [u] + rest;
    Assoc(sent, [u], rest);
  }

  lemma SendFollows(p: Progress, s: FlowControl.State, d: FlowControl.Data, sent: seq<FlowControl.Update>)
    requires Follows(p, s, sent) && FlowControl.Enabled(s, FlowControl.Send(d))
    ensures Follows(p, FlowControl.Step(s, FlowControl.Send(d), FlowControl.UPDATE_BATCH), sent)
  {
  }

  lemma ReceiveFollows(fs: seq<Frame>, s: FlowControl.State, sent: seq<FlowControl.Update>)
    requires fs != [] && s.data != [] && OnStream(fs[|fs| - 1]) && |fs[|fs| - 1].data| == s.data[0].len
    requires var init := fs[..|fs| - 1];
             Accounted(OnFrames(START, init, |init|)) && Follows(OnFrames(START, init, |init|), s, sent)
    ensures Accounted(OnFrames(START, fs, |fs|))
    ensures Follows(OnFrames(START, fs, |fs|), FlowControl.Step(s, FlowControl.Receive, FlowControl.UPDATE_BATCH), sent)
  {
    var n := |fs| - 1;
    OnFramesAgree(START, fs, fs[..n], n);
    OnFrameAccounted(OnFrames(START, fs, n), fs[n]);
    OnFrameIsReceive(OnFrames(START, fs, n), fs[n], s, sent);
  }

  /** What the last event of a run adds to the frames consumed and to the updates credited. */
  lemma LastEvent(w: nat, es: seq<FlowControl.Event>, fs: seq<Frame>)
    requires es != [] && FlowControl.Exec(w, FlowControl.UPDATE_BATCH, es).Reached? && Carry(fs, Taken(w, es))
    ensures var init, e, s := es[..|es| - 1], es[|es| - 1], BeforeLast(w, es);
            && (e.Receive? ==> fs != [] && Carry(fs[..|fs| - 1], Taken(w, init))
                               && OnStream(fs[|fs| - 1]) && |fs[|fs| - 1].data| == s.data[0].len)
            && (!e.Receive? ==> Carry(fs, Taken(w, init)))
            && Credited(w, es) == if e.Credit? then Credited(w, init) + [s.updates[0]] else Credited(w, init)
  {
    var init, e, s := es[..|es| - 1], es[|es| - 1], BeforeLast(w, es);
    if e.Receive? {
      assert Taken(w, es) == Taken(w, init) + [s.data[0]];
    } else {
      assert Taken(w, es) == Taken(w, init);
    }
  }

  /** In every run of the flow-control protocol, whatever the peer does in between, the reader's side is the loop
      over the frames that carry the consumed DATA: same pending count, same bytes, same window updates. */
  lemma {:induction false} LoopFollowsProtocol(w: nat, es: seq<FlowControl.Event>, s: FlowControl.State, fs: seq<Frame>)
    requires Runs(w, es, s) && s.running && Carry(fs, Taken(w, es))
    ensures Accounted(OnFrames(START, fs, |fs|)) && Follows(OnFrames(START, fs, |fs|), s, Credited(w, es))
  {
    if es == [] {
      assert [] + s.updates == [];
    } else {
      var init, e, s0 := es[..|es| - 1], es[|es| - 1], BeforeLast(w, es);
      assert s == FlowControl.Step(s0, e, FlowControl.UPDATE_BATCH);
      assert s0.running && !e.Stop?;
      LastEvent(w, es, fs);
      hide OnFrames, Accounted, Follows, Carry, Taken, Credited, FlowControl.Step;
      if e.Receive? {
        LoopFollowsProtocol(w, init, s0, fs[..|fs| - 1]);
        ReceiveFollows(fs, s0, Credited(w, init));
      } else {
        LoopFollowsProtocol(w, init, s0, fs);
        if e.Credit? {
          CreditFollows(OnFrames(START, fs, |fs|), s0, Credited(w, init));
        } else {
          SendFollows(OnFrames(START, fs, |fs|), s0, e.d, Credited(w, init));
        }
      }
    }
  }

  function Mine(fs: seq<Frame>, n: nat): (r: seq<Frame>)
    requires n <= |fs|
  {
    if n == 0 then [] else Mine(fs, n - 1) + if OnStream(fs[n - 1]) then [fs[n - 1]] else []
  }

  /** Frames of other streams and kinds change nothing. */
  lemma {:induction false} OthersIgnored(p: Progress, fs: seq<Frame>, n: nat)
    requires n <= |fs|
    ensures OnFrames(p, fs, n) == OnFrames(p, Mine(fs, n), |Mine(fs, n)|)
  {
    if n > 0 {
      OthersIgnored(p, fs, n - 1);
      var mine, k := Mine(fs, n), |Mine(fs, n - 1)|;
      if OnStream(fs[n - 1]) {
        OnFramesAgree(p, mine, Mine(fs, n - 1), k);
        assert mine[k] == fs[n - 1];
      } else {
        assert mine == Mine(fs, n - 1);
      }
    }
  }

  /** And the forced flush on the way out is the Stop step. */
  lemma ExitIsStop(p: Progress, s: FlowControl.State, sent: seq<FlowControl.Update>)
    requires Follows(p, s, sent)
    ensures var q, t := Flush(p, true), FlowControl.Step(s, FlowControl.Stop, FlowControl.UPDATE_BATCH);
            t.pending == q.pending == 0 && t.received == |q.delivered| && sent + t.updates == Emitted(q.updates)
  {
    if p.pending > 0 { FlushFollows(p, s, sent); }
  }

  /** Reading on past frames that do not end the loop consumes them, and all there is at the end. */
  lemma {:induction false} ConsumedPrefix(fs: seq<Frame>, n: nat)
    requires n <= |fs| && forall i | 0 <= i < n - 1 :: !Ends(fs[i])
    ensures fs[..n] <= Consumed(fs)
    ensures n == |fs| || (n > 0 && Ends(fs[n - 1])) ==> fs[..n] == Consumed(fs)
  {
    if n > 0 {
      var rest := fs[1..];
      assert fs[..n] == [fs[0]] + rest[..n - 1];
      if !Ends(fs[0]) { ConsumedPrefix(rest, n - 1); }
    }
  }

  /** The loop reads up to the first of: a DATA frame of stream 1 with END_STREAM, a RST_STREAM of stream 1, a GOAWAY. */
  lemma {:induction false} ConsumedMeaning(fs: seq<Frame>)
    ensures var n := |Consumed(fs)|;
            && n <= |fs| && Consumed(fs) == fs[..n]
            && (n < |fs| ==> n > 0 && (fs[n - 1] == GoAway || fs[n - 1] == RstStream(1)
                                       || (fs[n - 1].DataFrame? && fs[n - 1].stream == 1 && fs[n - 1].end)))
            && forall i | 0 <= i < n - 1 :: fs[i] != GoAway && fs[i] != RstStream(1)
                                            && (fs[i].DataFrame? && fs[i].stream == 1 ==> !fs[i].end)
  {
    if fs != [] && !Ends(fs[0]) { ConsumedMeaning(fs[1..]); }
  }

  lemma {:induction false} Delivered(fs: seq<Frame>, n: nat)
    requires n <= |fs|
    ensures Accounted(OnFrames(START, fs, n)) && OnFrames(START, fs, n).delivered == Payloads(fs[..n])
  {
    if n > 0 {
      Delivered(fs, n - 1);
      OnFrameAccounted(OnFrames(START, fs, n - 1), fs[n - 1]);
      PayloadsSnoc(fs[..n - 1], fs[n - 1]);
      assert fs[..n - 1] + [fs[n - 1]] == fs[..n];
    }
  }

  /** Reads frames until one ends the stream, the frames run out or, unless it stays live, the connection is closed. All
      the stream's data is delivered in order, and on exit every delivered byte has been handed back, in
      updates of at least a batch except possibly the last. */
  method ReadLoop(frames: seq<Frame>, live: bool)
    returns (delivered: seq<byte>, updates: seq<nat>, read: nat, closed: bool)
    ensures live ==> !closed
    ensures read <= |frames| && frames[..read] <= Consumed(frames)
    ensures !closed ==> frames[..read] == Consumed(frames)
    ensures delivered == Payloads(frames[..read])
    ensures Sum(updates) == |delivered|
    ensures forall i | 0 <= i < |updates| - 1 :: updates[i] >= FlowControl.UPDATE_BATCH
    ensures Progress(delivered, updates, 0) == Flush(OnFrames(START, frames, read), true)
  {
    var p := START;
    read, closed := 0, false;
    var stop := false;
    while !stop && read < |frames|
      invariant read <= |frames| && p == OnFrames(START, frames, read) && !closed
      invariant forall i | 0 <= i < read - 1 :: !Ends(frames[i])
      invariant stop <==> read > 0 && Ends(frames[read - 1])
      decreases |frames| - read, if stop then 0 else 1
    {
      closed := *; // connection closed, context cancelled, or reading failed
      closed := closed && !live;
      if closed { break; }
      var f := frames[read];
      if f.DataFrame? && f.stream == 1 && f.data != [] {
        p := p.(delivered := p.delivered + f.data, pending := p.pending + |f.data|);
        p := Flush(p, false);
      }
      stop := Ends(f);
      read := read + 1;
    }
    ConsumedPrefix(frames, read);
    Delivered(frames, read);
    FinalFlush(p);
    p := Flush(p, true);
    delivered, updates := p.delivered, p.updates;
  }

  lemma FinalFlush(p: Progress)
    requires Accounted(p)
    ensures var q := Flush(p, true);
            Sum(q.updates) == |q.delivered| && q.delivered == p.delivered
            && forall i | 0 <= i < |q.updates| - 1 :: q.updates[i] >= FlowControl.UPDATE_BATCH
  {
    var q := Flush(p, true);
    if p.pending > 0 {
      assert q.updates[..|q.updates| - 1] == p.updates;
    }
  }

  lemma {:induction false} PayloadsSnoc(fs: seq<Frame>, f: Frame)
    ensures Payloads(fs + [f]) == Payloads(fs) + Payload(f)
  {
    if fs == [] {
      assert fs + [f] == [f];
      assert [f][1..] == [];
    } else {
      PayloadsSnoc(fs[1..], f);
      assert (fs + [f])[1..] == fs[1..] + [f];
      Assoc(Payload(fs[0]), Payloads(fs[1..]), Payload(f));
    }
  }

  // ---- writing ----

  /** Writes p as DATA frames of at most 16 KiB: the chunks put on the wire are p cut in order, all of
      it unless a write fails, which it does only if the connection is not sound. */
  method WriteData(p: seq<byte>, sound: bool) returns (n: nat, failed: bool, chunks: seq<seq<byte>>)
    ensures n <= |p| && Concat(chunks) == p[..n]
    ensures forall i | 0 <= i < |chunks| :: 0 < |chunks[i]| <= 16384
    ensures forall i | 0 <= i < |chunks| - 1 :: |chunks[i]| == 16384
    ensures (!failed ==> n == |p|) && (sound ==> !failed)
  {
    n, failed, chunks := 0, false, [];
    while n < |p|
      invariant n <= |p| && Concat(chunks) == p[..n]
      invariant forall i | 0 <= i < |chunks| :: 0 < |chunks[i]| <= MAX_CHUNK
      invariant n < |p| ==> forall i | 0 <= i < |chunks| :: |chunks[i]| == MAX_CHUNK
      invariant forall i | 0 <= i < |chunks| - 1 :: |chunks[i]| == MAX_CHUNK
    {
      var end := if n + MAX_CHUNK > |p| then |p| else n + MAX_CHUNK;
      var err := *;
      if err && !sound { return n, true, chunks; }
      ConcatSnoc(chunks, p[n..end]);
      assert p[..n] + p[n..end] == p[..end];
      chunks := chunks + [p[n..end]];
      n := end;
    }
    failed := *; // the final flush
    failed := failed && !sound;
  }
}
