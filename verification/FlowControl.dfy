/**
 Receive flow control of the single HTTP/2 stream (section 6.9 of RFC 9113).

 The client hands back credit in batches of B bytes; the peer starts with W bytes of credit on the
 stream and on the connection, and never sends more than both allow. DATA frames and WINDOW_UPDATE
 frames take any time to arrive.
 */
module FlowControl {

  const WINDOW := 65535       // the default; the client never advertises another
  const UPDATE_BATCH := 65536

  /** Flow-controlled length of a DATA frame: payload and padding. */
  datatype Data = Data(len: nat, pad: nat)

  datatype Update = OnConn(n: nat) | OnStream(n: nat)

  datatype State = State(
    conn: nat,             // the peer's remaining credit on the connection
    stream: nat,           // and on the stream
    data: seq<Data>,       // DATA frames on their way to the client
    pending: nat,          // bytes consumed but not handed back
    updates: seq<Update>,  // WINDOW_UPDATE frames on their way to the peer
    received: nat,         // bytes handed to the reader so far
    lost: nat,             // padding received: it is never handed back
    running: bool)

  datatype Event = Send(d: Data) | Receive | Credit | Stop

  function Init(w: nat): (s: State) {
    State(w, w, [], 0, [], 0, 0, true)
  }

  /** flushWindowUpdate: hands everything pending back on both windows. */
  function Flush(s: State): (s': State) {
    if s.pending == 0 then s
    else s.(pending := 0, updates := s.updates + [OnConn(s.pending), OnStream(s.pending)])
  }

  predicate Enabled(s: State, e: Event) {
    match e
    case Send(d) => d.len + d.pad <= s.conn && d.len + d.pad <= s.stream
    case Receive => s.running && s.data != []
    case Credit => s.updates != []
    case Stop => s.running
  }

  function Step(s: State, e: Event, b: nat): (s': State)
    requires Enabled(s, e)
  {
    match e
    case Send(d) => s.(conn := s.conn - d.len - d.pad, stream := s.stream - d.len - d.pad, data := s.data + [d])
    case Receive =>
      var d := s.data[0];
      var s1 := s.(data := s.data[1..], pending := s.pending + d.len,
                   received := s.received + d.len, lost := s.lost + d.pad);
      if d.len > 0 && s1.pending >= b then Flush(s1) else s1
    case Credit =>
      (match s.updates[0]
       case OnConn(n) => s.(conn := s.conn + n, updates := s.updates[1..])
       case OnStream(n) => s.(stream := s.stream + n, updates := s.updates[1..]))
    case Stop => Flush(s).(running := false)
  }

  datatype Outcome = Impossible | Reached(s: State)

  /** The state after a list of events, if each was possible when it happened. */
  function Exec(w: nat, b: nat, es: seq<Event>): (o: Outcome)
  {
    if es == [] then Reached(Init(w))
    else
      var o, e := Exec(w, b, es[..|es| - 1]), es[|es| - 1];
      if o.Reached? && Enabled(o.s, e) then Reached(Step(o.s, e, b)) else Impossible
  }

  /** es is a run from the initial state to s. */
  ghost predicate Run(w: nat, b: nat, es: seq<Event>, s: State) {
    Exec(w, b, es) == Reached(s)
  }

  function InFlight(data: seq<Data>): (n: nat) {
    if data == [] then 0 else data[0].len + data[0].pad + InFlight(data[1..])
  }

  function OnTheWay(us: seq<Update>, stream: bool): (n: nat) {
    if us == [] then 0
    else (if us[0].OnStream? == stream then us[0].n else 0) + OnTheWay(us[1..], stream)
  }

  lemma {:induction false} InFlightSnoc(data: seq<Data>, d: Data)
    ensures InFlight(data + [d]) == InFlight(data) + d.len + d.pad
  {
    if data == [] {
      assert data + [d] == [d];
    } else {
      InFlightSnoc(data[1..], d);
      assert (data + [d])[1..] == data[1..] + [d];
    }
  }

  lemma {:induction false} OnTheWaySnoc(us: seq<Update>, u: Update, stream: bool)
    ensures OnTheWay(us + [u], stream) == OnTheWay(us, stream) + if u.OnStream? == stream then u.n else 0
  {
    if us == [] {
      assert us + [u] == [u];
    } else {
      OnTheWaySnoc(us[1..], u, stream);
      assert (us + [u])[1..] == us[1..] + [u];
    }
  }

  /** Every byte of the window is with the peer, in flight, consumed but pending, on its way back, or
      lost to padding; and less than a batch is ever pending. */
  ghost predicate Conserved(s: State, w: nat, b: nat)
  {
    && s.stream + InFlight(s.data) + s.pending + OnTheWay(s.updates, true) + s.lost == w
    && s.conn + InFlight(s.data) + s.pending + OnTheWay(s.updates, false) + s.lost == w
    && (b > 0 ==> s.pending < b)
  }

  lemma FlushConserves(s: State)
    ensures var s' := Flush(s);
            && s'.pending + OnTheWay(s'.updates, true) == s.pending + OnTheWay(s.updates, true)
            && s'.pending + OnTheWay(s'.updates, false) == s.pending + OnTheWay(s.updates, false)
            && s'.pending == 0
  {
    if s.pending > 0 {
      var us := s.updates + [OnConn(s.pending)];
      OnTheWaySnoc(s.updates, OnConn(s.pending), true);
      OnTheWaySnoc(s.updates, OnConn(s.pending), false);
      OnTheWaySnoc(us, OnStream(s.pending), true);
      OnTheWaySnoc(us, OnStream(s.pending), false);
      assert s.updates + [OnConn(s.pending), OnStream(s.pending)] == us + [OnStream(s.pending)];
    }
  }

  lemma ReceiveConserves(s: State, w: nat, b: nat)
    requires Enabled(s, Receive) && Conserved(s, w, b)
    ensures Conserved(Step(s, Receive, b), w, b)
  {
    var d := s.data[0];
    FlushConserves(s.(data := s.data[1..], pending := s.pending + d.len,
                      received := s.received + d.len, lost := s.lost + d.pad));
  }

  lemma StepConserves(s: State, e: Event, w: nat, b: nat)
    requires Enabled(s, e) && Conserved(s, w, b)
    ensures Conserved(Step(s, e, b), w, b)
  {
    match e
    case Send(d) => InFlightSnoc(s.data, d);
    case Receive => ReceiveConserves(s, w, b);
    case Credit =>
    case Stop => FlushConserves(s);
  }

  /** Conservation holds in every run. */
  lemma {:induction false} Conservation(w: nat, b: nat, es: seq<Event>, s: State)
    requires Run(w, b, es, s)
    ensures Conserved(s, w, b)
  {
    if es != [] {
      var n := |es| - 1;
      var s0 := Exec(w, b, es[..n]).s;
      Conservation(w, b, es[..n], s0);
      StepConserves(s0, es[n], w, b);
    }
  }

  /** Nothing is on its way in either direction. */
  predicate Quiescent(s: State) {
    s.running && s.data == [] && s.updates == []
  }

  /** Once everything has arrived, the peer holds all but less than a batch of the window, less the padding. */
  lemma QuiescentCredit(w: nat, b: nat, es: seq<Event>, s: State)
    requires Run(w, b, es, s) && Quiescent(s) && b > 0
    ensures s.stream == s.conn == w - s.pending - s.lost >= w - b + 1 - s.lost
  {
    Conservation(w, b, es, s);
  }

  /** The connection is dead in the water: all is quiet, and the peer may not send a byte. */
  predicate Stuck(s: State) {
    Quiescent(s) && (s.stream == 0 || s.conn == 0)
  }

  function Pad(e: Event): (n: nat) {
    if e.Send? then e.d.pad else 0
  }

  /** All padding that a run sends. */
  function TotalPad(es: seq<Event>): (n: nat) {
    if es == [] then 0 else TotalPad(es[..|es| - 1]) + Pad(es[|es| - 1])
  }

  function PadInFlight(data: seq<Data>): (n: nat) {
    if data == [] then 0 else data[0].pad + PadInFlight(data[1..])
  }

  lemma {:induction false} PadInFlightSnoc(data: seq<Data>, d: Data)
    ensures PadInFlight(data + [d]) == PadInFlight(data) + d.pad
  {
    if data == [] {
      assert data + [d] == [d];
    } else {
      PadInFlightSnoc(data[1..], d);
      assert (data + [d])[1..] == data[1..] + [d];
    }
  }

  lemma StepPads(s: State, e: Event, b: nat)
    requires Enabled(s, e)
    ensures var s' := Step(s, e, b); s'.lost + PadInFlight(s'.data) == s.lost + PadInFlight(s.data) + Pad(e)
  {
    if e.Send? { PadInFlightSnoc(s.data, e.d); }
  }

  /** What is lost is padding that was sent. */
  lemma {:induction false} LostIsPadding(w: nat, b: nat, es: seq<Event>, s: State)
    requires Run(w, b, es, s)
    ensures s.lost + PadInFlight(s.data) == TotalPad(es)
  {
    if es != [] {
      var n := |es| - 1;
      var s0 := Exec(w, b, es[..n]).s;
      LostIsPadding(w, b, es[..n], s0);
      StepPads(s0, es[n], b);
    }
  }

  /** Sends and consumes j frames of one byte of padding, then i frames of one byte of data. */
  function Trickle(j: nat, i: nat): (es: seq<Event>)
    decreases j + i
  {
    if i > 0 then Trickle(j, i - 1) + [Send(Data(1, 0))] + [Receive]
    else if j > 0 then Trickle(j - 1, 0) + [Send(Data(0, 1))] + [Receive]
    else []
  }

  lemma RunStep(w: nat, b: nat, es: seq<Event>, s: State, e: Event)
    requires Run(w, b, es, s) && Enabled(s, e)
    ensures Run(w, b, es + [e], Step(s, e, b)) && TotalPad(es + [e]) == TotalPad(es) + Pad(e)
  {
    assert (es + [e])[..|es + [e]| - 1] == es;
  }

  /** The state after that, with less than a batch of data. */
  function Trickled(w: nat, j: nat, i: nat): (s: State)
    requires j + i <= w
  {
    State(w - j - i, w - j - i, [], i, [], i, j, true)
  }

  lemma TrickleStep(w: nat, b: nat, j: nat, i: nat, d: Data)
    requires j + i < w && (d == Data(1, 0) || d == Data(0, 1)) && i + d.len < b
    ensures var s := Trickled(w, j, i);
            Enabled(s, Send(d)) && Enabled(Step(s, Send(d), b), Receive)
            && Step(Step(s, Send(d), b), Receive, b) == Trickled(w, j + d.pad, i + d.len)
  {
    var s1 := Step(Trickled(w, j, i), Send(d), b);
    assert s1.data == [d];
    assert s1.data[1..] == [];
  }

  lemma {:induction false} TrickleRuns(w: nat, b: nat, j: nat, i: nat)
    requires j + i <= w && i < b
    ensures Run(w, b, Trickle(j, i), Trickled(w, j, i)) && TotalPad(Trickle(j, i)) == j
    decreases j + i
  {
    if j + i > 0 {
      var d := if i > 0 then Data(1, 0) else Data(0, 1);
      var j0, i0 := j - d.pad, i - d.len;
      TrickleRuns(w, b, j0, i0);
      TrickleStep(w, b, j0, i0, d);
      var s, es := Trickled(w, j0, i0), Trickle(j0, i0);
      RunStep(w, b, es, s, Send(d));
      RunStep(w, b, es + [Send(d)], Step(s, Send(d), b), Receive);
    }
  }

  /** Some run with at most k bytes of padding gets stuck. */
  ghost predicate CanGetStuck(w: nat, b: nat, k: nat) {
    exists es, s :: Run(w, b, es, s) && TotalPad(es) <= k && Stuck(s)
  }

  /** Progress is guaranteed, for runs with at most k bytes of padding, exactly when the batch and the padding
      fit into the window together; without padding, exactly when the batch is no larger than the window. */
  lemma ProgressIff(w: nat, b: nat, k: nat)
    requires w > 0 && b > 0
    ensures !CanGetStuck(w, b, k) <==> b + k <= w
  {
    if b + k <= w {
      forall es, s | Run(w, b, es, s) && TotalPad(es) <= k
        ensures !Stuck(s)
      {
        Conservation(w, b, es, s);
        LostIsPadding(w, b, es, s);
      }
    } else {
      var j := if k < w then k else w;
      TrickleRuns(w, b, j, w - j);
      assert Stuck(Trickled(w, j, w - j));
    }
  }

  /** With a batch larger than the window nothing is ever handed back while the reader runs, and no
      run brings more than the initial window. */
  lemma {:induction false} OversizedBatch(w: nat, b: nat, es: seq<Event>, s: State)
    requires b > w && Run(w, b, es, s)
    ensures s.received <= w && s.pending <= w
    ensures s.running ==> s.updates == [] && s.pending == s.received
    ensures s.running ==> s.stream + InFlight(s.data) + s.received + s.lost == w
  {
    if es != [] {
      var n := |es| - 1;
      var s0 := Exec(w, b, es[..n]).s;
      OversizedBatch(w, b, es[..n], s0);
      Conservation(w, b, es[..n], s0);
      Conservation(w, b, es, s);
    }
  }

  /** This client's constants: the connection can stall, and the stream carries at most 65535 bytes
      before its reader stops. */
  lemma ThisClientStalls()
    ensures WINDOW == 65535 && UPDATE_BATCH == 65536 && CanGetStuck(WINDOW, UPDATE_BATCH, 0)
    ensures forall es, s | Run(WINDOW, UPDATE_BATCH, es, s) && s.running ::
              s.received <= 65535 && s.updates == []
  {
    ProgressIff(WINDOW, UPDATE_BATCH, 0);
    forall es, s | Run(WINDOW, UPDATE_BATCH, es, s) && s.running
      ensures s.received <= 65535 && s.updates == []
    {
      OversizedBatch(WINDOW, UPDATE_BATCH, es, s);
    }
  }
}
