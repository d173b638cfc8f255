/**
 Ownership of warm-standby connections over every interleaving of acquire, ensure, keepalive and
 shutdown. Each region protected by standbyMu is one step; dials and liveness checks take any time
 and may go either way.
 */
module Standby {
  import opened Counting
  import Bytes

  datatype Slot = Slot(up: nat, proto: Proto)

  type Conn = nat

  datatype Kind = Acquire | Ensure | Keepalive

  /** How far an operation has got, with the connection in its hands, if any. */
  datatype Pc =
    | Started                           // ensure: before the health test
    | Healthy                           // ensure: before the look at the slot
    | Dialing(live: bool)               // false if its context was cancelled before the dial began
    | Probing(c: Conn)                  // waiting for the liveness check
    | Have(c: Conn)                     // about to put it into the slot
    | Discarding(c: Conn, redial: bool) // about to close it

  datatype Op = Op(kind: Kind, slot: Slot, pc: Pc)

  /** The goroutine that warms, keeps alive and finally shuts down. `next` is the upstream to sweep. */
  datatype Loop = Serving | Sweeping(next: nat)

  datatype State = State(
    slots: map<Slot, Conn>,     // an absent key is a nil field
    ops: map<nat, Op>,
    handed: multiset<Conn>,     // returned to callers
    closed: multiset<Conn>,     // calls of Close made by this protocol
    dialler: map<Conn, nat>,    // every connection dialled, and the operation that dialled it
    used: set<nat>,             // operation identifiers ever given out
    loop: Loop,
    cancelled: bool,            // the context of the loop and of every ensure
    midDial: set<nat>,          // ensures that were past the start of their dial when it was cancelled
    caught: set<(nat, Slot)>)   // and when the sweep reached their slot

  const INIT := State(map[], map[], multiset{}, multiset{}, map[], {}, Serving, false, {}, {})

  datatype Event =
    | AcquireConn(o: nat, slot: Slot)
    | SpawnEnsure(o: nat, slot: Slot)
    | HealthTest(o: nat, healthy: bool)
    | LookAtSlot(o: nat)
    | DialFailed(o: nat)
    | DialDone(o: nat, c: Conn)
    | Put(o: nat)
    | BeginKeepalive(o: nat, slot: Slot)
    | Probed(o: nat, alive: bool)
    | Discard(o: nat)
    | Cancel
    | BeginShutdown
    | Sweep

  /** An ensure that has begun its dial in time, or has dialled, and has not put the connection away. */
  predicate MidDial(op: Op) {
    op.kind.Ensure? && (op.pc == Dialing(true) || op.pc.Have?)
  }

  ghost predicate NoKeepalive(s: State) {
    forall o | o in s.ops :: s.ops[o].kind != Keepalive
  }

  predicate At(s: State, o: nat, kind: Kind, pc: Pc) {
    o in s.ops && s.ops[o].kind == kind && s.ops[o].pc == pc
  }

  ghost predicate Enabled(s: State, e: Event, pool: nat) {
    match e
    case AcquireConn(o, slot) => o !in s.used && slot.up < pool
    case SpawnEnsure(o, slot) => o !in s.used && slot.up < pool && s.loop.Serving?
    case HealthTest(o, _) => At(s, o, Ensure, Started)
    case LookAtSlot(o) => At(s, o, Ensure, Healthy)
    case DialFailed(o) => o in s.ops && s.ops[o].pc.Dialing?
    case DialDone(o, c) => o in s.ops && s.ops[o].pc == Dialing(true) && c !in s.dialler
    case Put(o) => o in s.ops && s.ops[o].pc.Have?
    case BeginKeepalive(o, slot) => o !in s.used && slot.up < pool && s.loop.Serving? && NoKeepalive(s)
    case Probed(o, _) => o in s.ops && s.ops[o].pc.Probing?
    case Discard(o) => o in s.ops && s.ops[o].pc.Discarding?
    case Cancel => !s.cancelled
    case BeginShutdown => s.cancelled && s.loop.Serving? && NoKeepalive(s)
    case Sweep => s.loop.Sweeping? && s.loop.next < pool
  }

  function WithPc(s: State, o: nat, pc: Pc): (s': State)
    requires o in s.ops
    ensures s'.dialler == s.dialler
  {
    s.(ops := s.ops[o := s.ops[o].(pc := pc)])
  }

  function Drop(s: State, o: nat): (s': State)
    ensures s'.dialler == s.dialler
  {
    s.(ops := s.ops - {o})
  }

  function Begin(s: State, o: nat, op: Op): (s': State)
    ensures s'.dialler == s.dialler
  {
    s.(ops := s.ops[o := op], used := s.used + {o})
  }

  function CloseSlot(s: State, slot: Slot): (s': State)
    ensures s'.dialler == s.dialler
  {
    if slot in s.slots then s.(slots := s.slots - {slot}, closed := s.closed + multiset{s.slots[slot]}) else s
  }

  /** Acquire: a TCP standby has to pass the liveness check first, a UDP one is handed over as it is. */
  function Acquired(s: State, o: nat, slot: Slot): (s': State)
    ensures s'.dialler == s.dialler
  {
    if slot !in s.slots then Begin(s, o, Op(Acquire, slot, Dialing(true)))
    else if slot.proto.UDP? then
      s.(slots := s.slots - {slot}, handed := s.handed + multiset{s.slots[slot]}, used := s.used + {o})
    else Begin(s, o, Op(Acquire, slot, Probing(s.slots[slot]))).(slots := s.slots - {slot})
  }

  function HealthTested(s: State, o: nat, healthy: bool): (s': State)
    requires o in s.ops
    ensures s'.dialler == s.dialler
  {
    if healthy then WithPc(s, o, Healthy) else Drop(CloseSlot(s, s.ops[o].slot), o)
  }

  function Looked(s: State, o: nat): (s': State)
    requires o in s.ops
    ensures s'.dialler == s.dialler
  {
    if s.ops[o].slot in s.slots then Drop(s, o) else WithPc(s, o, Dialing(!s.cancelled))
  }

  function Dialled(s: State, o: nat, c: Conn): (s': State)
    requires o in s.ops
    ensures s'.dialler == s.dialler[c := o]
  {
    var s1 := s.(dialler := s.dialler[c := o]);
    if s.ops[o].kind.Ensure? then WithPc(s1, o, Have(c)) else Drop(s1, o).(handed := s.handed + multiset{c})
  }

  /** Into the slot if it is free; otherwise the connection is a duplicate. */
  function PutInto(s: State, o: nat): (s': State)
    requires o in s.ops && s.ops[o].pc.Have?
    ensures s'.dialler == s.dialler
  {
    var op, c := s.ops[o], s.ops[o].pc.c;
    if op.slot !in s.slots then Drop(s, o).(slots := s.slots[op.slot := c])
    else if op.kind.Ensure? then Drop(s, o).(closed := s.closed + multiset{c})
    else WithPc(s, o, Discarding(c, false))
  }

  function TakenForKeepalive(s: State, o: nat, slot: Slot): (s': State)
    ensures s'.dialler == s.dialler
  {
    if slot !in s.slots then s.(used := s.used + {o})
    else Begin(s, o, Op(Keepalive, slot, Probing(s.slots[slot]))).(slots := s.slots - {slot})
  }

  function AfterProbe(s: State, o: nat, alive: bool): (s': State)
    requires o in s.ops && s.ops[o].pc.Probing?
    ensures s'.dialler == s.dialler
  {
    var op, c := s.ops[o], s.ops[o].pc.c;
    if alive && op.kind.Acquire? then Drop(s, o).(handed := s.handed + multiset{c})
    else if alive then WithPc(s, o, Have(c))
    else WithPc(s, o, Discarding(c, op.kind.Acquire?))
  }

  function Discarded(s: State, o: nat): (s': State)
    requires o in s.ops && s.ops[o].pc.Discarding?
    ensures s'.dialler == s.dialler
  {
    var pc := s.ops[o].pc;
    var s1 := s.(closed := s.closed + multiset{pc.c});
    if pc.redial then WithPc(s1, o, Dialing(true)) else Drop(s1, o)
  }

  function Cancelled(s: State): (s': State)
    ensures s'.dialler == s.dialler
  {
    s.(cancelled := true, midDial := set o | o in s.ops && MidDial(s.ops[o]))
  }

  function SweptOne(s: State): (s': State)
    requires s.loop.Sweeping?
    ensures s'.dialler == s.dialler
  {
    var u := s.loop.next;
    var found := set o | o in s.ops && MidDial(s.ops[o]) && s.ops[o].slot.up == u :: (o, s.ops[o].slot);
    CloseSlot(CloseSlot(s, Slot(u, TCP)), Slot(u, UDP)).(loop := Sweeping(u + 1), caught := s.caught + found)
  }

  ghost function Step(s: State, e: Event, pool: nat): (s': State)
    requires Enabled(s, e, pool)
    ensures s'.dialler == if e.DialDone? then s.dialler[e.c := e.o] else s.dialler
  {
    match e
    case AcquireConn(o, slot) => Acquired(s, o, slot)
    case SpawnEnsure(o, slot) => Begin(s, o, Op(Ensure, slot, Started))
    case HealthTest(o, healthy) => HealthTested(s, o, healthy)
    case LookAtSlot(o) => Looked(s, o)
    case DialFailed(o) => Drop(s, o)
    case DialDone(o, c) => Dialled(s, o, c)
    case Put(o) => PutInto(s, o)
    case BeginKeepalive(o, slot) => TakenForKeepalive(s, o, slot)
    case Probed(o, alive) => AfterProbe(s, o, alive)
    case Discard(o) => Discarded(s, o)
    case Cancel => Cancelled(s)
    case BeginShutdown => s.(loop := Sweeping(0))
    case Sweep => SweptOne(s)
  }

  datatype Outcome = Impossible | Reached(s: State)

  ghost function Exec(es: seq<Event>, pool: nat): (o: Outcome)
  {
    if es == [] then Reached(INIT)
    else
      var o, e := Exec(es[..|es| - 1], pool), es[|es| - 1];
      if o.Reached? && Enabled(o.s, e, pool) then Reached(Step(o.s, e, pool)) else Impossible
  }

  // ---- one place per connection ----

  ghost function SlotsWith(slots: map<Slot, Conn>, c: Conn): (ks: set<Slot>) {
    set k | k in slots && slots[k] == c
  }

  predicate Owns(op: Op, c: Conn) {
    match op.pc
    case Probing(x) => x == c
    case Have(x) => x == c
    case Discarding(x, _) => x == c
    case _ => false
  }

  ghost function OwnersOf(ops: map<nat, Op>, c: Conn): (os: set<nat>) {
    set o | o in ops && Owns(ops[o], c)
  }

  /** In how many places a connection is: slots, operations, callers, and calls of Close. */
  ghost function Places(s: State, c: Conn): (n: nat) {
    |SlotsWith(s.slots, c)| + |OwnersOf(s.ops, c)| + s.handed[c] + s.closed[c]
  }

  ghost predicate Owned(s: State) {
    forall c :: Places(s, c) == if c in s.dialler then 1 else 0
  }

  lemma SlotGains(slots: map<Slot, Conn>, k: Slot, c: Conn, x: Conn)
    requires k !in slots
    ensures |SlotsWith(slots[k := c], x)| == |SlotsWith(slots, x)| + One(c == x)
  {
    assert SlotsWith(slots[k := c], x) == SlotsWith(slots, x) + if c == x then {k} else {};
  }

  lemma SlotLoses(slots: map<Slot, Conn>, k: Slot, x: Conn)
    requires k in slots
    ensures |SlotsWith(slots - {k}, x)| == |SlotsWith(slots, x)| - One(slots[k] == x)
  {
    assert SlotsWith(slots - {k}, x) == SlotsWith(slots, x) - {k};
    assert slots[k] == x <==> k in SlotsWith(slots, x);
  }

  lemma OpLeaves(ops: map<nat, Op>, o: nat, x: Conn)
    requires o in ops
    ensures |OwnersOf(ops - {o}, x)| == |OwnersOf(ops, x)| - One(Owns(ops[o], x))
  {
    assert OwnersOf(ops - {o}, x) == OwnersOf(ops, x) - {o};
    assert Owns(ops[o], x) <==> o in OwnersOf(ops, x);
  }

  lemma OpJoins(ops: map<nat, Op>, o: nat, op: Op, x: Conn)
    requires o !in ops
    ensures |OwnersOf(ops[o := op], x)| == |OwnersOf(ops, x)| + One(Owns(op, x))
  {
    assert OwnersOf(ops[o := op], x) == OwnersOf(ops, x) + if Owns(op, x) then {o} else {};
  }

  lemma OpMoves(ops: map<nat, Op>, o: nat, op: Op, x: Conn)
    requires o in ops
    ensures |OwnersOf(ops[o := op], x)| == |OwnersOf(ops, x)| - One(Owns(ops[o], x)) + One(Owns(op, x))
  {
    OpLeaves(ops, o, x);
    OpJoins(ops - {o}, o, op, x);
    assert (ops - {o})[o := op] == ops[o := op];
  }

  lemma CloseSlotPlaces(s: State, k: Slot, x: Conn)
    ensures Places(CloseSlot(s, k), x) == Places(s, x)
  {
    if k in s.slots { SlotLoses(s.slots, k, x); }
  }

  lemma AcquiredPlaces(s: State, o: nat, slot: Slot, x: Conn)
    requires o !in s.ops
    ensures Places(Acquired(s, o, slot), x) == Places(s, x)
  {
    if slot !in s.slots {
      OpJoins(s.ops, o, Op(Acquire, slot, Dialing(true)), x);
    } else {
      SlotLoses(s.slots, slot, x);
      OpJoins(s.ops, o, Op(Acquire, slot, Probing(s.slots[slot])), x);
    }
  }

  lemma KeepalivePlaces(s: State, o: nat, slot: Slot, x: Conn)
    requires o !in s.ops
    ensures Places(TakenForKeepalive(s, o, slot), x) == Places(s, x)
  {
    if slot in s.slots {
      SlotLoses(s.slots, slot, x);
      OpJoins(s.ops, o, Op(Keepalive, slot, Probing(s.slots[slot])), x);
    }
  }

  lemma HealthTestedPlaces(s: State, o: nat, healthy: bool, x: Conn)
    requires At(s, o, Ensure, Started)
    ensures Places(HealthTested(s, o, healthy), x) == Places(s, x)
  {
    OpLeaves(s.ops, o, x);
    OpMoves(s.ops, o, s.ops[o].(pc := Healthy), x);
    CloseSlotPlaces(s, s.ops[o].slot, x);
  }

  lemma LookedPlaces(s: State, o: nat, x: Conn)
    requires At(s, o, Ensure, Healthy)
    ensures Places(Looked(s, o), x) == Places(s, x)
  {
    OpLeaves(s.ops, o, x);
    OpMoves(s.ops, o, s.ops[o].(pc := Dialing(!s.cancelled)), x);
  }

  lemma DialledPlaces(s: State, o: nat, c: Conn, x: Conn)
    requires o in s.ops && s.ops[o].pc.Dialing?
    ensures Places(Dialled(s, o, c), x) == Places(s, x) + One(x == c)
  {
    OpLeaves(s.ops, o, x);
    OpMoves(s.ops, o, s.ops[o].(pc := Have(c)), x);
  }

  lemma PutPlaces(s: State, o: nat, x: Conn)
    requires o in s.ops && s.ops[o].pc.Have?
    ensures Places(PutInto(s, o), x) == Places(s, x)
  {
    var op, c := s.ops[o], s.ops[o].pc.c;
    OpLeaves(s.ops, o, x);
    OpMoves(s.ops, o, op.(pc := Discarding(c, false)), x);
    if op.slot !in s.slots { SlotGains(s.slots, op.slot, c, x); }
  }

  lemma ProbePlaces(s: State, o: nat, alive: bool, x: Conn)
    requires o in s.ops && s.ops[o].pc.Probing?
    ensures Places(AfterProbe(s, o, alive), x) == Places(s, x)
  {
    var op, c := s.ops[o], s.ops[o].pc.c;
    OpLeaves(s.ops, o, x);
    OpMoves(s.ops, o, op.(pc := Have(c)), x);
    OpMoves(s.ops, o, op.(pc := Discarding(c, op.kind.Acquire?)), x);
  }

  lemma DiscardPlaces(s: State, o: nat, x: Conn)
    requires o in s.ops && s.ops[o].pc.Discarding?
    ensures Places(Discarded(s, o), x) == Places(s, x)
  {
    OpLeaves(s.ops, o, x);
    OpMoves(s.ops, o, s.ops[o].(pc := Dialing(true)), x);
  }

  lemma SweepPlaces(s: State, x: Conn)
    requires s.loop.Sweeping?
    ensures Places(SweptOne(s), x) == Places(s, x)
  {
    var u := s.loop.next;
    CloseSlotPlaces(s, Slot(u, TCP), x);
    CloseSlotPlaces(CloseSlot(s, Slot(u, TCP)), Slot(u, UDP), x);
  }

  lemma StepPlaces(s: State, e: Event, pool: nat, x: Conn)
    requires Enabled(s, e, pool) && Inv(s)
    ensures Places(Step(s, e, pool), x) == Places(s, x) + One(e.DialDone? && x == e.c)
  {
    match e
    case AcquireConn(o, slot) => AcquiredPlaces(s, o, slot, x);
    case SpawnEnsure(o, slot) => OpJoins(s.ops, o, Op(Ensure, slot, Started), x);
    case BeginKeepalive(o, slot) => KeepalivePlaces(s, o, slot, x);
    case HealthTest(o, healthy) => HealthTestedPlaces(s, o, healthy, x);
    case LookAtSlot(o) => LookedPlaces(s, o, x);
    case DialFailed(o) => OpLeaves(s.ops, o, x);
    case DialDone(o, c) => DialledPlaces(s, o, c, x);
    case Put(o) => PutPlaces(s, o, x);
    case Probed(o, alive) => ProbePlaces(s, o, alive, x);
    case Discard(o) => DiscardPlaces(s, o, x);
    case Cancel =>
    case BeginShutdown =>
    case Sweep => SweepPlaces(s, x);
  }

  // ---- the invariant behind the shutdown claim ----

  /** Only some points are reached by each kind of operation. */
  predicate Fits(op: Op) {
    match op.kind
    case Acquire => op.pc.Dialing? || op.pc.Probing? || (op.pc.Discarding? && op.pc.redial)
    case Ensure => op.pc.Started? || op.pc.Healthy? || op.pc.Dialing? || op.pc.Have?
    case Keepalive => op.pc.Probing? || op.pc.Have? || (op.pc.Discarding? && !op.pc.redial)
  }

  /** An operation has a used identifier and is at a point it can reach. An ensure with a connection dialled it
      itself. After the cancellation no ensure gets into the middle of a dial; and while sweeping, those that
      are there with a swept slot were caught. */
  ghost predicate OpOk(s: State, o: nat, op: Op) {
    && o in s.used && Fits(op)
    && (op.kind.Ensure? && op.pc.Have? ==> op.pc.c in s.dialler && s.dialler[op.pc.c] == o)
    && (s.cancelled && MidDial(op) ==> o in s.midDial)
    && (s.loop.Sweeping? ==>
          !op.kind.Keepalive? && (MidDial(op) && op.slot.up < s.loop.next ==> (o, op.slot) in s.caught))
  }

  /** The connection c in slot k was dialled by an ensure that was caught in the middle. */
  ghost predicate LeftBehind(s: State, k: Slot, c: Conn) {
    c in s.dialler && s.dialler[c] in s.midDial && (s.dialler[c], k) in s.caught
  }

  ghost predicate SlotOk(s: State, k: Slot, c: Conn) {
    s.loop.Sweeping? && k.up < s.loop.next ==> LeftBehind(s, k, c)
  }

  ghost predicate Inv(s: State) {
    && (s.loop.Sweeping? ==> s.cancelled)
    && (forall o | o in s.ops :: OpOk(s, o, s.ops[o]))
    && (forall k | k in s.slots :: SlotOk(s, k, s.slots[k]))
  }

  lemma AcquiredInv(s: State, o: nat, slot: Slot)
    requires Inv(s) && o !in s.used
    ensures Inv(Acquired(s, o, slot))
  {
  }

  lemma SpawnInv(s: State, o: nat, slot: Slot)
    requires Inv(s) && o !in s.used && s.loop.Serving?
    ensures Inv(Begin(s, o, Op(Ensure, slot, Started)))
  {
  }

  lemma KeepaliveInv(s: State, o: nat, slot: Slot)
    requires Inv(s) && o !in s.used && s.loop.Serving?
    ensures Inv(TakenForKeepalive(s, o, slot))
  {
  }

  lemma HealthTestedInv(s: State, o: nat, healthy: bool)
    requires Inv(s) && At(s, o, Ensure, Started)
    ensures Inv(HealthTested(s, o, healthy))
  {
  }

  lemma LookedInv(s: State, o: nat)
    requires Inv(s) && At(s, o, Ensure, Healthy)
    ensures Inv(Looked(s, o))
  {
  }

  lemma DropInv(s: State, o: nat)
    requires Inv(s)
    ensures Inv(Drop(s, o))
  {
  }

  lemma DialledInv(s: State, o: nat, c: Conn)
    requires Inv(s) && o in s.ops && s.ops[o].pc == Dialing(true) && c !in s.dialler
    ensures Inv(Dialled(s, o, c))
  {
    assert OpOk(s, o, s.ops[o]);
    var s' := Dialled(s, o, c);
    forall x | x in s'.ops
      ensures OpOk(s', x, s'.ops[x])
    {
      assert OpOk(s, x, s.ops[x]);
    }
  }

  lemma PutInv(s: State, o: nat)
    requires Inv(s) && o in s.ops && s.ops[o].pc.Have?
    ensures Inv(PutInto(s, o))
  {
  }

  lemma ProbeInv(s: State, o: nat, alive: bool)
    requires Inv(s) && o in s.ops && s.ops[o].pc.Probing?
    ensures Inv(AfterProbe(s, o, alive))
  {
  }

  lemma DiscardInv(s: State, o: nat)
    requires Inv(s) && o in s.ops && s.ops[o].pc.Discarding?
    ensures Inv(Discarded(s, o))
  {
  }

  lemma CloseSlotSlots(s: State, slot: Slot)
    ensures CloseSlot(s, slot).slots == s.slots - {slot}
  {
    if slot !in s.slots { assert s.slots - {slot} == s.slots; }
  }

  lemma TwoProtocols(k: Slot)
    ensures k == Slot(k.up, TCP) || k == Slot(k.up, UDP)
  {
    match k.proto
    case TCP =>
    case UDP =>
  }

  lemma SweptSlots(s: State)
    requires s.loop.Sweeping?
    ensures var u := s.loop.next; SweptOne(s).slots == s.slots - {Slot(u, TCP), Slot(u, UDP)}
    ensures forall k | k in SweptOne(s).slots && k.up <= s.loop.next :: k.up < s.loop.next
  {
    var u := s.loop.next;
    CloseSlotSlots(s, Slot(u, TCP));
    CloseSlotSlots(CloseSlot(s, Slot(u, TCP)), Slot(u, UDP));
    assert s.slots - {Slot(u, TCP)} - {Slot(u, UDP)} == s.slots - {Slot(u, TCP), Slot(u, UDP)};
    hide CloseSlot;
    forall k | k in SweptOne(s).slots && k.up <= u
      ensures k.up < u
    {
      TwoProtocols(k);
    }
  }

  lemma SweptOps(s: State, o: nat)
    requires Inv(s) && s.loop.Sweeping? && o in s.ops
    ensures OpOk(SweptOne(s), o, s.ops[o])
  {
    assert OpOk(s, o, s.ops[o]);
  }

  lemma SweepInv(s: State)
    requires Inv(s) && s.loop.Sweeping?
    ensures Inv(SweptOne(s))
  {
    var s' := SweptOne(s);
    SweptSlots(s);
    forall o | o in s'.ops
      ensures OpOk(s', o, s'.ops[o])
    {
      SweptOps(s, o);
    }
    forall k | k in s'.slots
      ensures SlotOk(s', k, s'.slots[k])
    {
      assert SlotOk(s, k, s.slots[k]);
    }
  }

  lemma StepInv(s: State, e: Event, pool: nat)
    requires Enabled(s, e, pool) && Inv(s)
    ensures Inv(Step(s, e, pool))
  {
    match e
    case AcquireConn(o, slot) => AcquiredInv(s, o, slot);
    case SpawnEnsure(o, slot) => SpawnInv(s, o, slot);
    case BeginKeepalive(o, slot) => KeepaliveInv(s, o, slot);
    case HealthTest(o, healthy) => HealthTestedInv(s, o, healthy);
    case LookAtSlot(o) => LookedInv(s, o);
    case DialFailed(o) => DropInv(s, o);
    case DialDone(o, c) => DialledInv(s, o, c);
    case Put(o) => PutInv(s, o);
    case Probed(o, alive) => ProbeInv(s, o, alive);
    case Discard(o) => DiscardInv(s, o);
    case Cancel =>
    case BeginShutdown => assert forall o | o in s.ops :: OpOk(s, o, s.ops[o]) && s.ops[o].kind != Keepalive;
    case Sweep => SweepInv(s);
  }

  lemma {:induction false} InvHolds(es: seq<Event>, pool: nat)
    requires Exec(es, pool).Reached?
    ensures Inv(Exec(es, pool).s)
  {
    if es != [] {
      InvHolds(es[..|es| - 1], pool);
      StepInv(Exec(es[..|es| - 1], pool).s, es[|es| - 1], pool);
    }
  }

  lemma StepOwned(s: State, e: Event, pool: nat)
    requires Enabled(s, e, pool) && Inv(s) && Owned(s)
    ensures Owned(Step(s, e, pool))
  {
    var s' := Step(s, e, pool);
    forall c
      ensures Places(s', c) == if c in s'.dialler then 1 else 0
    {
      StepPlaces(s, e, pool, c);
      assert Places(s, c) == if c in s.dialler then 1 else 0;
    }
  }

  /** In every run each dialled connection is in exactly one of: one slot, one operation, one caller's
      hands, or closed once. */
  lemma {:induction false} ConnectionsOwned(es: seq<Event>, pool: nat)
    requires Exec(es, pool).Reached?
    ensures Owned(Exec(es, pool).s)
  {
    if es == [] {
      forall c
        ensures Places(INIT, c) == 0
      {
        assert SlotsWith(INIT.slots, c) == {};
        assert OwnersOf(INIT.ops, c) == {};
      }
    } else {
      ConnectionsOwned(es[..|es| - 1], pool);
      InvHolds(es[..|es| - 1], pool);
      StepOwned(Exec(es[..|es| - 1], pool).s, es[|es| - 1], pool);
    }
  }

  /** No connection is handed to two callers or closed twice, and none that was handed over is closed
      or kept by this protocol. */
  lemma HandedOnce(es: seq<Event>, pool: nat, c: Conn)
    requires Exec(es, pool).Reached?
    ensures var s := Exec(es, pool).s;
            && s.handed[c] + s.closed[c] <= 1
            && (s.handed[c] == 1 ==> forall k | k in s.slots :: s.slots[k] != c)
            && (s.handed[c] == 1 ==> forall o | o in s.ops :: !Owns(s.ops[o], c))
  {
    ConnectionsOwned(es, pool);
    var s := Exec(es, pool).s;
    assert Places(s, c) <= 1;
    assert forall k | k in s.slots && s.slots[k] == c :: k in SlotsWith(s.slots, c);
    assert forall o | o in s.ops && Owns(s.ops[o], c) :: o in OwnersOf(s.ops, c);
  }

  /** Once the shutdown has swept the whole pool, any connection still in a slot was put there by an ensure
      that was in the middle of its dial when the context was cancelled, and still was, or held the connection,
      when the sweep reached that very slot. */
  lemma OnlyInFlightEnsuresLeak(es: seq<Event>, pool: nat, k: Slot)
    requires Exec(es, pool).Reached?
    requires var s := Exec(es, pool).s; s.loop == Sweeping(pool) && k in s.slots && k.up < pool
    ensures var s := Exec(es, pool).s; LeftBehind(s, k, s.slots[k])
  {
    InvHolds(es, pool);
  }

  /** The run of one ensure whose dial ends after the sweep. */
  const LATE_DIAL: seq<Event> :=
    [SpawnEnsure(0, Slot(0, TCP)), HealthTest(0, true), LookAtSlot(0), Cancel, BeginShutdown, Sweep, DialDone(0, 7), Put(0)]

  lemma ExecSnoc(es: seq<Event>, e: Event, pool: nat)
    requires Exec(es, pool).Reached? && Enabled(Exec(es, pool).s, e, pool)
    ensures Exec(es + [e], pool) == Reached(Step(Exec(es, pool).s, e, pool))
  {
    assert (es + [e])[..|es|] == es;
  }

  lemma LateDialBegins()
    ensures Exec(LATE_DIAL[..3], 1).Reached?
    ensures var s := Exec(LATE_DIAL[..3], 1).s;
            s.ops == map[0 := Op(Ensure, Slot(0, TCP), Dialing(true))] && s.slots == map[] && s.dialler == map[]
            && s.loop == Serving && !s.cancelled
  {
    var e := LATE_DIAL;
    assert e[..1] == [e[0]] && e[..1][..0] == [];
    assert e[..2] == e[..1] + [e[1]]; ExecSnoc(e[..1], e[1], 1);
    assert e[..3] == e[..2] + [e[2]]; ExecSnoc(e[..2], e[2], 1);
  }

  lemma LateDialIsSwept()
    ensures Exec(LATE_DIAL[..6], 1).Reached?
    ensures var s := Exec(LATE_DIAL[..6], 1).s;
            s.ops == map[0 := Op(Ensure, Slot(0, TCP), Dialing(true))] && s.slots == map[] && s.dialler == map[]
            && s.loop == Sweeping(1)
  {
    var e := LATE_DIAL;
    LateDialBegins();
    assert e[..4] == e[..3] + [e[3]]; ExecSnoc(e[..3], e[3], 1);
    assert e[..5] == e[..4] + [e[4]]; ExecSnoc(e[..4], e[4], 1);
    assert e[..6] == e[..5] + [e[5]]; ExecSnoc(e[..5], e[5], 1);
  }

  /** And such a connection there can be: the sweep is over, and slot 0 holds connection 7. */
  lemma LateDialLeaks()
    ensures Exec(LATE_DIAL, 1).Reached?
    ensures var s := Exec(LATE_DIAL, 1).s; s.loop == Sweeping(1) && Slot(0, TCP) in s.slots && s.slots[Slot(0, TCP)] == 7
  {
    var e := LATE_DIAL;
    LateDialIsSwept();
    assert e[..7] == e[..6] + [e[6]]; ExecSnoc(e[..6], e[6], 1);
    assert e == e[..7] + [e[7]]; ExecSnoc(e[..7], e[7], 1);
  }

  lemma HandedUnchanged(s: State, e: Event, pool: nat)
    requires Enabled(s, e, pool) && !e.AcquireConn? && !e.Probed? && !e.DialDone?
    ensures Step(s, e, pool).handed == s.handed
  {
  }

  /** A connection goes to a caller only as a UDP standby, a TCP standby that has just passed the liveness
      check, or a fresh dial. */
  lemma HandedOnlyIf(s: State, e: Event, pool: nat, c: Conn)
    requires Enabled(s, e, pool) && Inv(s) && Step(s, e, pool).handed[c] > s.handed[c]
    ensures match e
            case AcquireConn(_, slot) => slot.proto.UDP? && slot in s.slots && s.slots[slot] == c
            case Probed(o, alive) => alive && s.ops[o].kind.Acquire? && s.ops[o].pc.c == c
            case DialDone(o, d) => s.ops[o].kind.Acquire? && d == c
            case _ => false
  {
    match e
    case AcquireConn(_, _) =>
    case Probed(_, _) =>
    case DialDone(_, _) =>
    case _ => HandedUnchanged(s, e, pool);
  }

  /** No other step than Put adds to the slots. */
  lemma OthersOnlyEmpty(s: State, e: Event, pool: nat)
    requires Enabled(s, e, pool) && !e.Put?
    ensures forall k | k in Step(s, e, pool).slots :: k in s.slots && s.slots[k] == Step(s, e, pool).slots[k]
  {
    match e
    case AcquireConn(_, _) =>
    case SpawnEnsure(_, _) =>
    case HealthTest(_, _) =>
    case LookAtSlot(_) =>
    case DialFailed(_) =>
    case DialDone(_, _) =>
    case BeginKeepalive(_, _) =>
    case Probed(_, _) =>
    case Discard(_) =>
    case Cancel =>
    case BeginShutdown =>
    case Sweep => SweptSlots(s);
  }

  /** A connection enters a slot only when the slot is empty, from an ensure or a keepalive that has it. */
  lemma SlotFilledOnlyIf(s: State, e: Event, pool: nat, k: Slot)
    requires Enabled(s, e, pool) && Inv(s) && k in Step(s, e, pool).slots
    requires k !in s.slots || s.slots[k] != Step(s, e, pool).slots[k]
    ensures k !in s.slots && e.Put? && s.ops[e.o].slot == k && s.ops[e.o].pc == Have(Step(s, e, pool).slots[k])
    ensures !s.ops[e.o].kind.Acquire?
  {
    if e.Put? {
      assert OpOk(s, e.o, s.ops[e.o]);
    } else {
      OthersOnlyEmpty(s, e, pool);
    }
  }

  // ---- what becomes of a connection that was checked, dialled or asked for ----

  predicate Discards(op: Op, c: Conn) {
    op.pc.Discarding? && op.pc.c == c
  }

  /** Closed, or in the hands of an operation that is about to close it. */
  ghost predicate Doomed(s: State, c: Conn) {
    s.closed[c] > 0 || exists o :: o in s.ops && Discards(s.ops[o], c)
  }

  /** The operation that takes a step. */
  predicate Acts(e: Event, o: nat) {
    !e.Cancel? && !e.BeginShutdown? && !e.Sweep? && e.o == o
  }

  predicate Starts(e: Event) {
    e.AcquireConn? || e.SpawnEnsure? || e.BeginKeepalive? || e.HealthTest? || e.LookAtSlot? || e.DialFailed?
  }

  lemma StartsTouchOwn(s: State, e: Event, pool: nat, o: nat)
    requires Enabled(s, e, pool) && !Acts(e, o) && o in s.ops && Starts(e)
    ensures o in Step(s, e, pool).ops && Step(s, e, pool).ops[o] == s.ops[o]
  {
  }

  lemma OthersUntouched(s: State, e: Event, pool: nat, o: nat)
    requires Enabled(s, e, pool) && !Acts(e, o) && o in s.ops
    ensures o in Step(s, e, pool).ops && Step(s, e, pool).ops[o] == s.ops[o]
  {
    hide CloseSlot, Acquired, TakenForKeepalive, HealthTested, Looked;
    if Starts(e) {
      StartsTouchOwn(s, e, pool, o);
    } else if e.Sweep? {
      SweptOpsSame(s);
    }
  }

  lemma SweptOpsSame(s: State)
    requires s.loop.Sweeping?
    ensures SweptOne(s).ops == s.ops
  {
  }

  /** Only its own next step takes an operation away from the point where it holds a connection. */
  lemma HolderStays(s: State, e: Event, pool: nat, o: nat)
    requires Enabled(s, e, pool) && Inv(s) && o in s.ops
    requires (s.ops[o].pc.Discarding? && e != Discard(o)) || (s.ops[o].pc.Have? && e != Put(o))
    ensures o in Step(s, e, pool).ops && Step(s, e, pool).ops[o] == s.ops[o]
  {
    assert OpOk(s, o, s.ops[o]);
    hide Step;
    OthersUntouched(s, e, pool, o);
  }

  lemma CloseSlotGrows(s: State, k: Slot, c: Conn)
    ensures CloseSlot(s, k).closed[c] >= s.closed[c]
  {
  }

  lemma ClosedGrows(s: State, e: Event, pool: nat, c: Conn)
    requires Enabled(s, e, pool)
    ensures Step(s, e, pool).closed[c] >= s.closed[c]
  {
    hide CloseSlot;
    match e
    case Sweep =>
      CloseSlotGrows(s, Slot(s.loop.next, TCP), c);
      CloseSlotGrows(CloseSlot(s, Slot(s.loop.next, TCP)), Slot(s.loop.next, UDP), c);
    case HealthTest(o, _) => CloseSlotGrows(s, s.ops[o].slot, c);
    case _ =>
  }

  lemma DoomedStep(s: State, e: Event, pool: nat, c: Conn)
    requires Enabled(s, e, pool) && Inv(s) && Doomed(s, c)
    ensures Doomed(Step(s, e, pool), c)
  {
    ClosedGrows(s, e, pool, c);
    if s.closed[c] == 0 {
      var o :| o in s.ops && Discards(s.ops[o], c);
      if e == Discard(o) {
        assert Step(s, e, pool).closed[c] > 0;
      } else {
        HolderStays(s, e, pool, o);
      }
    }
  }

  lemma {:induction false} ReachedBefore(es: seq<Event>, after: seq<Event>, pool: nat)
    requires Exec(es + after, pool).Reached?
    ensures Exec(es, pool).Reached?
  {
    if after == [] {
      assert es + after == es;
    } else {
      Bytes.InitOfSum(es, after);
      ReachedBefore(es, after[..|after| - 1], pool);
    }
  }

  lemma {:induction false} DoomedForGood(es: seq<Event>, after: seq<Event>, pool: nat, c: Conn)
    requires Exec(es, pool).Reached? && Doomed(Exec(es, pool).s, c) && Exec(es + after, pool).Reached?
    ensures Doomed(Exec(es + after, pool).s, c)
  {
    if after == [] {
      assert es + after == es;
    } else {
      var init := after[..|after| - 1];
      Bytes.InitOfSum(es, after);
      DoomedForGood(es, init, pool, c);
      InvHolds(es + init, pool);
      DoomedStep(Exec(es + init, pool).s, after[|after| - 1], pool, c);
    }
  }

  lemma DoomedIsOut(es: seq<Event>, pool: nat, c: Conn)
    requires Exec(es, pool).Reached? && Doomed(Exec(es, pool).s, c)
    ensures var s := Exec(es, pool).s;
            s.handed[c] == 0 && s.closed[c] <= 1 && forall k | k in s.slots :: s.slots[k] != c
  {
    var s := Exec(es, pool).s;
    ConnectionsOwned(es, pool);
    assert Places(s, c) <= 1;
    assert forall k | k in s.slots && s.slots[k] == c :: k in SlotsWith(s.slots, c);
    if s.closed[c] == 0 {
      var o :| o in s.ops && Discards(s.ops[o], c);
      assert o in OwnersOf(s.ops, c);
    }
  }

  /** A connection that failed its liveness check is closed once, or about to be, in every later state: it is never
      in a slot again and no caller ever gets it. */
  lemma DeadNeverReturns(before: seq<Event>, o: nat, after: seq<Event>, pool: nat)
    requires Exec(before, pool).Reached? && Enabled(Exec(before, pool).s, Probed(o, false), pool)
    requires Exec(before + [Probed(o, false)] + after, pool).Reached?
    ensures var c, s := Exec(before, pool).s.ops[o].pc.c, Exec(before + [Probed(o, false)] + after, pool).s;
            && (s.closed[c] == 1 || (s.closed[c] == 0 && exists p :: p in s.ops && Discards(s.ops[p], c)))
            && s.handed[c] == 0 && forall k | k in s.slots :: s.slots[k] != c
  {
    var c, es := Exec(before, pool).s.ops[o].pc.c, before + [Probed(o, false)];
    ExecSnoc(before, Probed(o, false), pool);
    assert Discards(Exec(es, pool).s.ops[o], c);
    DoomedForGood(es, after, pool, c);
    DoomedIsOut(es + after, pool, c);
  }

  lemma {:induction false} HeldUntilPut(es: seq<Event>, after: seq<Event>, pool: nat, o: nat)
    requires Exec(es + after, pool).Reached? && Put(o) !in after
    requires Exec(es, pool).Reached? && o in Exec(es, pool).s.ops && Exec(es, pool).s.ops[o].pc.Have?
    ensures o in Exec(es + after, pool).s.ops && Exec(es + after, pool).s.ops[o] == Exec(es, pool).s.ops[o]
  {
    if after == [] {
      assert es + after == es;
    } else {
      var init, e := after[..|after| - 1], after[|after| - 1];
      Bytes.InitOfSum(es, after);
      ReachedBefore(es + init, [e], pool);
      HeldUntilPut(es, init, pool, o);
      InvHolds(es + init, pool);
      assert e in after;
      HolderStays(Exec(es + init, pool).s, e, pool, o);
    }
  }

  /** t is s after the connection c was put into slot k if that was free, and was closed or is about to be if not. */
  ghost predicate Landed(s: State, t: State, k: Slot, c: Conn) {
    if k !in s.slots then t.slots == s.slots[k := c] else t.slots == s.slots && Doomed(t, c)
  }

  lemma PutLands(s: State, o: nat, pool: nat)
    requires Enabled(s, Put(o), pool)
    ensures Landed(s, Step(s, Put(o), pool), s.ops[o].slot, s.ops[o].pc.c)
  {
    var t := Step(s, Put(o), pool);
    if s.ops[o].slot in s.slots && !s.ops[o].kind.Ensure? { assert Discards(t.ops[o], s.ops[o].pc.c); }
  }

  /** A standby that passes its keepalive check waits, whatever happens meanwhile, for the step that restores it to
      its slot if the slot is still free, and otherwise gives it up. */
  lemma KeepaliveRestores(before: seq<Event>, o: nat, after: seq<Event>, pool: nat)
    requires Exec(before, pool).Reached? && Enabled(Exec(before, pool).s, Probed(o, true), pool)
    requires Exec(before, pool).s.ops[o].kind.Keepalive?
    requires Exec(before + [Probed(o, true)] + after, pool).Reached? && Put(o) !in after
    ensures var op, s := Exec(before, pool).s.ops[o], Exec(before + [Probed(o, true)] + after, pool).s;
            Enabled(s, Put(o), pool) && Landed(s, Step(s, Put(o), pool), op.slot, op.pc.c)
  {
    var es := before + [Probed(o, true)];
    ExecSnoc(before, Probed(o, true), pool);
    HeldUntilPut(es, after, pool, o);
    PutLands(Exec(es + after, pool).s, o, pool);
  }

  /** So does a connection that an ensure has dialled. */
  lemma EnsureFills(before: seq<Event>, o: nat, c: Conn, after: seq<Event>, pool: nat)
    requires Exec(before, pool).Reached? && Enabled(Exec(before, pool).s, DialDone(o, c), pool)
    requires Exec(before, pool).s.ops[o].kind.Ensure?
    requires Exec(before + [DialDone(o, c)] + after, pool).Reached? && Put(o) !in after
    ensures var op, s := Exec(before, pool).s.ops[o], Exec(before + [DialDone(o, c)] + after, pool).s;
            Enabled(s, Put(o), pool) && Landed(s, Step(s, Put(o), pool), op.slot, c)
  {
    var es := before + [DialDone(o, c)];
    ExecSnoc(before, DialDone(o, c), pool);
    HeldUntilPut(es, after, pool, o);
    PutLands(Exec(es + after, pool).s, o, pool);
  }

  /** An ensure on the way to its dial: an unhealthy upstream has its standby closed and the slot emptied; a healthy
      one is dialled exactly when its slot is empty. */
  lemma EnsureDecides(s: State, o: nat, pool: nat)
    ensures Enabled(s, HealthTest(o, false), pool) ==>
              var t, k := Step(s, HealthTest(o, false), pool), s.ops[o].slot;
              && o !in t.ops && t.slots == s.slots - {k}
              && t.closed == s.closed + if k in s.slots then multiset{s.slots[k]} else multiset{}
    ensures Enabled(s, HealthTest(o, true), pool) ==>
              var t := Step(s, HealthTest(o, true), pool); t.slots == s.slots && Enabled(t, LookAtSlot(o), pool)
    ensures Enabled(s, LookAtSlot(o), pool) ==>
              var t := Step(s, LookAtSlot(o), pool);
              && t.slots == s.slots && (o in t.ops <==> s.ops[o].slot !in s.slots)
              && (o in t.ops ==> t.ops[o] == s.ops[o].(pc := Dialing(!s.cancelled)))
  {
    if Enabled(s, HealthTest(o, false), pool) && s.ops[o].slot !in s.slots {
      assert s.slots - {s.ops[o].slot} == s.slots;
    }
  }

  /** What a caller asks for: a UDP standby is handed over at once. A TCP standby is taken out of its slot and handed over
      if it passes its check; if not, or if there is no standby, the caller's own dial decides. */
  lemma AcquireServed(s: State, o: nat, k: Slot, pool: nat, c: Conn)
    ensures Enabled(s, AcquireConn(o, k), pool) && k in s.slots ==>
              var t := Step(s, AcquireConn(o, k), pool);
              && t.slots == s.slots - {k}
              && (k.proto.UDP? ==> t.handed == s.handed + multiset{s.slots[k]} && t.ops == s.ops)
              && (k.proto.TCP? ==> t.handed == s.handed && t.ops == s.ops[o := Op(Acquire, k, Probing(s.slots[k]))])
    ensures Enabled(s, AcquireConn(o, k), pool) && k !in s.slots ==>
              Step(s, AcquireConn(o, k), pool).ops == s.ops[o := Op(Acquire, k, Dialing(true))]
    ensures At(s, o, Acquire, Probing(c)) ==>
              && Step(s, Probed(o, true), pool).handed == s.handed + multiset{c}
              && At(Step(s, Probed(o, false), pool), o, Acquire, Discarding(c, true))
    ensures At(s, o, Acquire, Discarding(c, true)) ==>
              var t := Step(s, Discard(o), pool); t.closed == s.closed + multiset{c} && At(t, o, Acquire, Dialing(true))
    ensures At(s, o, Acquire, Dialing(true)) && c !in s.dialler ==>
              Step(s, DialDone(o, c), pool).handed == s.handed + multiset{c}
  {
  }

  /** A keepalive takes the standby out of its slot for the check. */
  lemma KeepaliveTakes(s: State, o: nat, k: Slot, pool: nat)
    requires Enabled(s, BeginKeepalive(o, k), pool)
    ensures var t := Step(s, BeginKeepalive(o, k), pool);
            && t.slots == s.slots - {k}
            && t.ops == if k in s.slots then s.ops[o := Op(Keepalive, k, Probing(s.slots[k]))] else s.ops
  {
    if k !in s.slots { assert s.slots - {k} == s.slots; }
  }
}
