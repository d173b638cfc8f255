/**
 Every interleaving of getOrCreate, packets and collections on the UDP session table.

 A creator checks the table, dials without the lock, and then installs its session or finds a
 duplicate. Sessions taken out of the table are closed after the lock is released.
 */
module UdpSessions {
  import opened Counting
  import opened UdpTable
  import Bytes

  /** Where a call of getOrCreate that is allowed to create has got to. */
  datatype Creator = Dialing(key: Key, since: int) | Holding(s: Session)

  datatype State = State(
    ports: Ports,
    creators: map<nat, Creator>,
    closing: set<nat>,     // session ids taken out, Close not called yet
    closed: multiset<nat>, // one entry per call of Close
    known: set<nat>)      // every session id ever opened

  const INIT := State(map[], map[], {}, multiset{}, {})

  datatype Event =
    | Begin(c: nat, key: Key, now: int)
    | DialFailed(c: nat)
    | DialDone(c: nat, id: nat)
    | Finish(c: nat)
    | Packet(key: Key, dst: string, now: int) // traffic keeps a session and a flow alive
    | Collect(now: int)
    | CloseOne(id: nat)

  /** k bounds how many creators may be in flight at once; a lookup that hits or is refused needs no place. */
  ghost predicate Enabled(s: State, e: Event, k: nat, cfg: Config) {
    match e
    case Begin(c, key, _) => c !in s.creators && (key !in s.ports && |s.ports| < Limit(cfg) ==> |s.creators| < k)
    case DialFailed(c) => c in s.creators && s.creators[c].Dialing?
    case DialDone(c, id) => c in s.creators && s.creators[c].Dialing? && id !in s.known
    case Finish(c) => c in s.creators && s.creators[c].Holding?
    case Packet(_, _, _) => true
    case Collect(_) => true
    case CloseOne(id) => id in s.closing
  }

  function ExpiredIds(ports: Ports, now: int, cfg: Config): (ids: set<nat>) {
    set k | k in ports && Expired(ports[k], now, cfg) :: ports[k].id
  }

  ghost function Step(s: State, e: Event, k: nat, cfg: Config): (s': State)
    requires Enabled(s, e, k, cfg)
  {
    match e
    case Begin(c, key, now) =>
      if key in s.ports then s.(ports := Touch(s.ports, key, now))
      else if |s.ports| >= Limit(cfg) then s
      else s.(creators := s.creators[c := Dialing(key, now)])
    case DialFailed(c) => s.(creators := s.creators - {c})
    case DialDone(c, id) =>
      var d := s.creators[c];
      s.(creators := s.creators[c := Holding(Session(d.key, id, d.since, map[]))], known := s.known + {id})
    case Finish(c) =>
      var n := s.creators[c].s;
      if n.key in s.ports then s.(creators := s.creators - {c}, closing := s.closing + {n.id})
      else s.(creators := s.creators - {c}, ports := s.ports[n.key := n])
    case Packet(key, dst, now) =>
      if key in s.ports
      then s.(ports := s.ports[key := s.ports[key].(lastSeen := now, flows := s.ports[key].flows[dst := now])])
      else s
    case Collect(now) =>
      s.(ports := Collected(s.ports, now, cfg), closing := s.closing + ExpiredIds(s.ports, now, cfg))
    case CloseOne(id) => s.(closing := s.closing - {id}, closed := s.closed + multiset{id})
  }

  datatype Outcome = Impossible | Reached(s: State)

  ghost function Exec(es: seq<Event>, k: nat, cfg: Config): (o: Outcome)
  {
    if es == [] then Reached(INIT)
    else
      var o, e := Exec(es[..|es| - 1], k, cfg), es[|es| - 1];
      if o.Reached? && Enabled(o.s, e, k, cfg) then Reached(Step(o.s, e, k, cfg)) else Impossible
  }

  // ---- size ----

  ghost predicate Bounded(s: State, k: nat, cfg: Config) {
    |s.creators| <= k && |s.ports| + |s.creators| <= Limit(cfg) - 1 + k
  }

  lemma CollectedSize(ports: Ports, now: int, cfg: Config)
    ensures |Collected(ports, now, cfg)| <= |ports|
  {
    SubsetSize(Collected(ports, now, cfg).Keys, ports.Keys);
  }

  lemma StepBounded(s: State, e: Event, k: nat, cfg: Config)
    requires Enabled(s, e, k, cfg) && Bounded(s, k, cfg)
    ensures Bounded(Step(s, e, k, cfg), k, cfg)
  {
    match e
    case Begin(c, key, now) =>
      MapAdd(s.creators, c, Dialing(key, now));
      if key in s.ports { MapAdd(s.ports, key, s.ports[key].(lastSeen := now)); }
    case DialFailed(c) => MapRemove(s.creators, c);
    case DialDone(c, id) =>
      MapAdd(s.creators, c, Holding(Session(s.creators[c].key, id, s.creators[c].since, map[])));
    case Finish(c) =>
      MapRemove(s.creators, c);
      MapAdd(s.ports, s.creators[c].s.key, s.creators[c].s);
    case Packet(key, dst, now) =>
      if key in s.ports {
        MapAdd(s.ports, key, s.ports[key].(lastSeen := now, flows := s.ports[key].flows[dst := now]));
      }
    case Collect(now) => CollectedSize(s.ports, now, cfg);
    case CloseOne(id) =>
  }

  /** With at most k creators in flight, the table and the creators together never exceed the limit
      by k or more; with one creator the table never exceeds the limit. */
  lemma {:induction false} TableBound(es: seq<Event>, k: nat, cfg: Config)
    requires k > 0 && Exec(es, k, cfg).Reached?
    ensures var s := Exec(es, k, cfg).s;
            |s.creators| <= k && |s.ports| + |s.creators| <= Limit(cfg) - 1 + k
  {
    if es != [] {
      TableBound(es[..|es| - 1], k, cfg);
      StepBounded(Exec(es[..|es| - 1], k, cfg).s, es[|es| - 1], k, cfg);
    }
  }

  // ---- and the bound is reached ----

  function KeyOf(i: nat): (key: Key) { Key(0, [], i) }

  function SessionOf(i: nat): (n: Session) { Session(KeyOf(i), i, 0, map[]) }

  ghost predicate DialsOwn(creators: map<nat, Creator>, c: nat) {
    c in creators && creators[c] == Dialing(KeyOf(c), 0)
  }

  /** The first n sessions are in the table and the creators from n to b dial, each for its own. */
  ghost predicate Stage(s: State, n: nat, b: nat) {
    && n <= b && |s.ports| == n && |s.creators| == b - n
    && (forall i: nat | n <= i :: KeyOf(i) !in s.ports)
    && (forall c: nat | n <= c < b :: DialsOwn(s.creators, c))
    && (forall c: nat | c in s.creators :: c < b)
    && (forall id | id in s.known :: id < n)
  }

  ghost predicate Runs(es: seq<Event>, s: State, k: nat, cfg: Config) {
    Exec(es, k, cfg) == Reached(s)
  }

  lemma OneMoreStep(es: seq<Event>, s: State, e: Event, k: nat, cfg: Config)
    requires Runs(es, s, k, cfg) && Enabled(s, e, k, cfg)
    ensures Runs(es + [e], Step(s, e, k, cfg), k, cfg)
  {
    assert (es + [e])[..|es|] == es;
  }

  /** One more creator starts. */
  lemma StageBegins(es: seq<Event>, s: State, n: nat, b: nat, k: nat, cfg: Config) returns (s': State)
    requires Runs(es, s, k, cfg) && Stage(s, n, b) && b - n < k && n < Limit(cfg)
    ensures Runs(es + [Begin(b, KeyOf(b), 0)], s', k, cfg) && Stage(s', n, b + 1)
  {
    OneMoreStep(es, s, Begin(b, KeyOf(b), 0), k, cfg);
    MapAdd(s.creators, b, Dialing(KeyOf(b), 0));
    s' := s.(creators := s.creators[b := Dialing(KeyOf(b), 0)]);
    forall c: nat | n <= c <= b ensures DialsOwn(s'.creators, c) {
      assert c < b ==> DialsOwn(s.creators, c);
    }
  }

  /** The first creator opens its session. */
  lemma StageDials(es: seq<Event>, s: State, n: nat, b: nat, k: nat, cfg: Config) returns (s': State)
    requires Runs(es, s, k, cfg) && Stage(s, n, b) && n < b
    ensures Runs(es + [DialDone(n, n)], s', k, cfg)
    ensures s' == s.(creators := s.creators[n := Holding(SessionOf(n))], known := s.known + {n})
  {
    assert DialsOwn(s.creators, n);
    OneMoreStep(es, s, DialDone(n, n), k, cfg);
    s' := s.(creators := s.creators[n := Holding(SessionOf(n))], known := s.known + {n});
  }

  /** The first creator installs its session. */
  lemma StageInstalls(es: seq<Event>, s: State, t: State, n: nat, b: nat, k: nat, cfg: Config) returns (t': State)
    requires Runs(es, t, k, cfg) && Stage(s, n, b) && n < b
    requires t == s.(creators := s.creators[n := Holding(SessionOf(n))], known := s.known + {n})
    ensures Runs(es + [Finish(n)], t', k, cfg) && Stage(t', n + 1, b)
  {
    OneMoreStep(es, t, Finish(n), k, cfg);
    t' := t.(creators := t.creators - {n}, ports := t.ports[KeyOf(n) := SessionOf(n)]);
    assert DialsOwn(s.creators, n);
    MapAdd(s.creators, n, t.creators[n]);
    MapRemove(t.creators, n);
    MapAdd(s.ports, KeyOf(n), SessionOf(n));
    forall c: nat | n < c < b ensures DialsOwn(t'.creators, c) { assert DialsOwn(s.creators, c); }
  }

  /** Creators start one after the other. */
  lemma {:induction false} AllBegin(es: seq<Event>, s: State, n: nat, b: nat, top: nat, k: nat, cfg: Config)
    returns (es': seq<Event>, s': State)
    requires Runs(es, s, k, cfg) && Stage(s, n, b) && b <= top && top - n <= k && n < Limit(cfg)
    ensures Runs(es', s', k, cfg) && Stage(s', n, top)
    decreases top - b
  {
    if b == top {
      es', s' := es, s;
    } else {
      var t := StageBegins(es, s, n, b, k, cfg);
      es', s' := AllBegin(es + [Begin(b, KeyOf(b), 0)], t, n, b + 1, top, k, cfg);
    }
  }

  /** Creators finish one after the other, the first to start first. */
  lemma {:induction false} AllFinish(es: seq<Event>, s: State, n: nat, b: nat, k: nat, cfg: Config)
    returns (es': seq<Event>, s': State)
    requires Runs(es, s, k, cfg) && Stage(s, n, b)
    ensures Runs(es', s', k, cfg) && Stage(s', b, b)
    decreases b - n
  {
    if n == b {
      es', s' := es, s;
    } else {
      var t := StageDials(es, s, n, b, k, cfg);
      var u := StageInstalls(es + [DialDone(n, n)], s, t, n, b, k, cfg);
      es', s' := AllFinish(es + [DialDone(n, n)] + [Finish(n)], u, n + 1, b, k, cfg);
    }
  }

  /** One creator at a time fills the table. */
  lemma {:induction false} Fill(n: nat, k: nat, cfg: Config) returns (es: seq<Event>, s: State)
    requires n <= Limit(cfg) && k > 0
    ensures Runs(es, s, k, cfg) && Stage(s, n, n)
  {
    if n == 0 {
      es, s := [], INIT;
    } else {
      es, s := Fill(n - 1, k, cfg);
      es, s := AllBegin(es, s, n - 1, n - 1, n, k, cfg);
      es, s := AllFinish(es, s, n - 1, n, k, cfg);
    }
  }

  /** The bound is reached: k creators that all saw a table one short of its limit leave it k - 1
      sessions above the limit. */
  lemma BoundReached(k: nat, cfg: Config)
    requires k > 0
    ensures var limit := if cfg.maxFlows > 0 then cfg.maxFlows else 4096;
            exists es :: Exec(es, k, cfg).Reached? && |Exec(es, k, cfg).s.ports| == limit - 1 + k
  {
    var n := Limit(cfg) - 1;
    var es, s := Fill(n, k, cfg);
    es, s := AllBegin(es, s, n, n, n + k, k, cfg);
    es, s := AllFinish(es, s, n, n + k, k, cfg);
    assert Exec(es, k, cfg).Reached?;
  }

  // ---- ownership ----

  ghost function TableKeys(ports: Ports, id: nat): (ks: set<Key>) {
    set k | k in ports && ports[k].id == id
  }

  ghost function HoldersOf(creators: map<nat, Creator>, id: nat): (cs: set<nat>) {
    set c | c in creators && creators[c].Holding? && creators[c].s.id == id
  }

  /** In how many places a session is: under keys of the table, with creators, waiting to be closed,
      and calls of Close already made. */
  ghost function Places(s: State, id: nat): (n: nat) {
    |TableKeys(s.ports, id)| + |HoldersOf(s.creators, id)| + (if id in s.closing then 1 else 0) + s.closed[id]
  }

  /** Every session opened is in exactly one place, and those in the table are under their own key. */
  ghost predicate Owned(s: State) {
    ByOwnKey(s.ports) && forall id :: Places(s, id) == if id in s.known then 1 else 0
  }

  lemma OnlyMember<A>(xs: set<A>, x: A)
    requires x in xs && |xs| <= 1
    ensures xs == {x} && |xs| == 1
  {
    assert |xs - {x}| == |xs| - 1;
  }

  lemma TableRefreshed(ports: Ports, key: Key, n: Session, id: nat)
    requires key in ports && n.id == ports[key].id
    ensures TableKeys(ports[key := n], id) == TableKeys(ports, id)
  {
  }

  lemma RefreshOwned(s: State, s': State, key: Key, n: Session)
    requires Owned(s) && key in s.ports && n.id == s.ports[key].id && n.key == key
    requires s' == s.(ports := s.ports[key := n])
    ensures Owned(s')
  {
    forall id
      ensures Places(s', id) == Places(s, id)
    {
      TableRefreshed(s.ports, key, n, id);
    }
  }

  /** A creator that only dials holds nothing. */
  lemma DialingOwned(s: State, s': State, c: nat)
    requires Owned(s) && (c in s.creators ==> s.creators[c].Dialing?)
    requires s' == s.(creators := s'.creators)
    requires (exists key, since :: s'.creators == s.creators[c := Dialing(key, since)])
             || (c in s.creators && s'.creators == s.creators - {c})
    ensures Owned(s')
  {
    forall id
      ensures Places(s', id) == Places(s, id)
    {
      assert HoldersOf(s'.creators, id) == HoldersOf(s.creators, id);
    }
  }

  lemma BeginOwned(s: State, e: Event, k: nat, cfg: Config)
    requires Enabled(s, e, k, cfg) && Owned(s) && e.Begin?
    ensures Owned(Step(s, e, k, cfg))
  {
    var s' := Step(s, e, k, cfg);
    if e.key in s.ports {
      RefreshOwned(s, s', e.key, s.ports[e.key].(lastSeen := e.now));
    } else if |s.ports| < Limit(cfg) {
      assert s'.creators == s.creators[e.c := Dialing(e.key, e.now)];
      DialingOwned(s, s', e.c);
    }
  }

  lemma PacketOwned(s: State, e: Event, k: nat, cfg: Config)
    requires Enabled(s, e, k, cfg) && Owned(s) && e.Packet?
    ensures Owned(Step(s, e, k, cfg))
  {
    if e.key in s.ports {
      var n := s.ports[e.key];
      RefreshOwned(s, Step(s, e, k, cfg), e.key, n.(lastSeen := e.now, flows := n.flows[e.dst := e.now]));
    }
  }

  lemma HolderJoins(creators: map<nat, Creator>, c: nat, n: Session, id: nat)
    requires c in creators && creators[c].Dialing?
    ensures |HoldersOf(creators[c := Holding(n)], id)| == |HoldersOf(creators, id)| + if n.id == id then 1 else 0
  {
    assert HoldersOf(creators[c := Holding(n)], id) == HoldersOf(creators, id) + if n.id == id then {c} else {};
  }

  lemma DialDonePlaces(s: State, e: Event, k: nat, cfg: Config, id: nat)
    requires Enabled(s, e, k, cfg) && e.DialDone?
    ensures Places(Step(s, e, k, cfg), id) == Places(s, id) + if id == e.id then 1 else 0
  {
    var d := s.creators[e.c];
    HolderJoins(s.creators, e.c, Session(d.key, e.id, d.since, map[]), id);
  }

  lemma DialDoneOwned(s: State, e: Event, k: nat, cfg: Config)
    requires Enabled(s, e, k, cfg) && Owned(s) && e.DialDone?
    ensures Owned(Step(s, e, k, cfg))
  {
    forall id
      ensures Places(Step(s, e, k, cfg), id) == Places(s, id) + if id == e.id then 1 else 0
    {
      DialDonePlaces(s, e, k, cfg, id);
    }
  }

  lemma HolderLeaves(creators: map<nat, Creator>, c: nat, id: nat)
    requires c in creators && creators[c].Holding?
    ensures |HoldersOf(creators - {c}, id)| == |HoldersOf(creators, id)| - if creators[c].s.id == id then 1 else 0
  {
    assert HoldersOf(creators - {c}, id) == HoldersOf(creators, id) - {c};
  }

  lemma TableGains(ports: Ports, n: Session, id: nat)
    requires n.key !in ports
    ensures |TableKeys(ports[n.key := n], id)| == |TableKeys(ports, id)| + if n.id == id then 1 else 0
  {
    assert TableKeys(ports[n.key := n], id) == TableKeys(ports, id) + if n.id == id then {n.key} else {};
  }

  lemma FinishPlaces(s: State, e: Event, k: nat, cfg: Config, id: nat)
    requires Enabled(s, e, k, cfg) && e.Finish? && Places(s, s.creators[e.c].s.id) == 1
    ensures Places(Step(s, e, k, cfg), id) == Places(s, id)
  {
    var n := s.creators[e.c].s;
    assert e.c in HoldersOf(s.creators, n.id);
    OnlyMember(HoldersOf(s.creators, n.id), e.c);
    HolderLeaves(s.creators, e.c, id);
    if n.key !in s.ports { TableGains(s.ports, n, id); }
  }

  lemma FinishOwned(s: State, e: Event, k: nat, cfg: Config)
    requires Enabled(s, e, k, cfg) && Owned(s) && e.Finish?
    ensures Owned(Step(s, e, k, cfg))
  {
    var id := s.creators[e.c].s.id;
    assert e.c in HoldersOf(s.creators, id);
    assert Places(s, id) == 1;
    forall x
      ensures Places(Step(s, e, k, cfg), x) == Places(s, x)
    {
      FinishPlaces(s, e, k, cfg, x);
    }
  }

  lemma CollectOwned(s: State, e: Event, k: nat, cfg: Config)
    requires Enabled(s, e, k, cfg) && Owned(s) && e.Collect?
    ensures Owned(Step(s, e, k, cfg))
  {
    var s' := Step(s, e, k, cfg);
    forall id
      ensures Places(s', id) == Places(s, id)
    {
      assert HoldersOf(s'.creators, id) == HoldersOf(s.creators, id);
      assert Places(s, id) <= 1;
      if id in ExpiredIds(s.ports, e.now, cfg) {
        var x :| x in s.ports && Expired(s.ports[x], e.now, cfg) && s.ports[x].id == id;
        OnlyMember(TableKeys(s.ports, id), x);
        assert TableKeys(s'.ports, id) <= TableKeys(s.ports, id) && x !in TableKeys(s'.ports, id);
      } else {
        assert TableKeys(s'.ports, id) == TableKeys(s.ports, id);
      }
    }
  }

  lemma StepOwned(s: State, e: Event, k: nat, cfg: Config)
    requires Enabled(s, e, k, cfg) && Owned(s)
    ensures Owned(Step(s, e, k, cfg))
  {
    match e
    case Begin(_, _, _) => BeginOwned(s, e, k, cfg);
    case Packet(_, _, _) => PacketOwned(s, e, k, cfg);
    case DialFailed(c) => DialingOwned(s, Step(s, e, k, cfg), c);
    case DialDone(_, _) => DialDoneOwned(s, e, k, cfg);
    case Finish(_) => FinishOwned(s, e, k, cfg);
    case Collect(_) => CollectOwned(s, e, k, cfg);
    case CloseOne(x) =>
      var s' := Step(s, e, k, cfg);
      forall id
        ensures Places(s', id) == Places(s, id)
      {
        assert TableKeys(s'.ports, id) == TableKeys(s.ports, id);
        assert HoldersOf(s'.creators, id) == HoldersOf(s.creators, id);
      }
  }

  /** In every run, every session opened is under its own key in the table, with its creator, waiting
      to be closed, or closed once: exactly one of these. */
  lemma {:induction false} SessionsOwned(es: seq<Event>, k: nat, cfg: Config)
    requires Exec(es, k, cfg).Reached?
    ensures Owned(Exec(es, k, cfg).s)
  {
    if es == [] {
      forall id
        ensures Places(INIT, id) == 0
      {
        assert TableKeys(INIT.ports, id) == {};
        assert HoldersOf(INIT.creators, id) == {};
      }
    } else {
      SessionsOwned(es[..|es| - 1], k, cfg);
      StepOwned(Exec(es[..|es| - 1], k, cfg).s, es[|es| - 1], k, cfg);
    }
  }

  /** No closed session is ever in the table, and none is closed twice. */
  lemma NoClosedSessionInTable(es: seq<Event>, k: nat, cfg: Config, key: Key)
    requires Exec(es, k, cfg).Reached? && key in Exec(es, k, cfg).s.ports
    ensures var s := Exec(es, k, cfg).s;
            s.ports[key].key == key && s.closed[s.ports[key].id] == 0 && s.ports[key].id !in s.closing
    ensures forall id :: Exec(es, k, cfg).s.closed[id] <= 1
  {
    SessionsOwned(es, k, cfg);
    var s := Exec(es, k, cfg).s;
    assert Places(s, s.ports[key].id) <= 1;
    OnlyMember(TableKeys(s.ports, s.ports[key].id), key);
    forall id
      ensures s.closed[id] <= 1
    {
      assert Places(s, id) <= 1;
    }
  }

  // ---- how long a session lives ----

  /** A lookup or a packet for a key. */
  predicate Touches(e: Event, key: Key) {
    (e.Begin? || e.Packet?) && e.key == key
  }

  /** The time of the last of them, or t when there is none. */
  function LastSeen(es: seq<Event>, key: Key, t: int): (seen: int) {
    if es == [] then t
    else
      var e := es[|es| - 1];
      if Touches(e, key) then e.now else LastSeen(es[..|es| - 1], key, t)
  }

  /** The configured idle time, or a minute. */
  function Patience(cfg: Config): (d: int) {
    if cfg.portTimeout > 0 then cfg.portTimeout else 60_000_000_000
  }

  /** No collection finds a session of that key, last seen at t before es, idle for too long. */
  predicate Survives(es: seq<Event>, key: Key, t: int, cfg: Config) {
    es == [] ||
    var init, e := es[..|es| - 1], es[|es| - 1];
    Survives(init, key, t, cfg) && (e.Collect? ==> e.now - LastSeen(init, key, t) <= Patience(cfg))
  }

  ghost predicate Removed(s: State, id: nat) {
    id in s.closing || s.closed[id] > 0
  }

  /** The session under a key keeps its identity and its time, unless it is touched or collected. */
  lemma SessionStep(s: State, e: Event, k: nat, cfg: Config, key: Key)
    requires Enabled(s, e, k, cfg) && key in s.ports
    ensures var n, t := s.ports[key], Step(s, e, k, cfg);
            if e.Collect? && e.now - n.lastSeen > Patience(cfg) then Removed(t, n.id)
            else && key in t.ports && t.ports[key].id == n.id
                 && t.ports[key].lastSeen == if Touches(e, key) then e.now else n.lastSeen
  {
  }

  lemma RemovedStep(s: State, e: Event, k: nat, cfg: Config, id: nat)
    requires Enabled(s, e, k, cfg) && Removed(s, id)
    ensures Removed(Step(s, e, k, cfg), id)
  {
  }

  lemma {:induction false} ReachedBefore(es: seq<Event>, after: seq<Event>, k: nat, cfg: Config)
    requires Exec(es + after, k, cfg).Reached?
    ensures Exec(es, k, cfg).Reached?
  {
    if after == [] {
      assert es + after == es;
    } else {
      Bytes.InitOfSum(es, after);
      ReachedBefore(es, after[..|after| - 1], k, cfg);
    }
  }

  lemma {:induction false} SessionFate(es: seq<Event>, after: seq<Event>, k: nat, cfg: Config, key: Key)
    requires Exec(es + after, k, cfg).Reached? && Exec(es, k, cfg).Reached? && key in Exec(es, k, cfg).s.ports
    ensures var n, s := Exec(es, k, cfg).s.ports[key], Exec(es + after, k, cfg).s;
            if Survives(after, key, n.lastSeen, cfg)
            then key in s.ports && s.ports[key].id == n.id && s.ports[key].lastSeen == LastSeen(after, key, n.lastSeen)
            else Removed(s, n.id)
  {
    if after == [] {
      assert es + after == es;
    } else {
      var n, init, e := Exec(es, k, cfg).s.ports[key], after[..|after| - 1], after[|after| - 1];
      Bytes.InitOfSum(es, after);
      ReachedBefore(es + init, [e], k, cfg);
      SessionFate(es, init, k, cfg, key);
      var s := Exec(es + init, k, cfg).s;
      hide Step;
      if Survives(init, key, n.lastSeen, cfg) {
        SessionStep(s, e, k, cfg, key);
      } else {
        RemovedStep(s, e, k, cfg, n.id);
      }
    }
  }

  lemma RemovedIsOut(es: seq<Event>, k: nat, cfg: Config, id: nat, key: Key)
    requires Exec(es, k, cfg).Reached? && Removed(Exec(es, k, cfg).s, id)
    ensures var s := Exec(es, k, cfg).s; s.closed[id] <= 1 && (key in s.ports ==> s.ports[key].id != id)
  {
    var s := Exec(es, k, cfg).s;
    SessionsOwned(es, k, cfg);
    assert Places(s, id) <= 1;
    if key in s.ports { NoClosedSessionInTable(es, k, cfg, key); }
  }

  /** Exactly the sessions that no collection finds idle for longer than the timeout stay, with the time of their last
      lookup or packet. Any other is waiting to be closed or closed once, and never in the table again. */
  lemma SessionLives(es: seq<Event>, after: seq<Event>, k: nat, cfg: Config, key: Key)
    requires Exec(es + after, k, cfg).Reached? && Exec(es, k, cfg).Reached? && key in Exec(es, k, cfg).s.ports
    ensures var n, s := Exec(es, k, cfg).s.ports[key], Exec(es + after, k, cfg).s;
            && (key in s.ports && s.ports[key].id == n.id <==> Survives(after, key, n.lastSeen, cfg))
            && (Survives(after, key, n.lastSeen, cfg) ==> s.ports[key].lastSeen == LastSeen(after, key, n.lastSeen))
            && (!Survives(after, key, n.lastSeen, cfg) ==> n.id in s.closing || s.closed[n.id] == 1)
  {
    SessionFate(es, after, k, cfg, key);
    var n := Exec(es, k, cfg).s.ports[key];
    if !Survives(after, key, n.lastSeen, cfg) { RemovedIsOut(es + after, k, cfg, n.id, key); }
  }

  /** Every collection in es comes within the timeout of t, and no lookup or packet for the key is from before t. */
  predicate Within(es: seq<Event>, key: Key, t: int, cfg: Config) {
    forall i | 0 <= i < |es| ::
      (es[i].Collect? ==> es[i].now - t <= Patience(cfg)) && (Touches(es[i], key) ==> es[i].now >= t)
  }

  lemma {:induction false} WithinSurvives(es: seq<Event>, key: Key, t: int, cfg: Config)
    requires Within(es, key, t, cfg)
    ensures Survives(es, key, t, cfg) && LastSeen(es, key, t) >= t
  {
    if es != [] {
      assert Within(es[..|es| - 1], key, t, cfg);
      WithinSurvives(es[..|es| - 1], key, t, cfg);
    }
  }

  /** A session that a lookup or a packet has found at time t is still there as long as collections come within the
      timeout of t. */
  lemma LookupKeeps(es: seq<Event>, e: Event, after: seq<Event>, k: nat, cfg: Config, key: Key)
    requires Exec(es, k, cfg).Reached? && key in Exec(es, k, cfg).s.ports && Touches(e, key)
    requires Exec(es + [e] + after, k, cfg).Reached? && Within(after, key, e.now, cfg)
    ensures var s := Exec(es + [e] + after, k, cfg).s;
            key in s.ports && s.ports[key].id == Exec(es, k, cfg).s.ports[key].id && s.ports[key].lastSeen >= e.now
  {
    ReachedBefore(es + [e], after, k, cfg);
    Bytes.InitOfSum(es, [e]);
    assert es + [e][..0] == es;
    SessionStep(Exec(es, k, cfg).s, e, k, cfg, key);
    WithinSurvives(after, key, e.now, cfg);
    SessionFate(es + [e], after, k, cfg, key);
  }

  /** The times have to be in order for that: the clock is read before the lock is taken, so a lookup may set the time
      back, and then a collection within the timeout of the later one removes the session. */
  lemma LateLookupLoses(es: seq<Event>, k: nat, cfg: Config, key: Key, dst: string, t: int)
    requires Exec(es, k, cfg).Reached? && key in Exec(es, k, cfg).s.ports
    ensures var e, late, now := Packet(key, dst, t), Packet(key, dst, t - 1), t + Patience(cfg);
            var o := Exec(es + [e] + [late] + [Collect(now)], k, cfg);
            o.Reached? && (key in o.s.ports ==> o.s.ports[key].id != Exec(es, k, cfg).s.ports[key].id)
  {
    var e, late, gc := Packet(key, dst, t), Packet(key, dst, t - 1), Collect(t + Patience(cfg));
    var s := Exec(es, k, cfg).s;
    var s1 := Step(s, e, k, cfg);
    var s2 := Step(s1, late, k, cfg);
    hide Step, Exec;
    OneMoreStep(es, s, e, k, cfg);
    OneMoreStep(es + [e], s1, late, k, cfg);
    OneMoreStep(es + [e] + [late], s2, gc, k, cfg);
    var after := [e, late] + [gc];
    assert es + after == es + [e] + [late] + [gc];
    assert after[..2] == [e, late];
    SessionLives(es, after, k, cfg, key);
  }

  lemma {:induction false} Untouched(es: seq<Event>, key: Key, t: int)
    requires forall i | 0 <= i < |es| :: !Touches(es[i], key)
    ensures LastSeen(es, key, t) == t
  {
    if es != [] { Untouched(es[..|es| - 1], key, t); }
  }

  /** One that is neither looked up nor used after t is gone for good, and closed or about to be, once a collection
      comes later than the timeout after t. */
  lemma IdleIsCollected(es: seq<Event>, quiet: seq<Event>, now: int, after: seq<Event>, k: nat, cfg: Config, key: Key)
    requires Exec(es, k, cfg).Reached? && key in Exec(es, k, cfg).s.ports
    requires (forall i | 0 <= i < |quiet| :: !Touches(quiet[i], key))
    requires now - Exec(es, k, cfg).s.ports[key].lastSeen > Patience(cfg)
    requires Exec(es + (quiet + [Collect(now)] + after), k, cfg).Reached?
    ensures var id, s := Exec(es, k, cfg).s.ports[key].id, Exec(es + (quiet + [Collect(now)] + after), k, cfg).s;
            (id in s.closing || s.closed[id] == 1) && (key in s.ports ==> s.ports[key].id != id)
  {
    var t, most := Exec(es, k, cfg).s.ports[key].lastSeen, quiet + [Collect(now)];
    Untouched(quiet, key, t);
    assert most[..|most| - 1] == quiet;
    assert !Survives(most, key, t, cfg);
    NeverRevived(most, after, key, t, cfg);
    SessionLives(es, most + after, k, cfg, key);
  }

  lemma {:induction false} NeverRevived(es: seq<Event>, after: seq<Event>, key: Key, t: int, cfg: Config)
    requires !Survives(es, key, t, cfg)
    ensures !Survives(es + after, key, t, cfg)
  {
    if after == [] {
      assert es + after == es;
    } else {
      Bytes.InitOfSum(es, after);
      NeverRevived(es, after[..|after| - 1], key, t, cfg);
    }
  }

  /** When a destination of that key was last used: a collection forgets it after the flow timeout, or half a minute. */
  function FlowSeen(es: seq<Event>, key: Key, dst: string, cfg: Config, was: Bytes.Option<int>): (seen: Bytes.Option<int>) {
    if es == [] then was
    else
      var seen, e := FlowSeen(es[..|es| - 1], key, dst, cfg, was), es[|es| - 1];
      match e
      case Packet(key', dst', now) => if key' == key && dst' == dst then Bytes.Some(now) else seen
      case Collect(now) =>
        if seen.Some? && now - seen.value > (if cfg.flowTimeout > 0 then cfg.flowTimeout else 30_000_000_000)
        then Bytes.None else seen
      case _ => seen
  }

  function FlowOf(n: Session, dst: string): (seen: Bytes.Option<int>) {
    if dst in n.flows then Bytes.Some(n.flows[dst]) else Bytes.None
  }

  lemma FlowStep(s: State, e: Event, k: nat, cfg: Config, key: Key, dst: string)
    requires Enabled(s, e, k, cfg) && key in s.ports && key in Step(s, e, k, cfg).ports
    ensures FlowOf(Step(s, e, k, cfg).ports[key], dst) == FlowSeen([e], key, dst, cfg, FlowOf(s.ports[key], dst))
  {
    assert [e][..0] == [];
  }

  /** While a session stays, its flows are those used recently enough, each with the time of its last packet. */
  lemma {:induction false} FlowsFollow(es: seq<Event>, after: seq<Event>, k: nat, cfg: Config, key: Key, dst: string)
    requires Exec(es + after, k, cfg).Reached? && Exec(es, k, cfg).Reached? && key in Exec(es, k, cfg).s.ports
    requires Survives(after, key, Exec(es, k, cfg).s.ports[key].lastSeen, cfg)
    ensures var n, s := Exec(es, k, cfg).s.ports[key], Exec(es + after, k, cfg).s;
            key in s.ports && FlowOf(s.ports[key], dst) == FlowSeen(after, key, dst, cfg, FlowOf(n, dst))
  {
    SessionFate(es, after, k, cfg, key);
    if after == [] {
      assert es + after == es;
    } else {
      var init, e := after[..|after| - 1], after[|after| - 1];
      Bytes.InitOfSum(es, after);
      ReachedBefore(es + init, [e], k, cfg);
      FlowsFollow(es, init, k, cfg, key, dst);
      FlowStep(Exec(es + init, k, cfg).s, e, k, cfg, key, dst);
      assert [e][..0] == [];
    }
  }

  // ---- where a session comes from ----

  /** What the last call of getOrCreate with this number asked for, and when. */
  function Asked(es: seq<Event>, c: nat): (a: Bytes.Option<(Key, int)>) {
    if es == [] then Bytes.None
    else
      var e := es[|es| - 1];
      if e.Begin? && e.c == c then Bytes.Some((e.key, e.now)) else Asked(es[..|es| - 1], c)
  }

  ghost predicate Remembers(creator: Creator, a: Bytes.Option<(Key, int)>) {
    match creator
    case Dialing(key, since) => a == Bytes.Some((key, since))
    case Holding(n) => a == Bytes.Some((n.key, n.lastSeen)) && n.flows == map[]
  }

  lemma RemembersStep(s: State, e: Event, k: nat, cfg: Config, c: nat, a: Bytes.Option<(Key, int)>)
    requires Enabled(s, e, k, cfg) && (c in s.creators ==> Remembers(s.creators[c], a))
    ensures var t, a' := Step(s, e, k, cfg), if e.Begin? && e.c == c then Bytes.Some((e.key, e.now)) else a;
            c in t.creators ==> Remembers(t.creators[c], a')
  {
  }

  /** A creator dials for the key it was asked for, and its session counts as seen at that time. */
  lemma {:induction false} CreatorRemembers(es: seq<Event>, k: nat, cfg: Config, c: nat)
    requires Exec(es, k, cfg).Reached? && c in Exec(es, k, cfg).s.creators
    ensures Remembers(Exec(es, k, cfg).s.creators[c], Asked(es, c))
  {
    if es != [] {
      var init, e := es[..|es| - 1], es[|es| - 1];
      var s := Exec(init, k, cfg).s;
      if c in s.creators { CreatorRemembers(init, k, cfg, c); }
      RemembersStep(s, e, k, cfg, c, Asked(init, c));
    }
  }

  /** When it is done, the session is in the table under that key and seen at that time, unless the key has been taken:
      then the table is left alone and the duplicate is to be closed. */
  lemma Installed(es: seq<Event>, k: nat, cfg: Config, c: nat)
    requires Exec(es, k, cfg).Reached? && Enabled(Exec(es, k, cfg).s, Finish(c), k, cfg)
    ensures Asked(es, c).Some?
    ensures var s, t, a := Exec(es, k, cfg).s, Step(Exec(es, k, cfg).s, Finish(c), k, cfg), Asked(es, c).value;
            var id := s.creators[c].s.id;
            if a.0 in s.ports then t.ports == s.ports && id in t.closing
            else t.ports == s.ports[a.0 := Session(a.0, id, a.1, map[])] && t.closing == s.closing
  {
    CreatorRemembers(es, k, cfg, c);
  }
}
