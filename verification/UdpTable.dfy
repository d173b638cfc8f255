/** The table of UDP sessions by source port: size limit, duplicate resolution and garbage collection. */
module UdpTable {

  datatype Key = Key(netProto: nat, srcIP: seq<int>, srcPort: nat)

  /** flows maps a destination to the time of its last packet. */
  datatype Session = Session(key: Key, id: nat, lastSeen: int, flows: map<string, int>)

  type Ports = map<Key, Session>

  datatype Config = Config(maxFlows: int, portTimeout: int, flowTimeout: int)

  function Limit(c: Config): (n: nat) {
    if c.maxFlows <= 0 then 4096 else c.maxFlows
  }

  const SECOND := 1_000_000_000

  function PortIdle(c: Config): (n: int) {
    if c.portTimeout <= 0 then 60 * SECOND else c.portTimeout
  }

  function FlowIdle(c: Config): (n: int) {
    if c.flowTimeout <= 0 then 30 * SECOND else c.flowTimeout
  }

  // ---- the critical sections, as functions of the table ----

  function Touch(ports: Ports, key: Key, now: int): (p: Ports) {
    if key in ports then ports[key := ports[key].(lastSeen := now)] else ports
  }

  predicate Expired(s: Session, now: int, c: Config) {
    now - s.lastSeen > PortIdle(c)
  }

  function PruneFlows(flows: map<string, int>, now: int, idle: int): (m: map<string, int>) {
    map dst | dst in flows && now - flows[dst] <= idle :: flows[dst]
  }

  /** What a collection leaves: the sessions seen recently enough, without their idle flows. */
  function Collected(ports: Ports, now: int, c: Config): (p: Ports) {
    map k | k in ports && !Expired(ports[k], now, c) ::
      ports[k].(flows := PruneFlows(ports[k].flows, now, FlowIdle(c)))
  }

  datatype Lookup = Found(s: Session) | LimitReached | MayCreate

  class UdpPortTable {
    const cfg: Config
    var ports: Ports

    constructor (cfg: Config)
      ensures this.cfg == cfg && ports == map[]
    {
      this.cfg := cfg;
      ports := map[];
    }

    /** First critical section of getOrCreate: reuse a session, or check the limit. */
    method Check(key: Key, now: int) returns (r: Lookup)
      modifies this
      ensures r.Found? <==> key in old(ports)
      ensures r.Found? ==> ports == Touch(old(ports), key, now) && r.s == ports[key]
      ensures r.Found? ==> r.s == old(ports)[key].(lastSeen := now) && ports == old(ports)[key := r.s]
      ensures !r.Found? ==> ports == old(ports)
      ensures r.LimitReached? <==>
                key !in old(ports) && |old(ports)| >= if cfg.maxFlows > 0 then cfg.maxFlows else 4096
    {
      if key in ports {
        ports := ports[key := ports[key].(lastSeen := now)];
        return Found(ports[key]);
      }
      if |ports| >= Limit(cfg) { return LimitReached; }
      return MayCreate;
    }

    /** Second critical section: install the new session unless the key was taken meanwhile; the
        caller then closes the duplicate. */
    method Install(s: Session) returns (winner: Session, duplicate: bool)
      modifies this
      ensures duplicate <==> s.key in old(ports)
      ensures duplicate ==> ports == old(ports) && winner == ports[s.key]
      ensures !duplicate ==> ports == old(ports)[s.key := s] && winner == s
    {
      if s.key in ports { return ports[s.key], true; }
      ports := ports[s.key := s];
      return s, false;
    }

    /** Deletes idle flows of one session; `gone` are the destinations to unsubscribe. */
    method PruneSession(k: Key, now: int) returns (gone: set<string>)
      requires k in ports
      modifies this
      ensures ports == old(ports)[k := old(ports)[k].(flows := PruneFlows(old(ports)[k].flows, now, FlowIdle(cfg)))]
      ensures gone == set dst | dst in old(ports)[k].flows && now - old(ports)[k].flows[dst] > FlowIdle(cfg)
    {
      var s := ports[k];
      var todo, flows := s.flows.Keys, s.flows;
      gone := {};
      while todo != {}
        invariant todo <= s.flows.Keys
        invariant forall d :: d in flows <==> d in s.flows && (d in todo || now - s.flows[d] <= FlowIdle(cfg))
        invariant forall d | d in flows :: flows[d] == s.flows[d]
        invariant forall d :: d in gone <==> d in s.flows && d !in todo && now - s.flows[d] > FlowIdle(cfg)
        decreases |todo|
      {
        var dst :| dst in todo;
        if now - flows[dst] > FlowIdle(cfg) {
          flows := map d | d in flows && d != dst :: flows[d];
          gone := gone + {dst};
        }
        todo := todo - {dst};
      }
      assert flows == PruneFlows(s.flows, now, FlowIdle(cfg));
      ports := ports[k := s.(flows := flows)];
    }

    ghost predicate Valid()
      reads this
    {
      ByOwnKey(ports)
    }

    /** Removes exactly the sessions idle beyond the timeout, prunes the flows of the others, and
        returns each removed session once, to be closed outside the lock. */
    method GcOnce(now: int) returns (toClose: seq<Session>)
      requires Valid()
      modifies this
      ensures Valid() && ports == Collected(old(ports), now, cfg)
      ensures Removed(old(ports), {}, toClose, now, cfg)
    {
      ghost var was := ports;
      var todo := ports.Keys;
      toClose := [];
      assert ports == Partly(was, todo, now, cfg);
      while todo != {}
        invariant todo <= was.Keys && ports == Partly(was, todo, now, cfg)
        invariant Removed(was, todo, toClose, now, cfg)
        decreases |todo|
      {
        var k :| k in todo;
        var gone := PruneSession(k, now);
        var s := ports[k];
        PartlyStep(was, todo, k, now, cfg);
        RemovedStep(was, todo, toClose, k, s, now, cfg);
        if now - s.lastSeen > PortIdle(cfg) {
          ports := ports - {k};
          toClose := toClose + [s];
        }
        todo := todo - {k};
      }
      assert ports == Collected(was, now, cfg);
    }
  }

  ghost predicate ByOwnKey(ports: Ports) {
    forall k | k in ports :: ports[k].key == k
  }

  /** The table part way through a collection: the keys in `todo` have not been visited. */
  function Partly(was: Ports, todo: set<Key>, now: int, c: Config): (p: Ports) {
    map k | k in was && (k in todo || !Expired(was[k], now, c)) ::
      if k in todo then was[k] else was[k].(flows := PruneFlows(was[k].flows, now, FlowIdle(c)))
  }

  lemma PartlyStep(was: Ports, todo: set<Key>, k: Key, now: int, c: Config)
    requires k in todo && k in was
    ensures var pruned := was[k].(flows := PruneFlows(was[k].flows, now, FlowIdle(c)));
            Partly(was, todo - {k}, now, c)
            == if Expired(was[k], now, c) then Partly(was, todo, now, c)[k := pruned] - {k}
               else Partly(was, todo, now, c)[k := pruned]
  {
  }

  /** The sessions to close are the expired ones visited so far, each once. */
  ghost predicate Removed(was: Ports, todo: set<Key>, toClose: seq<Session>, now: int, c: Config)
  {
    && (forall i | 0 <= i < |toClose| ::
          toClose[i].key in was && toClose[i].key !in todo && Expired(was[toClose[i].key], now, c)
          && toClose[i].id == was[toClose[i].key].id)
    && (forall i, j | 0 <= i < j < |toClose| :: toClose[i].key != toClose[j].key)
    && (forall k | k in was && k !in todo && Expired(was[k], now, c) :: exists i :: 0 <= i < |toClose| && toClose[i].key == k)
  }

  lemma RemovedStep(was: Ports, todo: set<Key>, toClose: seq<Session>, k: Key, s: Session, now: int, c: Config)
    requires Removed(was, todo, toClose, now, c) && k in todo && k in was
    requires s.key == k && s.id == was[k].id
    ensures Removed(was, todo - {k}, if Expired(was[k], now, c) then toClose + [s] else toClose, now, c)
  {
    if Expired(was[k], now, c) {
      var more := toClose + [s];
      forall x | x in was && x !in todo - {k} && Expired(was[x], now, c)
        ensures exists i :: 0 <= i < |more| && more[i].key == x
      {
        if x == k {
          assert more[|toClose|].key == x;
        } else {
          var i :| 0 <= i < |toClose| && toClose[i].key == x;
          assert more[i].key == x;
        }
      }
    }
  }
}
