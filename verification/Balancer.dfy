/** The pool of upstreams: checks, reports and picks, one step at a time. Upstreams are positions in the pool. */
module Balancer {
  import opened Bytes
  import opened Counting
  import opened Health
  import opened Selection

  datatype Upstream = Upstream(weight: int, tcp: Side, udp: Side)

  datatype Settings = Settings(hc: Config, cooldown: int, stickyTTL: int, minSwitch: int)

  datatype State = State(pool: seq<Upstream>, current: Option<nat>, stickyUntil: int)

  function SideOf(u: Upstream, p: Proto): (s: Side) {
    if p.TCP? then u.tcp else u.udp
  }

  function WithSide(u: Upstream, p: Proto, s: Side): (v: Upstream) {
    if p.TCP? then u.(tcp := s) else u.(udp := s)
  }

  predicate Valid(s: State) {
    s.current.Some? ==> s.current.value < |s.pool|
  }

  // ---- steps ----

  /** A health event on one protocol of one upstream, the reset of the sticky period that ends a TCP report,
      or a pick. */
  datatype Event = On(p: Proto, i: nat, e: Health.Event) | Unstick(i: nat) | Pick(p: Proto, now: int)

  predicate ValidStep(e: Event, size: nat, g: Settings) {
    match e
    case On(p, i, h) => i < size && h.now > 0 && ValidEvent(h, g.hc)
    case Unstick(i) => i < size
    case Pick(p, now) => now > 0
  }

  /** A report starts a cooldown, and whatever leaves the upstream healthy ends it. */
  function SideStep(s: Side, g: Settings, e: Health.Event): (r: Side)
    requires ValidEvent(e, g.hc)
  {
    var h := Apply(s.h, g.hc, e);
    match e
    case Reported(now, _) => Side(h, now + g.cooldown)
    case Scheduled(_) => Side(h, s.cooldown)
    case _ => Side(h, if h.healthy then 0 else s.cooldown)
  }

  function Keys(pool: seq<Upstream>, p: Proto, now: int, g: Settings): (ks: seq<Option<real>>)
    ensures |ks| == |pool|
    ensures forall i | 0 <= i < |pool| :: ks[i] == Key(SideOf(pool[i], p), pool[i].weight, now, g.hc.interval)
  {
    seq(|pool|, i requires 0 <= i < |pool| => Key(SideOf(pool[i], p), pool[i].weight, now, g.hc.interval))
  }

  /** The best of the first n candidates that are not used. */
  function Best(ks: seq<Option<real>>, used: set<nat>, n: nat): (b: Option<nat>)
    requires n <= |ks|
    ensures b.Some? ==> b.value < n && Has(ks, b.value) && b.value !in used
  {
    if n == 0 then None
    else
      var b := Best(ks, used, n - 1);
      if !Has(ks, n - 1) || n - 1 in used then b
      else if b.None? || ks[n - 1].value < ks[b.value].value then Some(n - 1)
      else b
  }

  predicate CurrentOk(s: State, now: int)
    requires Valid(s)
  {
    s.current.Some? && s.pool[s.current.value].tcp.h.healthy && now > s.pool[s.current.value].tcp.cooldown
  }

  predicate Sticky(s: State, now: int)
    requires Valid(s)
  {
    s.current.Some? && now < s.stickyUntil && CurrentOk(s, now)
  }

  /** The current upstream is not slow enough, against the best, to move away from it. */
  predicate Keeps(s: State, g: Settings, now: int, best: nat)
    requires Valid(s) && best < |s.pool|
  {
    && CurrentOk(s, now) && s.current.value != best
    && var cur, new_ := s.pool[s.current.value].tcp.h.rttEWMA, s.pool[best].tcp.h.rttEWMA;
       cur > 0 && new_ > 0 && cur - new_ < g.minSwitch
  }

  function Choice(s: State, g: Settings, p: Proto, now: int): (r: Option<nat>)
    requires Valid(s)
    ensures r.Some? ==> r.value < |s.pool|
  {
    if p.TCP? && Sticky(s, now) then s.current
    else
      var best := Best(Keys(s.pool, p, now, g), {}, |s.pool|);
      if best.Some? && p.TCP? && Keeps(s, g, now, best.value) then s.current else best
  }

  function AfterPick(s: State, g: Settings, p: Proto, now: int): (r: State)
    requires Valid(s)
  {
    var choice := Choice(s, g, p, now);
    if p.UDP? || Sticky(s, now) || choice.None? then s
    else s.(current := choice, stickyUntil := now + g.stickyTTL)
  }

  function Step(s: State, g: Settings, e: Event): (r: State)
    requires Valid(s) && ValidStep(e, |s.pool|, g)
    ensures Valid(r) && |r.pool| == |s.pool|
  {
    match e
    case On(p, i, h) => s.(pool := s.pool[i := WithSide(s.pool[i], p, SideStep(SideOf(s.pool[i], p), g, h))])
    case Unstick(i) => if s.current == Some(i) then s.(stickyUntil := 0) else s
    case Pick(p, now) => AfterPick(s, g, p, now)
  }

  predicate ValidSteps(es: seq<Event>, size: nat, g: Settings) {
    forall k | 0 <= k < |es| :: ValidStep(es[k], size, g)
  }

  function Exec(s: State, g: Settings, es: seq<Event>): (r: State)
    requires Valid(s) && ValidSteps(es, |s.pool|, g)
    ensures Valid(r) && |r.pool| == |s.pool|
  {
    if es == [] then s else Step(Exec(s, g, es[..|es| - 1]), g, es[|es| - 1])
  }

  predicate Fresh(s: State) {
    && s.current == None
    && forall i | 0 <= i < |s.pool| :: s.pool[i].tcp == Side(INIT, 0) && s.pool[i].udp == Side(INIT, 0)
  }

  // ---- the best candidate ----

  lemma {:induction false} BestScan(ks: seq<Option<real>>, used: set<nat>, n: nat)
    requires n <= |ks|
    ensures var b := Best(ks, used, n);
            forall j: nat | j < n && Has(ks, j) && j !in used && b != Some(j) ::
              b.Some? && Before(ks, b.value, j)
  {
    if n > 0 { BestScan(ks, used, n - 1); }
  }

  lemma BestIsBest(ks: seq<Option<real>>, used: set<nat>)
    ensures IsBest(ks, used, Best(ks, used, |ks|))
  {
    BestScan(ks, used, |ks|);
  }

  // ---- cooldown ----

  /** A healthy side is not cooling down. */
  predicate Warm(s: Side) {
    s.h.healthy ==> s.cooldown == 0
  }

  ghost predicate AllWarm(s: State) {
    forall p: Proto, i: nat | i < |s.pool| :: Warm(SideOf(s.pool[i], p))
  }

  lemma SideStepWarm(s: Side, g: Settings, e: Health.Event)
    requires ValidEvent(e, g.hc) && Warm(s)
    ensures Warm(SideStep(s, g, e))
  {
  }

  lemma StepWarm(s: State, g: Settings, e: Event)
    requires Valid(s) && ValidStep(e, |s.pool|, g) && AllWarm(s)
    ensures AllWarm(Step(s, g, e))
  {
    if e.On? {
      assert Warm(SideOf(s.pool[e.i], e.p));
      SideStepWarm(SideOf(s.pool[e.i], e.p), g, e.e);
      forall p: Proto, i: nat | i < |s.pool|
        ensures Warm(SideOf(Step(s, g, e).pool[i], p))
      {
        assert Warm(SideOf(s.pool[i], p));
      }
    }
  }

  /** In every run a healthy upstream has no cooldown left. */
  lemma {:induction false} CooldownInvariant(s: State, g: Settings, es: seq<Event>)
    requires Fresh(s) && ValidSteps(es, |s.pool|, g)
    ensures AllWarm(Exec(s, g, es))
  {
    if es != [] {
      CooldownInvariant(s, g, es[..|es| - 1]);
      StepWarm(Exec(s, g, es[..|es| - 1]), g, es[|es| - 1]);
    }
  }

  /** So the strict test on the current upstream, the non-strict one on candidates and plain health agree. */
  lemma {:induction false} TestsAgree(s: State, g: Settings, es: seq<Event>, p: Proto, i: nat, now: int)
    requires Fresh(s) && ValidSteps(es, |s.pool|, g) && i < |s.pool| && now > 0
    ensures var side := SideOf(Exec(s, g, es).pool[i], p);
            && (Eligible(side, now) <==> side.h.healthy)
            && (Eligible(side, now) <==> side.h.healthy && now > side.cooldown)
  {
    CooldownInvariant(s, g, es);
    assert Warm(SideOf(Exec(s, g, es).pool[i], p));
  }

  // ---- picks and histories ----

  /** The health events that a run holds for one protocol of one upstream. */
  function History(es: seq<Event>, p: Proto, i: nat): (hs: seq<Health.Event>) {
    if es == [] then []
    else
      var hs, e := History(es[..|es| - 1], p, i), es[|es| - 1];
      if e.On? && e.p == p && e.i == i then hs + [e.e] else hs
  }

  lemma {:induction false} HistoryValid(es: seq<Event>, size: nat, g: Settings, p: Proto, i: nat)
    requires ValidSteps(es, size, g)
    ensures ValidEvents(History(es, p, i), g.hc)
  {
    if es != [] { HistoryValid(es[..|es| - 1], size, g, p, i); }
  }

  lemma {:induction false} RunSnoc(h: HC, hs: seq<Health.Event>, e: Health.Event, n: nat, c: Config)
    requires ValidEvents(hs, c) && ValidEvent(e, c) && n <= |hs|
    ensures Run(h, hs + [e], n, c) == Run(h, hs, n, c)
  {
    if n > 0 { RunSnoc(h, hs, e, n - 1, c); }
  }

  lemma StepHealth(s: State, g: Settings, e: Event, p: Proto, i: nat)
    requires Valid(s) && ValidStep(e, |s.pool|, g) && i < |s.pool|
    ensures var h := SideOf(s.pool[i], p).h;
            SideOf(Step(s, g, e).pool[i], p).h
            == if e.On? && e.p == p && e.i == i then Apply(h, g.hc, e.e) else h
  {
  }

  /** The health of each side is what its own history makes it. */
  lemma {:induction false} SideIsRun(s: State, g: Settings, es: seq<Event>, p: Proto, i: nat)
    requires Fresh(s) && ValidSteps(es, |s.pool|, g) && i < |s.pool|
    ensures var hs := History(es, p, i);
            ValidEvents(hs, g.hc) && SideOf(Exec(s, g, es).pool[i], p).h == Run(INIT, hs, |hs|, g.hc)
  {
    HistoryValid(es, |s.pool|, g, p, i);
    if es != [] {
      var init, e := es[..|es| - 1], es[|es| - 1];
      SideIsRun(s, g, init, p, i);
      StepHealth(Exec(s, g, init), g, e, p, i);
      if e.On? && e.p == p && e.i == i {
        RunSnoc(INIT, History(init, p, i), e.e, |History(init, p, i)|, g.hc);
      }
    }
  }

  lemma ChoiceHealthy(s: State, g: Settings, p: Proto, now: int)
    requires Valid(s)
    ensures var r := Choice(s, g, p, now); r.Some? ==> SideOf(s.pool[r.value], p).h.healthy
  {
  }

  /** Whatever a pick returns is up by its own history, for that protocol. */
  lemma PickedIsUp(s: State, g: Settings, es: seq<Event>, p: Proto, now: int)
    requires Fresh(s) && ValidSteps(es, |s.pool|, g)
    requires g.hc.successThreshold >= 1 && g.hc.failThreshold >= 1
    ensures var r := Choice(Exec(s, g, es), g, p, now);
            r.Some? ==> var hs := History(es, p, r.value); Up(hs, |hs|, g.hc)
  {
    var r := Choice(Exec(s, g, es), g, p, now);
    if r.Some? {
      var hs := History(es, p, r.value);
      ChoiceHealthy(Exec(s, g, es), g, p, now);
      SideIsRun(s, g, es, p, r.value);
      HealthRefinesHistory(hs, |hs|, g.hc);
    }
  }

  /** Durations fit 64 bits. */
  predicate Bounded(h: HC, now: int) {
    h.rttEWMA < 0x8000_0000_0000_0000 && now - h.lastCheck < 0x8000_0000_0000_0000
  }

  lemma NoneHasNoKey(s: State, g: Settings, p: Proto, now: int, i: nat)
    requires Valid(s) && Choice(s, g, p, now).None? && i < |s.pool|
    ensures Key(SideOf(s.pool[i], p), s.pool[i].weight, now, g.hc.interval).None?
  {
    var ks := Keys(s.pool, p, now, g);
    BestIsBest(ks, {});
    assert !Has(ks, i);
  }

  /** A pick fails only when every upstream is down. */
  lemma NoneMeansDown(s: State, g: Settings, es: seq<Event>, p: Proto, now: int, i: nat)
    requires Fresh(s) && ValidSteps(es, |s.pool|, g) && now > 0 && i < |s.pool|
    requires g.hc.successThreshold >= 1 && 1 <= g.hc.failThreshold <= 1_000_000_000_000_000 && g.hc.interval >= 0
    requires Bounded(SideOf(Exec(s, g, es).pool[i], p).h, now)
    requires Choice(Exec(s, g, es), g, p, now).None?
    ensures var hs := History(es, p, i); !Up(hs, |hs|, g.hc)
  {
    var hs, t := History(es, p, i), Exec(s, g, es);
    SideIsRun(s, g, es, p, i);
    HealthRefinesHistory(hs, |hs|, g.hc);
    UpBounds(hs, |hs|, g.hc);
    NoneHasNoKey(t, g, p, now, i);
    TestsAgree(s, g, es, p, i, now);
    if Up(hs, |hs|, g.hc) { EligibleHasKey(SideOf(t.pool[i], p), t.pool[i].weight, now, g.hc.interval); }
  }

  /** No event of es raises side p of upstream i. */
  predicate NeverRaised(es: seq<Event>, p: Proto, i: nat) {
    forall k | 0 <= k < |es| && es[k].On? && es[k].p == p && es[k].i == i :: !es[k].e.Passed? && !es[k].e.Disabled?
  }

  lemma {:induction false} StaysDown(s: State, g: Settings, es: seq<Event>, p: Proto, i: nat)
    requires Valid(s) && ValidSteps(es, |s.pool|, g) && i < |s.pool| && NeverRaised(es, p, i)
    requires !SideOf(s.pool[i], p).h.healthy
    ensures !SideOf(Exec(s, g, es).pool[i], p).h.healthy
  {
    if es != [] { StaysDown(s, g, es[..|es| - 1], p, i); }
  }

  /** An upstream reported as failed is not picked for that protocol until a check of it has passed or
      checks are disabled, however long its cooldown. */
  lemma ReportedStaysOut(s: State, g: Settings, p: Proto, i: nat, now: int, draw: int, es: seq<Event>, later: int)
    requires Valid(s) && i < |s.pool| && ValidStep(On(p, i, Reported(now, draw)), |s.pool|, g)
    requires ValidSteps(es, |s.pool|, g) && NeverRaised(es, p, i)
    ensures Choice(Exec(Step(s, g, On(p, i, Reported(now, draw))), g, es), g, p, later) != Some(i)
  {
    var t := Step(s, g, On(p, i, Reported(now, draw)));
    StaysDown(t, g, es, p, i);
    ChoiceHealthy(Exec(t, g, es), g, p, later);
  }

  // ---- noninterference between the protocols ----

  predicate Concerns(e: Event, p: Proto) {
    match e
    case On(q, _, _) => q == p
    case Unstick(_) => p == TCP
    case Pick(q, _) => q == p
  }

  function Only(es: seq<Event>, p: Proto): (r: seq<Event>)
    ensures forall k | 0 <= k < |r| :: r[k] in es
  {
    if es == [] then []
    else
      var r, e := Only(es[..|es| - 1], p), es[|es| - 1];
      if Concerns(e, p) then r + [e] else r
  }

  /** What protocol p can see: its own sides, and for TCP the sticky choice. */
  ghost predicate SameView(s: State, t: State, p: Proto) {
    && |s.pool| == |t.pool|
    && (forall i | 0 <= i < |s.pool| ::
          s.pool[i].weight == t.pool[i].weight && SideOf(s.pool[i], p) == SideOf(t.pool[i], p))
    && (p == TCP ==> s.current == t.current && s.stickyUntil == t.stickyUntil)
  }

  lemma SameChoice(s: State, t: State, g: Settings, p: Proto, now: int)
    requires Valid(s) && Valid(t) && SameView(s, t, p)
    ensures Choice(s, g, p, now) == Choice(t, g, p, now)
  {
    assert Keys(s.pool, p, now, g) == Keys(t.pool, p, now, g);
  }

  lemma SameStep(s: State, t: State, g: Settings, e: Event, p: Proto)
    requires Valid(s) && Valid(t) && SameView(s, t, p) && ValidStep(e, |s.pool|, g) && Concerns(e, p)
    ensures SameView(Step(s, g, e), Step(t, g, e), p)
  {
    if e.Pick? { SameChoice(s, t, g, p, e.now); }
  }

  lemma OtherStep(s: State, g: Settings, e: Event, p: Proto)
    requires Valid(s) && ValidStep(e, |s.pool|, g) && !Concerns(e, p)
    ensures SameView(Step(s, g, e), s, p)
  {
  }

  lemma ExecSnoc(s: State, g: Settings, es: seq<Event>, e: Event)
    requires Valid(s) && ValidSteps(es, |s.pool|, g) && ValidStep(e, |s.pool|, g)
    ensures Exec(s, g, es + [e]) == Step(Exec(s, g, es), g, e)
  {
    assert (es + [e])[..|es|] == es;
  }

  lemma {:induction false} ViewDependsOnOwn(s: State, g: Settings, es: seq<Event>, p: Proto)
    requires Valid(s) && ValidSteps(es, |s.pool|, g)
    ensures SameView(Exec(s, g, es), Exec(s, g, Only(es, p)), p)
  {
    if es != [] {
      var init, e := es[..|es| - 1], es[|es| - 1];
      ViewDependsOnOwn(s, g, init, p);
      if Concerns(e, p) {
        SameStep(Exec(s, g, init), Exec(s, g, Only(init, p)), g, e, p);
        ExecSnoc(s, g, Only(init, p), e);
      } else {
        OtherStep(Exec(s, g, init), g, e, p);
      }
    }
  }

  /** The answers of all picks for protocol p, in order. */
  function Answers(s: State, g: Settings, es: seq<Event>, p: Proto): (r: seq<Option<nat>>)
    requires Valid(s) && ValidSteps(es, |s.pool|, g)
  {
    if es == [] then []
    else
      var init, e := es[..|es| - 1], es[|es| - 1];
      var r := Answers(s, g, init, p);
      if e.Pick? && e.p == p then r + [Choice(Exec(s, g, init), g, p, e.now)] else r
  }

  lemma AnswersSnoc(s: State, g: Settings, es: seq<Event>, e: Event, p: Proto)
    requires Valid(s) && ValidSteps(es, |s.pool|, g) && ValidStep(e, |s.pool|, g)
    ensures Answers(s, g, es + [e], p) ==
            Answers(s, g, es, p) + if e.Pick? && e.p == p then [Choice(Exec(s, g, es), g, p, e.now)] else []
  {
    assert (es + [e])[..|es|] == es;
  }

  /** Removing every event of the other protocol from a run changes no pick of this one. */
  lemma {:induction false} Noninterference(s: State, g: Settings, es: seq<Event>, p: Proto)
    requires Valid(s) && ValidSteps(es, |s.pool|, g)
    ensures Answers(s, g, es, p) == Answers(s, g, Only(es, p), p)
  {
    if es != [] {
      var init, e := es[..|es| - 1], es[|es| - 1];
      Noninterference(s, g, init, p);
      if Concerns(e, p) {
        AnswersSnoc(s, g, Only(init, p), e, p);
        if e.Pick? {
          ViewDependsOnOwn(s, g, init, p);
          SameChoice(Exec(s, g, init), Exec(s, g, Only(init, p)), g, p, e.now);
        }
      }
    }
  }

  /** Two runs with the same events for one protocol, and any others, give the same picks for it. */
  lemma SameEventsSameAnswers(s: State, g: Settings, es: seq<Event>, fs: seq<Event>, p: Proto)
    requires Valid(s) && ValidSteps(es, |s.pool|, g) && ValidSteps(fs, |s.pool|, g)
    requires Only(es, p) == Only(fs, p)
    ensures Answers(s, g, es, p) == Answers(s, g, fs, p)
  {
    Noninterference(s, g, es, p);
    Noninterference(s, g, fs, p);
  }

  // ---- staying and switching ----

  /** UDP picks, and TCP picks without a usable current upstream, return the best candidate. */
  lemma PickIsBest(s: State, g: Settings, p: Proto, now: int)
    requires Valid(s)
    requires p == UDP || s.current.None?
             || var side := s.pool[s.current.value].tcp; !side.h.healthy || now <= side.cooldown
    ensures IsBest(Keys(s.pool, p, now, g), {}, Choice(s, g, p, now))
  {
    BestIsBest(Keys(s.pool, p, now, g), {});
  }

  /** With a usable current upstream, a TCP pick stays on it for the sticky period. Afterwards it moves to
      a different best candidate b exactly when a round trip is unknown or at least minSwitch is gained. */
  lemma SwitchIff(s: State, g: Settings, now: int, b: nat)
    requires Valid(s) && s.current.Some? && IsBest(Keys(s.pool, TCP, now, g), {}, Some(b)) && b != s.current.value
    requires var side := s.pool[s.current.value].tcp; side.h.healthy && now > side.cooldown
    ensures var r, cur, new_ := Choice(s, g, TCP, now), s.pool[s.current.value].tcp.h.rttEWMA, s.pool[b].tcp.h.rttEWMA;
            && (r == s.current || r == Some(b))
            && (r == Some(b) <==> now >= s.stickyUntil && (cur <= 0 || new_ <= 0 || cur - new_ >= g.minSwitch))
  {
    var ks := Keys(s.pool, TCP, now, g);
    BestIsBest(ks, {});
    assert Best(ks, {}, |ks|) == Some(b);
  }

  /** Events that neither fail nor unstick upstream r on TCP, with all TCP picks inside the sticky period. */
  predicate Undisturbed(es: seq<Event>, r: nat, until: int) {
    forall k | 0 <= k < |es| ::
      match es[k]
      case On(p, i, e) => p == TCP && i == r ==> !e.Failed? && !e.Reported?
      case Unstick(i) => i != r
      case Pick(p, now) => p == TCP ==> now < until
  }

  /** While nothing goes wrong with the current upstream, every TCP pick of the sticky period returns it. */
  lemma {:induction false} StickyHolds(s: State, g: Settings, es: seq<Event>, r: nat)
    requires Valid(s) && ValidSteps(es, |s.pool|, g) && s.current == Some(r)
    requires s.pool[r].tcp.h.healthy && Warm(s.pool[r].tcp) && Undisturbed(es, r, s.stickyUntil)
    ensures var t := Exec(s, g, es);
            t.current == Some(r) && t.stickyUntil == s.stickyUntil && t.pool[r].tcp.h.healthy && Warm(t.pool[r].tcp)
    ensures forall k | 0 <= k < |Answers(s, g, es, TCP)| :: Answers(s, g, es, TCP)[k] == Some(r)
  {
    if es != [] {
      var init, e := es[..|es| - 1], es[|es| - 1];
      assert Undisturbed(init, r, s.stickyUntil);
      StickyHolds(s, g, init, r);
    }
  }

  /** A TCP pick made outside a sticky period starts one: its choice is repeated until the period ends. */
  lemma PickSticks(s: State, g: Settings, now: int, es: seq<Event>)
    requires Valid(s) && AllWarm(s) && !Sticky(s, now) && now > 0 && ValidSteps(es, |s.pool|, g)
    requires var r := Choice(s, g, TCP, now); r.Some? && Undisturbed(es, r.value, now + g.stickyTTL)
    ensures var t := Step(s, g, Pick(TCP, now));
            forall k | 0 <= k < |Answers(t, g, es, TCP)| :: Answers(t, g, es, TCP)[k] == Choice(s, g, TCP, now)
  {
    var r, t := Choice(s, g, TCP, now), Step(s, g, Pick(TCP, now));
    ChoiceHealthy(s, g, TCP, now);
    assert Warm(SideOf(s.pool[r.value], TCP));
    StickyHolds(t, g, es, r.value);
  }

  /** And the period is over after exactly stickyTTL: from then on, whatever came between, the next TCP pick moves to
      a different best candidate b exactly when a round trip is unknown or at least minSwitch is gained. */
  lemma StickyEnds(s: State, g: Settings, now: int, es: seq<Event>, later: int, b: nat)
    requires Valid(s) && AllWarm(s) && !Sticky(s, now) && now > 0 && ValidSteps(es, |s.pool|, g)
    requires var r := Choice(s, g, TCP, now); r.Some? && b != r.value && Undisturbed(es, r.value, now + g.stickyTTL)
    requires later > 0 && later >= now + g.stickyTTL
    requires IsBest(Keys(Exec(Step(s, g, Pick(TCP, now)), g, es).pool, TCP, later, g), {}, Some(b))
    ensures var r, t := Choice(s, g, TCP, now), Exec(Step(s, g, Pick(TCP, now)), g, es);
            var cur, new_ := t.pool[r.value].tcp.h.rttEWMA, t.pool[b].tcp.h.rttEWMA;
            Choice(t, g, TCP, later) == if cur <= 0 || new_ <= 0 || cur - new_ >= g.minSwitch then Some(b) else r
  {
    var r, u := Choice(s, g, TCP, now), Step(s, g, Pick(TCP, now));
    ChoiceHealthy(s, g, TCP, now);
    assert Warm(SideOf(s.pool[r.value], TCP));
    StickyHolds(u, g, es, r.value);
    SwitchIff(Exec(u, g, es), g, later, b);
  }

  predicate NoTCPPick(es: seq<Event>) {
    forall k | 0 <= k < |es| :: !(es[k].Pick? && es[k].p == TCP)
  }

  lemma {:induction false} PickStateKept(s: State, g: Settings, es: seq<Event>)
    requires Valid(s) && ValidSteps(es, |s.pool|, g) && NoTCPPick(es) && s.stickyUntil <= 0
    ensures Exec(s, g, es).current == s.current && Exec(s, g, es).stickyUntil <= 0
  {
    if es != [] { PickStateKept(s, g, es[..|es| - 1]); }
  }

  /** A TCP report ends the sticky period of its upstream for good: even if the upstream is usable again before the period
      would have been over, the next TCP pick moves to a different best candidate b by the rule above. */
  lemma ReportUnsticks(s: State, g: Settings, i: nat, es: seq<Event>, later: int, b: nat)
    requires Valid(s) && s.current == Some(i) && ValidSteps(es, |s.pool|, g) && NoTCPPick(es) && later > 0 && b != i
    requires var t := Exec(Step(s, g, Unstick(i)), g, es);
             CurrentOk(t, later) && IsBest(Keys(t.pool, TCP, later, g), {}, Some(b))
    ensures var t := Exec(Step(s, g, Unstick(i)), g, es);
            var cur, new_ := t.pool[i].tcp.h.rttEWMA, t.pool[b].tcp.h.rttEWMA;
            Choice(t, g, TCP, later) == Some(if cur <= 0 || new_ <= 0 || cur - new_ >= g.minSwitch then b else i)
  {
    PickStateKept(Step(s, g, Unstick(i)), g, es);
    SwitchIff(Exec(Step(s, g, Unstick(i)), g, es), g, later, b);
  }

  /** No event of es reports side p of upstream i. */
  predicate NotReported(es: seq<Event>, p: Proto, i: nat) {
    forall k | 0 <= k < |es| && es[k].On? && es[k].p == p && es[k].i == i :: !es[k].e.Reported?
  }

  lemma {:induction false} CooldownStays(s: State, g: Settings, es: seq<Event>, p: Proto, i: nat)
    requires Valid(s) && ValidSteps(es, |s.pool|, g) && i < |s.pool| && NeverRaised(es, p, i) && NotReported(es, p, i)
    requires !SideOf(s.pool[i], p).h.healthy
    ensures !SideOf(Exec(s, g, es).pool[i], p).h.healthy
    ensures SideOf(Exec(s, g, es).pool[i], p).cooldown == SideOf(s.pool[i], p).cooldown
  {
    if es != [] { CooldownStays(s, g, es[..|es| - 1], p, i); }
  }

  /** A report cools its upstream down until `cooldown` after it, or until it is up again or reported again. */
  lemma CooldownRuns(s: State, g: Settings, p: Proto, i: nat, now: int, draw: int, es: seq<Event>)
    requires Valid(s) && i < |s.pool| && ValidStep(On(p, i, Reported(now, draw)), |s.pool|, g)
    requires ValidSteps(es, |s.pool|, g) && NeverRaised(es, p, i) && NotReported(es, p, i)
    ensures SideOf(Exec(Step(s, g, On(p, i, Reported(now, draw))), g, es).pool[i], p).cooldown == now + g.cooldown
  {
    CooldownStays(Step(s, g, On(p, i, Reported(now, draw))), g, es, p, i);
  }

  lemma NotPicked(s: State, g: Settings, p: Proto, i: nat)
    requires Valid(s) && i < |s.pool| && !SideOf(s.pool[i], p).h.healthy
    ensures forall later :: Choice(s, g, p, later) != Some(i)
  {
    forall later
      ensures Choice(s, g, p, later) != Some(i)
    {
      ChoiceHealthy(s, g, p, later);
    }
  }

  lemma SamePicks(s: State, t: State, g: Settings, p: Proto)
    requires Valid(s) && Valid(t) && SameView(s, t, p)
    ensures forall later :: Choice(s, g, p, later) == Choice(t, g, p, later)
  {
    forall later
      ensures Choice(s, g, p, later) == Choice(t, g, p, later)
    {
      SameChoice(s, t, g, p, later);
    }
  }

  // ---- the balancer object ----

  class LoadBalancer {
    const g: Settings
    var pool: seq<Upstream>
    var current: Option<nat>
    var stickyUntil: int

    constructor (weights: seq<int>, settings: Settings)
      ensures g == settings && |pool| == |weights| && Fresh(View()) && Valid(View())
      ensures forall i | 0 <= i < |weights| :: pool[i].weight == weights[i]
    {
      g := settings;
      pool := seq(|weights|, i requires 0 <= i < |weights| => Upstream(weights[i], Side(INIT, 0), Side(INIT, 0)));
      current, stickyUntil := None, 0;
    }

    function View(): (s: State)
      reads this
    {
      State(pool, current, stickyUntil)
    }

    /** One pass over the pool, keeping the lowest score so far. */
    method Scan(p: Proto, now: int, used: set<nat>) returns (best: Option<nat>, bestRTT: int)
      ensures best == Best(Keys(pool, p, now, g), used, |pool|)
      ensures IsBest(Keys(pool, p, now, g), used, best)
      ensures bestRTT == if best.None? then 0 else SideOf(pool[best.value], p).h.rttEWMA
    {
      ghost var ks := Keys(pool, p, now, g);
      best, bestRTT := None, 0;
      var bestScore := LIMIT;
      for i := 0 to |pool|
        invariant best == Best(ks, used, i)
        invariant best.None? ==> bestScore == LIMIT && bestRTT == 0
        invariant best.Some? ==> ks[best.value] == Some(bestScore) && bestRTT == SideOf(pool[best.value], p).h.rttEWMA
        invariant bestScore <= LIMIT
      {
        var side := SideOf(pool[i], p);
        if i in used || !side.h.healthy || now < side.cooldown {
          continue;
        }
        var score := Score(side.h, pool[i].weight, now, g.hc.interval);
        if score < bestScore {
          best, bestScore, bestRTT := Some(i), score, side.h.rttEWMA;
        }
      }
      BestIsBest(ks, used);
    }

    method PickByEndpoint(p: Proto, now: int) returns (r: Option<nat>)
      requires Valid(View())
      modifies this`current, this`stickyUntil
      ensures r == old(Choice(View(), g, p, now)) && View() == old(AfterPick(View(), g, p, now)) && Valid(View())
      ensures p.UDP? || r.None? ==> View() == old(View())
      ensures p.TCP? && r.Some? ==> current == r && pool == old(pool)
    {
      if p.TCP? && current.Some? && now < stickyUntil {
        var side := pool[current.value].tcp;
        if side.h.healthy && now > side.cooldown {
          return current;
        }
      }
      var best, bestRTT := Scan(p, now, {});
      if best.None? {
        return None;
      }
      if p.TCP? && current.Some? {
        var side := pool[current.value].tcp;
        if current != best && side.h.healthy && now > side.cooldown && side.h.rttEWMA > 0 && bestRTT > 0 {
          if side.h.rttEWMA - bestRTT < g.minSwitch {
            stickyUntil := now + g.stickyTTL;
            return current;
          }
        }
      }
      if p.TCP? {
        current, stickyUntil := best, now + g.stickyTTL;
      }
      return best;
    }

    /** The first n TCP candidates by score, for warming standby connections. */
    method PickTopN(now: int, n: nat) returns (top: seq<nat>)
      ensures IsTop(Keys(pool, TCP, now, g), n, top)
    {
      ghost var ks := Keys(pool, TCP, now, g);
      top := [];
      var used: set<nat> := {};
      while |top| < n
        invariant |top| <= n && used == Members(top) && IsTop(ks, |top|, top)
      {
        var best, _ := Scan(TCP, now, used);
        if best.None? {
          TopDone(ks, n, top);
          return;
        }
        TopSnoc(ks, top, best.value);
        used := used + {best.value};
        top := top + [best.value];
      }
    }

    /** The end of a check: the result is applied, and an upstream that is up has its cooldown lifted. */
    method FinishCheck(p: Proto, i: nat, err: bool, rtt: int, now: int, draw: int)
      requires Valid(View()) && i < |pool| && now > 0 && Draw(draw, g.hc.jitter) && rtt >= 0
      modifies this`pool
      ensures View() == old(Step(View(), g, On(p, i, if err then Failed(now, draw) else Passed(rtt, now, draw))))
      ensures old(AllWarm(View())) ==> AllWarm(View())
    {
      ghost var s := View();
      var side := SideOf(pool[i], p);
      var h := ApplyHCResult(side.h, g.hc, err, rtt, now, draw);
      side := side.(h := h);
      if h.healthy {
        side := side.(cooldown := 0);
      }
      pool := pool[i := WithSide(pool[i], p, side)];
      if AllWarm(s) { StepWarm(s, g, On(p, i, if err then Failed(now, draw) else Passed(rtt, now, draw))); }
    }

    /** The assignments of a report on one protocol of upstream i. */
    method MarkFailed(p: Proto, i: nat, now: int, draw: int)
      requires Valid(View()) && i < |pool| && now > 0 && Draw(draw, g.hc.jitter)
      modifies this`pool
      ensures View() == old(Step(View(), g, On(p, i, Reported(now, draw))))
    {
      var side := SideOf(pool[i], p);
      var h := side.h.(failing := true);
      h := h.(failCount := h.failCount + 1);
      h := h.(successCount := 0);
      h := h.(healthy := false);
      h := h.(hcEvery := g.hc.minInterval);
      h := h.(nextHC := now + ApplyJitter(g.hc.minInterval, g.hc.jitter, draw));
      pool := pool[i := WithSide(pool[i], p, Side(h, now + g.cooldown))];
    }

    /** After a TCP report no TCP pick returns that upstream, and every UDP pick is as it was. */
    method ReportTCPFailure(u: Option<nat>, now: int, draw: int)
      requires Valid(View()) && (u.Some? ==> u.value < |pool|) && now > 0 && Draw(draw, g.hc.jitter)
      modifies this`pool, this`stickyUntil
      ensures Valid(View())
      ensures View() == old(if u.None? then View()
                            else Step(Step(View(), g, On(TCP, u.value, Reported(now, draw))), g, Unstick(u.value)))
      ensures u.Some? ==> forall later :: Choice(View(), g, TCP, later) != u
      ensures forall later :: Choice(View(), g, UDP, later) == old(Choice(View(), g, UDP, later))
    {
      if u.None? {
        return;
      }
      ghost var s := View();
      MarkFailed(TCP, u.value, now, draw);
      if current == u {
        stickyUntil := 0;
      }
      NotPicked(View(), g, TCP, u.value);
      SamePicks(s, View(), g, UDP);
    }

    /** After a UDP report no UDP pick returns that upstream, and every TCP pick is as it was. */
    method ReportUDPFailure(u: Option<nat>, now: int, draw: int)
      requires Valid(View()) && (u.Some? ==> u.value < |pool|) && now > 0 && Draw(draw, g.hc.jitter)
      modifies this`pool
      ensures Valid(View())
      ensures View() == old(if u.None? then View() else Step(View(), g, On(UDP, u.value, Reported(now, draw))))
      ensures u.Some? ==> forall later :: Choice(View(), g, UDP, later) != u
      ensures forall later :: Choice(View(), g, TCP, later) == old(Choice(View(), g, TCP, later))
    {
      if u.None? {
        return;
      }
      ghost var s := View();
      MarkFailed(UDP, u.value, now, draw);
      NotPicked(View(), g, UDP, u.value);
      SamePicks(s, View(), g, TCP);
    }
  }
}
