/**
 The health-check scheduler: in-flight flags, the probe limiter and the dial limiter inside it, over
 every interleaving of the goroutines. Each channel operation and each locked region is one step.
 */
module ProbeScheduler {
  import opened Counting

  const PROBE_LIMIT := 2
  const PROBE_DIAL_LIMIT := 4

  datatype Target = Target(up: nat, proto: Proto)

  /** Where one check is. `rounds` is how many dial-limited probes it may still make: the transport
      probe and then the quality probe. */
  datatype Pc =
    | Waiting             // for a probe slot
    | Probing(rounds: nat)
    | Dialing(rounds: nat) // holding a dial slot as well
    | Cleared             // result applied and flag cleared, probe slot still held

  datatype Check = Check(target: Target, pc: Pc)

  /** probeSem and dialSem are the numbers of tokens in the two channels. */
  datatype State = State(inFlight: set<Target>, checks: map<nat, Check>, probeSem: nat, dialSem: nat)

  const INIT := State({}, map[], 0, 0)

  datatype Event =
    | Launch(g: nat, t: Target) // the scheduler finds t due and not in flight
    | AcquireProbe(g: nat)
    | GiveUp(g: nat)            // context done before a probe slot was free
    | AcquireDial(g: nat)
    | GiveUpDial(g: nat)        // context done before a dial slot was free
    | ReleaseDial(g: nat)
    | ApplyResult(g: nat)
    | ReleaseProbe(g: nat)

  predicate Enabled(s: State, e: Event) {
    match e
    case Launch(g, t) => g !in s.checks && t !in s.inFlight
    case AcquireProbe(g) => g in s.checks && s.checks[g].pc.Waiting? && s.probeSem < PROBE_LIMIT
    case GiveUp(g) => g in s.checks && s.checks[g].pc.Waiting?
    case AcquireDial(g) => WantsDial(s, g) && s.dialSem < PROBE_DIAL_LIMIT
    case GiveUpDial(g) => WantsDial(s, g)
    case ReleaseDial(g) => g in s.checks && s.checks[g].pc.Dialing?
    case ApplyResult(g) => g in s.checks && s.checks[g].pc.Probing? && s.checks[g].pc.rounds < 2
    case ReleaseProbe(g) => g in s.checks && s.checks[g].pc.Cleared?
  }

  predicate WantsDial(s: State, g: nat) {
    g in s.checks && s.checks[g].pc.Probing? && s.checks[g].pc.rounds > 0
  }

  function Move(s: State, g: nat, pc: Pc): (s': State)
    requires g in s.checks
  {
    s.(checks := s.checks[g := s.checks[g].(pc := pc)])
  }

  /** Taking a token off a channel; with none there the default branch does nothing. */
  function Take(n: nat): (m: nat) {
    if n > 0 then n - 1 else n
  }

  function Step(s: State, e: Event): (s': State)
    requires Enabled(s, e)
  {
    match e
    case Launch(g, t) => s.(inFlight := s.inFlight + {t}, checks := s.checks[g := Check(t, Waiting)])
    case AcquireProbe(g) => Move(s, g, Probing(2)).(probeSem := s.probeSem + 1)
    case GiveUp(g) => s.(inFlight := s.inFlight - {s.checks[g].target}, checks := s.checks - {g})
    case AcquireDial(g) => Move(s, g, Dialing(s.checks[g].pc.rounds - 1)).(dialSem := s.dialSem + 1)
    case GiveUpDial(g) => Move(s, g, Probing(0))
    case ReleaseDial(g) => Move(s, g, Probing(s.checks[g].pc.rounds)).(dialSem := Take(s.dialSem))
    case ApplyResult(g) => Move(s, g, Cleared).(inFlight := s.inFlight - {s.checks[g].target})
    case ReleaseProbe(g) => s.(checks := s.checks - {g}, probeSem := Take(s.probeSem))
  }

  datatype Outcome = Impossible | Reached(s: State)

  function Exec(es: seq<Event>): (o: Outcome)
  {
    if es == [] then Reached(INIT)
    else
      var o, e := Exec(es[..|es| - 1]), es[|es| - 1];
      if o.Reached? && Enabled(o.s, e) then Reached(Step(o.s, e)) else Impossible
  }

  // ---- counting goroutines ----

  ghost function Those(checks: map<nat, Check>, p: Check -> bool): (gs: set<nat>) {
    set g | g in checks && p(checks[g])
  }

  lemma CountJoin(checks: map<nat, Check>, g: nat, c: Check, p: Check -> bool)
    requires g !in checks
    ensures |Those(checks[g := c], p)| == |Those(checks, p)| + One(p(c))
  {
    assert Those(checks[g := c], p) == Those(checks, p) + if p(c) then {g} else {};
  }

  lemma CountLeave(checks: map<nat, Check>, g: nat, p: Check -> bool)
    requires g in checks
    ensures |Those(checks - {g}, p)| == |Those(checks, p)| - One(p(checks[g]))
  {
    assert Those(checks - {g}, p) == Those(checks, p) - {g};
    assert p(checks[g]) <==> g in Those(checks, p);
  }

  lemma CountMove(checks: map<nat, Check>, g: nat, c: Check, p: Check -> bool)
    requires g in checks
    ensures |Those(checks[g := c], p)| == |Those(checks, p)| - One(p(checks[g])) + One(p(c))
  {
    CountLeave(checks, g, p);
    CountJoin(checks - {g}, g, c, p);
    assert (checks - {g})[g := c] == checks[g := c];
  }

  predicate HoldsProbe(c: Check) { !c.pc.Waiting? }

  predicate HoldsDial(c: Check) { c.pc.Dialing? }

  /** Launched for t and not yet cleared. */
  function Pending(t: Target): Check -> bool {
    (c: Check) => c.target == t && !c.pc.Cleared?
  }

  ghost predicate Counted(s: State) {
    && s.probeSem == |Those(s.checks, HoldsProbe)| <= PROBE_LIMIT
    && s.dialSem == |Those(s.checks, HoldsDial)|
  }

  ghost predicate Flagged(s: State) {
    forall t :: |Those(s.checks, Pending(t))| == One(t in s.inFlight)
  }

  lemma Nonempty(s: State, g: nat, p: Check -> bool)
    requires g in s.checks && p(s.checks[g])
    ensures |Those(s.checks, p)| > 0
  {
    assert g in Those(s.checks, p);
  }

  lemma StepCounted(s: State, e: Event)
    requires Enabled(s, e) && Counted(s)
    ensures Counted(Step(s, e))
  {
    match e
    case Launch(g, t) =>
      CountJoin(s.checks, g, Check(t, Waiting), HoldsProbe);
      CountJoin(s.checks, g, Check(t, Waiting), HoldsDial);
    case AcquireProbe(g) => MoveCounted(s, g, Probing(2));
    case GiveUp(g) => LeaveCounted(s, g);
    case AcquireDial(g) => MoveCounted(s, g, Dialing(s.checks[g].pc.rounds - 1));
    case GiveUpDial(g) => MoveCounted(s, g, Probing(0));
    case ReleaseDial(g) =>
      MoveCounted(s, g, Probing(s.checks[g].pc.rounds));
      Nonempty(s, g, HoldsDial);
    case ApplyResult(g) => MoveCounted(s, g, Cleared);
    case ReleaseProbe(g) =>
      LeaveCounted(s, g);
      Nonempty(s, g, HoldsProbe);
  }

  lemma MoveCounted(s: State, g: nat, pc: Pc)
    requires g in s.checks
    ensures var checks := Move(s, g, pc).checks;
            && |Those(checks, HoldsProbe)| == |Those(s.checks, HoldsProbe)| - One(HoldsProbe(s.checks[g])) + One(!pc.Waiting?)
            && |Those(checks, HoldsDial)| == |Those(s.checks, HoldsDial)| - One(HoldsDial(s.checks[g])) + One(pc.Dialing?)
  {
    CountMove(s.checks, g, s.checks[g].(pc := pc), HoldsProbe);
    CountMove(s.checks, g, s.checks[g].(pc := pc), HoldsDial);
  }

  lemma LeaveCounted(s: State, g: nat)
    requires g in s.checks
    ensures |Those(s.checks - {g}, HoldsProbe)| == |Those(s.checks, HoldsProbe)| - One(HoldsProbe(s.checks[g]))
    ensures |Those(s.checks - {g}, HoldsDial)| == |Those(s.checks, HoldsDial)| - One(HoldsDial(s.checks[g]))
  {
    CountLeave(s.checks, g, HoldsProbe);
    CountLeave(s.checks, g, HoldsDial);
  }

  /** How one step changes the checks pending for a target. */
  lemma StepPending(s: State, e: Event, t: Target)
    requires Enabled(s, e) && |Those(s.checks, Pending(t))| == One(t in s.inFlight)
    ensures |Those(Step(s, e).checks, Pending(t))| == One(t in Step(s, e).inFlight)
  {
    var p := Pending(t);
    match e
    case Launch(g, u) => CountJoin(s.checks, g, Check(u, Waiting), p);
    case AcquireProbe(g) => CountMove(s.checks, g, s.checks[g].(pc := Probing(2)), p);
    case GiveUp(g) =>
      CountLeave(s.checks, g, p);
      if s.checks[g].target == t { Nonempty(s, g, p); }
    case AcquireDial(g) => CountMove(s.checks, g, s.checks[g].(pc := Dialing(s.checks[g].pc.rounds - 1)), p);
    case GiveUpDial(g) => CountMove(s.checks, g, s.checks[g].(pc := Probing(0)), p);
    case ReleaseDial(g) => CountMove(s.checks, g, s.checks[g].(pc := Probing(s.checks[g].pc.rounds)), p);
    case ApplyResult(g) =>
      CountMove(s.checks, g, s.checks[g].(pc := Cleared), p);
      if s.checks[g].target == t { Nonempty(s, g, p); }
    case ReleaseProbe(g) => CountLeave(s.checks, g, p);
  }

  /** In every run: the probe channel holds one token per check between acquire and release, never more
      than two; the dial channel one per dialling check; and the flag of a target is up exactly when
      one launched check has not cleared it. */
  lemma {:induction false} SchedulerSafe(es: seq<Event>)
    requires Exec(es).Reached?
    ensures Counted(Exec(es).s) && Flagged(Exec(es).s)
  {
    if es == [] {
      assert Those(INIT.checks, HoldsProbe) == {} && Those(INIT.checks, HoldsDial) == {};
      forall t
        ensures |Those(INIT.checks, Pending(t))| == 0
      {
        assert Those(INIT.checks, Pending(t)) == {};
      }
    } else {
      var s, e := Exec(es[..|es| - 1]).s, es[|es| - 1];
      SchedulerSafe(es[..|es| - 1]);
      StepCounted(s, e);
      forall t
        ensures |Those(Step(s, e).checks, Pending(t))| == One(t in Step(s, e).inFlight)
      {
        StepPending(s, e, t);
      }
    }
  }

  /** The dial limiter never makes a check wait, and no release finds its channel empty. */
  lemma LimitersNeverBlockOrUnderflow(es: seq<Event>, g: nat)
    requires Exec(es).Reached?
    ensures var s := Exec(es).s;
            && s.dialSem <= s.probeSem <= PROBE_LIMIT < PROBE_DIAL_LIMIT
            && (WantsDial(s, g) ==> Enabled(s, AcquireDial(g)))
            && (Enabled(s, ReleaseDial(g)) ==> s.dialSem > 0)
            && (Enabled(s, ReleaseProbe(g)) ==> s.probeSem > 0)
  {
    SchedulerSafe(es);
    var s := Exec(es).s;
    SubsetSize(Those(s.checks, HoldsDial), Those(s.checks, HoldsProbe));
    if Enabled(s, ReleaseDial(g)) { Nonempty(s, g, HoldsDial); }
    if Enabled(s, ReleaseProbe(g)) { Nonempty(s, g, HoldsProbe); }
  }

  /** Two unfinished checks never share an upstream and protocol. */
  lemma NoDuplicateChecks(es: seq<Event>, g: nat, h: nat)
    requires Exec(es).Reached?
    requires var c := Exec(es).s.checks;
             g in c && h in c && c[g].target == c[h].target && !c[g].pc.Cleared? && !c[h].pc.Cleared?
    ensures g == h && Exec(es).s.checks[g].target in Exec(es).s.inFlight
  {
    SchedulerSafe(es);
    var s := Exec(es).s;
    var those := Those(s.checks, Pending(s.checks[g].target));
    assert g in those && h in those;
    assert |those - {g}| == |those| - 1;
    assert those - {g} == {};
  }

  /** How many dial slots check g has taken since it was launched. */
  function Dials(es: seq<Event>, g: nat): (n: nat) {
    if es == [] then 0
    else match es[|es| - 1]
      case Launch(h, _) => if h == g then 0 else Dials(es[..|es| - 1], g)
      case AcquireDial(h) => Dials(es[..|es| - 1], g) + if h == g then 1 else 0
      case _ => Dials(es[..|es| - 1], g)
  }

  /** How many it may still take. */
  function Rounds(pc: Pc): (n: nat) {
    match pc
    case Waiting => 2
    case Probing(r) => r
    case Dialing(r) => r
    case Cleared => 0
  }

  /** A check dials at most twice: for the transport probe and for the quality probe. */
  lemma {:induction false} DialsAtMostTwice(es: seq<Event>, g: nat)
    requires Exec(es).Reached? && g in Exec(es).s.checks
    ensures Dials(es, g) + Rounds(Exec(es).s.checks[g].pc) <= 2
  {
    if es != [] {
      var init, s := es[..|es| - 1], Exec(es[..|es| - 1]).s;
      if g in s.checks { DialsAtMostTwice(init, g); }
    }
  }

  /** Once it has its probe slot, a check always has a next step of its own, whatever the others do, that does not give
      anything up. */
  lemma NeverStuck(es: seq<Event>, g: nat)
    requires Exec(es).Reached? && g in Exec(es).s.checks && !Exec(es).s.checks[g].pc.Waiting?
    ensures var s := Exec(es).s;
            Enabled(s, AcquireDial(g)) || Enabled(s, ReleaseDial(g)) || Enabled(s, ApplyResult(g)) || Enabled(s, ReleaseProbe(g))
  {
    LimitersNeverBlockOrUnderflow(es, g);
  }
}
