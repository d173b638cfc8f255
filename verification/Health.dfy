/** Health-check state of one upstream and protocol: counters, round-trip average, check intervals. */
module Health {

  /** Durations are nanoseconds. */
  datatype Config = Config(
    interval: int,
    failThreshold: int,
    successThreshold: int,
    minInterval: int,
    maxInterval: int,
    jitter: int,
    backoff: real,
    rttScale: real)

  datatype HC = HC(
    healthy: bool,
    failCount: nat,
    successCount: nat,
    failing: bool, // the last check or report left an error
    lastCheck: int,
    lastRTT: int,
    rttEWMA: int,
    nextHC: int,
    hcEvery: int)

  const INIT := HC(false, 0, 0, false, 0, 0, 0, 0, 0)

  /** Conversion of a floating-point duration to an integer one truncates toward zero. */
  function Trunc(x: real): (n: int) {
    if x >= 0.0 then x.Floor else -((-x).Floor)
  }

  /** A duration multiplied by a factor. */
  function Scale(x: int, f: real): (r: int)
    ensures x >= 0 && f >= 0.0 ==> r >= 0
  {
    Product(x as real, f);
    Trunc(x as real * f)
  }

  lemma Product(x: real, y: real)
    ensures x >= 0.0 && y >= 0.0 ==> x * y >= 0.0
  {
  }

  function Times(x: real, y: real): (r: real) { x * y }

  lemma TimesOrder(x: real, y: real, q: real)
    requires q > 0.0
    ensures Times(x, q) <= Times(y, q) <==> x <= y
  {
    Product(y - x, q);
    if x > y { PositiveProduct(x - y, q); }
    assert Times(y, q) - Times(x, q) == (y - x) * q == -((x - y) * q);
  }

  lemma PositiveProduct(x: real, y: real)
    requires x > 0.0 && y > 0.0
    ensures x * y > 0.0
  {
  }

  function MinDur(a: int, b: int): (m: int)
    ensures m <= a && m <= b && (m == a || m == b)
  {
    if a < b then a else b
  }

  function Clamp(x: int, lo: int, hi: int): (r: int) {
    var y := if x < lo then lo else x;
    if y > hi then hi else y
  }

  /** `draw` is uniform on [0, 2*jitter]. */
  predicate Draw(draw: int, jitter: int) {
    jitter > 0 ==> 0 <= draw <= 2 * jitter
  }

  /** A duration near d and, for d >= 0, never negative. */
  function ApplyJitter(d: int, jitter: int, draw: int): (r: int)
    requires Draw(draw, jitter)
    ensures d >= 0 ==> r >= 0
    ensures jitter <= 0 ==> r == d
    ensures jitter > 0 ==> d - jitter <= r <= d + jitter
  {
    if jitter <= 0 then d
    else
      var j := draw - jitter;
      if d + j < 0 then d else d + j
  }

  /** Every duration within jitter of d that is not negative is the result of one draw. */
  lemma JitterCovers(d: int, jitter: int, r: int)
    requires jitter > 0 && r >= 0 && d - jitter <= r <= d + jitter
    ensures Draw(r - d + jitter, jitter) && ApplyJitter(d, jitter, r - d + jitter) == r
  {
  }

  function IntervalOnFailure(h: HC, c: Config): (next: int) {
    var base := if h.hcEvery > 0 then h.hcEvery else c.minInterval;
    var base := if h.healthy then c.minInterval else base;
    Clamp(Scale(base, c.backoff), c.minInterval, c.maxInterval)
  }

  function IntervalOnSuccess(h: HC, c: Config): (next: int) {
    var base := if h.hcEvery == 0 then c.interval else h.hcEvery;
    var base := if h.successCount < 3 then MinDur(base, c.interval) else base;
    var add := Scale(h.rttEWMA, c.rttScale);
    Clamp(Scale(base, 1.2) + add, c.minInterval, c.maxInterval)
  }

  function Average(avg: int, rtt: int): (r: int) {
    if avg == 0 then rtt else Trunc(avg as real * 0.8 + rtt as real * 0.2)
  }

  /** A finished check, a failure reported by traffic, the scheduler starting, or checks being disabled. */
  datatype Event =
    | Passed(rtt: int, now: int, draw: int)
    | Failed(now: int, draw: int)
    | Reported(now: int, draw: int)
    | Scheduled(now: int)
    | Disabled(now: int)

  predicate ValidEvent(e: Event, c: Config) {
    match e
    case Passed(rtt, now, draw) => rtt >= 0 && Draw(draw, c.jitter)
    case Failed(now, draw) => Draw(draw, c.jitter)
    case Reported(now, draw) => Draw(draw, c.jitter)
    case Scheduled(_) => true
    case Disabled(_) => true
  }

  predicate ValidConfig(c: Config) {
    && c.failThreshold >= 1 && c.successThreshold >= 1
    && 0 < c.minInterval <= c.maxInterval && c.interval > 0
    && c.backoff >= 0.0 && c.rttScale >= 0.0
  }

  function ApplyFailure(h: HC, c: Config, now: int, draw: int): (r: HC)
    requires Draw(draw, c.jitter)
  {
    var h := h.(lastCheck := now, failing := true, successCount := 0, failCount := h.failCount + 1);
    var h := if h.failCount >= c.failThreshold then h.(healthy := false) else h;
    var every := IntervalOnFailure(h, c);
    h.(hcEvery := every, nextHC := now + ApplyJitter(every, c.jitter, draw))
  }

  function ApplySuccess(h: HC, c: Config, rtt: int, now: int, draw: int): (r: HC)
    requires Draw(draw, c.jitter)
  {
    var h := h.(lastCheck := now, failing := false, failCount := 0, successCount := h.successCount + 1,
                lastRTT := rtt, rttEWMA := Average(h.rttEWMA, rtt));
    var h := if h.successCount >= c.successThreshold then h.(healthy := true) else h;
    var every := IntervalOnSuccess(h, c);
    h.(hcEvery := every, nextHC := now + ApplyJitter(every, c.jitter, draw))
  }

  function Report(h: HC, c: Config, now: int, draw: int): (r: HC)
    requires Draw(draw, c.jitter)
  {
    h.(failing := true, failCount := h.failCount + 1, successCount := 0, healthy := false,
       hcEvery := c.minInterval, nextHC := now + ApplyJitter(c.minInterval, c.jitter, draw))
  }

  function Apply(h: HC, c: Config, e: Event): (r: HC)
    requires ValidEvent(e, c)
  {
    match e
    case Passed(rtt, now, draw) => ApplySuccess(h, c, rtt, now, draw)
    case Failed(now, draw) => ApplyFailure(h, c, now, draw)
    case Reported(now, draw) => Report(h, c, now, draw)
    case Scheduled(now) => h.(nextHC := now, hcEvery := if h.hcEvery == 0 then c.interval else h.hcEvery)
    case Disabled(now) => h.(healthy := true, failCount := 0, successCount := 1, failing := false, lastCheck := now)
  }

  /** The assignments of applyHCResult, one after another. */
  method ApplyHCResult(h0: HC, c: Config, err: bool, rtt: int, now: int, draw: int) returns (h: HC)
    requires Draw(draw, c.jitter) && rtt >= 0
    ensures h == Apply(h0, c, if err then Failed(now, draw) else Passed(rtt, now, draw))
  {
    h := h0;
    h := h.(lastCheck := now);
    if err {
      h := h.(failing := true);
      h := h.(successCount := 0);
      h := h.(failCount := h.failCount + 1);
      if h.failCount >= c.failThreshold {
        h := h.(healthy := false);
      }
      h := h.(hcEvery := IntervalOnFailure(h, c));
      h := h.(nextHC := now + ApplyJitter(h.hcEvery, c.jitter, draw));
      return;
    }
    h := h.(failing := false);
    h := h.(failCount := 0);
    h := h.(successCount := h.successCount + 1);
    h := h.(lastRTT := rtt);
    h := h.(rttEWMA := Average(h.rttEWMA, rtt));
    if h.successCount >= c.successThreshold {
      h := h.(healthy := true);
    }
    h := h.(hcEvery := IntervalOnSuccess(h, c));
    h := h.(nextHC := now + ApplyJitter(h.hcEvery, c.jitter, draw));
  }

  predicate ValidEvents(es: seq<Event>, c: Config) {
    forall i | 0 <= i < |es| :: ValidEvent(es[i], c)
  }

  /** The state after the first n events of a history that starts in h. */
  function Run(h: HC, es: seq<Event>, n: nat, c: Config): (r: HC)
    requires ValidEvents(es, c) && n <= |es|
  {
    if n == 0 then h else Apply(Run(h, es, n - 1, c), c, es[n - 1])
  }

  // ---- the counters and the flag, from the history alone ----

  /** Successes at the end of the first n events. */
  function OkRun(es: seq<Event>, n: nat): (k: nat)
    requires n <= |es|
  {
    if n == 0 then 0
    else match es[n - 1]
      case Passed(_, _, _) => 1 + OkRun(es, n - 1)
      case Scheduled(_) => OkRun(es, n - 1)
      case Disabled(_) => 1
      case _ => 0
  }

  /** Failures and reports at the end of the first n events. */
  function FailRun(es: seq<Event>, n: nat): (k: nat)
    requires n <= |es|
    ensures OkRun(es, n) > 0 ==> k == 0
  {
    if n == 0 then 0
    else match es[n - 1]
      case Passed(_, _, _) => 0
      case Scheduled(_) => FailRun(es, n - 1)
      case Disabled(_) => 0
      case _ => 1 + FailRun(es, n - 1)
  }

  /** The i-th event completed a long enough run of successes, or disabled the checks. */
  predicate Raises(es: seq<Event>, c: Config, i: nat) {
    0 < i <= |es| && (OkRun(es, i) >= c.successThreshold || es[i - 1].Disabled?)
  }

  /** The j-th event neither reported a failure nor completed a full failure run. */
  predicate Spares(es: seq<Event>, c: Config, j: nat) {
    0 < j <= |es| && !es[j - 1].Reported? && FailRun(es, j) < c.failThreshold
  }

  /** Raised by the i-th event and spared by every later one. */
  ghost predicate UpSince(es: seq<Event>, n: nat, c: Config, i: nat)
    requires n <= |es|
  {
    i <= n && Raises(es, c, i) && forall j: nat | i < j <= n :: Spares(es, c, j)
  }

  ghost predicate Up(es: seq<Event>, n: nat, c: Config)
    requires n <= |es|
  {
    exists i: nat :: UpSince(es, n, c, i)
  }

  lemma UpStep(es: seq<Event>, n: nat, c: Config)
    requires 0 < n <= |es|
    ensures Up(es, n, c) <==> Raises(es, c, n) || (Up(es, n - 1, c) && Spares(es, c, n))
  {
    if Raises(es, c, n) { assert UpSince(es, n, c, n); }
    if Up(es, n - 1, c) && Spares(es, c, n) {
      var i: nat :| UpSince(es, n - 1, c, i);
      assert UpSince(es, n, c, i);
    }
    if Up(es, n, c) {
      var i: nat :| UpSince(es, n, c, i);
      if i < n { assert UpSince(es, n - 1, c, i) && Spares(es, c, n); }
    }
  }

  /** An upstream that is up has not had a full failure run, and one with enough successes is up. */
  lemma UpBounds(es: seq<Event>, n: nat, c: Config)
    requires n <= |es| && c.successThreshold >= 1 && c.failThreshold >= 1
    ensures Up(es, n, c) ==> FailRun(es, n) < c.failThreshold
    ensures OkRun(es, n) >= c.successThreshold ==> Up(es, n, c)
  {
    if i: nat :| UpSince(es, n, c, i) { assert i < n ==> Spares(es, c, n); }
    if OkRun(es, n) >= c.successThreshold { assert UpSince(es, n, c, n); }
  }

  lemma ApplyCounts(h: HC, c: Config, e: Event)
    requires ValidEvent(e, c)
    ensures var r := Apply(h, c, e);
            && r.failCount == (match e
                               case Failed(_, _) => h.failCount + 1
                               case Reported(_, _) => h.failCount + 1
                               case Scheduled(_) => h.failCount
                               case _ => 0)
            && r.successCount == (match e
                                  case Passed(_, _, _) => h.successCount + 1
                                  case Scheduled(_) => h.successCount
                                  case Disabled(_) => 1
                                  case _ => 0)
  {
  }

  lemma {:induction false} CountersAreRuns(es: seq<Event>, n: nat, c: Config)
    requires ValidEvents(es, c) && n <= |es|
    ensures var h := Run(INIT, es, n, c); h.failCount == FailRun(es, n) && h.successCount == OkRun(es, n)
  {
    if n > 0 {
      CountersAreRuns(es, n - 1, c);
      ApplyCounts(Run(INIT, es, n - 1, c), c, es[n - 1]);
    }
  }

  /** One event takes the flag from h to what Up says. */
  lemma ApplyKeepsUp(h: HC, es: seq<Event>, n: nat, c: Config)
    requires ValidEvents(es, c) && 0 < n <= |es| && c.successThreshold >= 1 && c.failThreshold >= 1
    requires h.healthy <==> Up(es, n - 1, c)
    requires h.failCount == FailRun(es, n - 1) && h.successCount == OkRun(es, n - 1)
    ensures Apply(h, c, es[n - 1]).healthy <==> Up(es, n, c)
  {
    UpStep(es, n, c);
    UpBounds(es, n - 1, c);
  }

  /** The counters are the trailing run lengths of the history, and the upstream is healthy exactly when
      some event raised it and every later one spared it. */
  lemma {:induction false} HealthRefinesHistory(es: seq<Event>, n: nat, c: Config)
    requires ValidEvents(es, c) && n <= |es| && c.successThreshold >= 1 && c.failThreshold >= 1
    ensures var h := Run(INIT, es, n, c);
            h.failCount == FailRun(es, n) && h.successCount == OkRun(es, n) && (h.healthy <==> Up(es, n, c))
  {
    CountersAreRuns(es, n, c);
    if n > 0 {
      HealthRefinesHistory(es, n - 1, c);
      ApplyKeepsUp(Run(INIT, es, n - 1, c), es, n, c);
    }
  }

  /** A finished check, or the disabling that stands in for one. */
  predicate Checked(e: Event) {
    e.Passed? || e.Failed? || e.Disabled?
  }

  /** The last check's time is kept; reports and scheduling do not count as checks. */
  lemma {:induction false} LastCheckKept(es: seq<Event>, n: nat, c: Config, i: nat)
    requires ValidEvents(es, c) && 0 < i <= n <= |es| && Checked(es[i - 1])
    requires forall j | i <= j < n :: !Checked(es[j])
    ensures Run(INIT, es, n, c).lastCheck == es[i - 1].now
  {
    if i < n { LastCheckKept(es, n - 1, c, i); }
  }

  /** The last passed check's round trip is kept. */
  lemma {:induction false} LastRTTKept(es: seq<Event>, n: nat, c: Config, i: nat)
    requires ValidEvents(es, c) && 0 < i <= n <= |es| && es[i - 1].Passed?
    requires forall j | i <= j < n :: !es[j].Passed?
    ensures Run(INIT, es, n, c).lastRTT == es[i - 1].rtt
  {
    if i < n { LastRTTKept(es, n - 1, c, i); }
  }

  /** An error is remembered exactly while the last thing heard was a failure. */
  lemma {:induction false} FailingIsLastWord(es: seq<Event>, n: nat, c: Config)
    requires ValidEvents(es, c) && n <= |es|
    ensures Run(INIT, es, n, c).failing <==> FailRun(es, n) > 0
  {
    if n > 0 { FailingIsLastWord(es, n - 1, c); }
  }

  // ---- intervals ----

  /** A finished check or a report, the events that choose an interval. */
  predicate Concludes(e: Event) {
    e.Passed? || e.Failed? || e.Reported?
  }

  lemma ApplyBounds(h: HC, c: Config, e: Event)
    requires ValidConfig(c) && ValidEvent(e, c) && Concludes(e)
    ensures var r := Apply(h, c, e);
            && c.minInterval <= r.hcEvery <= c.maxInterval
            && e.now <= r.nextHC
            && (c.jitter <= 0 ==> r.nextHC == e.now + r.hcEvery)
            && (c.jitter > 0 ==> e.now + r.hcEvery - c.jitter <= r.nextHC <= e.now + r.hcEvery + c.jitter)
  {
  }

  /** And every time within jitter of that interval, except before now, is chosen by one draw. */
  lemma NextCheckSpread(h: HC, c: Config, e: Event, r: int)
    requires ValidEvent(e, c) && Concludes(e) && c.jitter > 0 && r >= 0
    requires var every := Apply(h, c, e).hcEvery; every - c.jitter <= r <= every + c.jitter
    ensures var e' := e.(draw := r - Apply(h, c, e).hcEvery + c.jitter);
            ValidEvent(e', c) && Apply(h, c, e').nextHC == e.now + r
  {
    JitterCovers(Apply(h, c, e).hcEvery, c.jitter, r);
  }

  /** Every result and every report leaves the interval within its bounds and the next check within
      jitter of it, never in the past. */
  lemma IntervalBounds(h0: HC, es: seq<Event>, n: nat, c: Config)
    requires ValidConfig(c) && ValidEvents(es, c) && 0 < n <= |es| && Concludes(es[n - 1])
    ensures var h, now := Run(h0, es, n, c), es[n - 1].now;
            && c.minInterval <= h.hcEvery <= c.maxInterval
            && now <= h.nextHC
            && (c.jitter <= 0 ==> h.nextHC == now + h.hcEvery)
            && (c.jitter > 0 ==> now + h.hcEvery - c.jitter <= h.nextHC <= now + h.hcEvery + c.jitter)
  {
    ApplyBounds(Run(h0, es, n - 1, c), c, es[n - 1]);
  }

  /** One step of back-off while down. */
  function Grow(x: int, c: Config): (r: int) {
    Clamp(Scale(x, c.backoff), c.minInterval, c.maxInterval)
  }

  function GrowN(x: int, n: nat, c: Config): (r: int) {
    if n == 0 then x else Grow(GrowN(x, n - 1, c), c)
  }

  lemma DownFailureGrows(h: HC, c: Config, e: Event)
    requires ValidConfig(c) && ValidEvent(e, c) && e.Failed? && !h.healthy && h.hcEvery > 0
    ensures var r := Apply(h, c, e); !r.healthy && r.hcEvery == Grow(h.hcEvery, c) > 0
  {
  }

  /** While an upstream is down, each failed check applies one back-off step to its interval. */
  lemma {:induction false} DownRunGrows(h: HC, es: seq<Event>, n: nat, c: Config)
    requires ValidConfig(c) && ValidEvents(es, c) && n <= |es| && forall i | 0 <= i < n :: es[i].Failed?
    requires !h.healthy && h.hcEvery > 0
    ensures var r := Run(h, es, n, c); !r.healthy && r.hcEvery > 0 && r.hcEvery == GrowN(h.hcEvery, n, c)
  {
    if n > 0 {
      var before := Run(h, es, n - 1, c);
      DownRunGrows(h, es, n - 1, c);
      DownFailureGrows(before, c, es[n - 1]);
      assert Run(h, es, n, c) == Apply(before, c, es[n - 1]);
    }
  }

  /** A failed check that leaves an upstream up, or finds no interval, backs off from the minimum; one that finds
      it down or takes it down backs off from the interval it had. */
  lemma FailureInterval(h: HC, c: Config, now: int, draw: int)
    requires Draw(draw, c.jitter)
    ensures var r := Apply(h, c, Failed(now, draw));
            && (r.healthy <==> h.healthy && h.failCount + 1 < c.failThreshold)
            && (r.healthy || h.hcEvery <= 0 ==> r.hcEvery == Grow(c.minInterval, c))
            && (!r.healthy && h.hcEvery > 0 ==> r.hcEvery == Grow(h.hcEvery, c))
  {
  }

  /** A report asks for the next check after the minimum interval, and the start of the scheduler for one at once. */
  lemma PromptIntervals(h: HC, c: Config, now: int, draw: int)
    requires Draw(draw, c.jitter)
    ensures var r := Apply(h, c, Reported(now, draw));
            r.hcEvery == c.minInterval && (c.jitter <= 0 ==> r.nextHC == now + c.minInterval)
    ensures var r := Apply(h, c, Scheduled(now));
            r.nextHC == now && r.hcEvery == if h.hcEvery == 0 then c.interval else h.hcEvery
  {
  }

  lemma FifthMore(x: int)
    requires x >= 0
    ensures Scale(x, 1.2) == x + x / 5
  {
    var n := 6 * x;
    assert x as real * 1.2 == n as real / 5.0;
    FloorOfFifth(n);
    assert n / 5 == x + x / 5;
  }

  /** A passed check lengthens the interval, or the configured one if there is none, by a fifth and by the round-trip
      term. The first two successes in a row start from at most the configured interval. */
  lemma SuccessInterval(h: HC, c: Config, rtt: int, now: int, draw: int)
    requires Draw(draw, c.jitter) && rtt >= 0 && h.hcEvery >= 0 && c.interval >= 0
    ensures var r := Apply(h, c, Passed(rtt, now, draw));
            var was := if h.hcEvery == 0 then c.interval else h.hcEvery;
            var base := if h.successCount < 2 && c.interval < was then c.interval else was;
            r.hcEvery == Clamp(base + base / 5 + Scale(r.rttEWMA, c.rttScale), c.minInterval, c.maxInterval)
  {
    var was := if h.hcEvery == 0 then c.interval else h.hcEvery;
    FifthMore(was);
    FifthMore(c.interval);
  }

  lemma ScaleMonotone(x: int, y: int, f: real)
    requires 0 <= x <= y && f >= 0.0
    ensures 0 <= Scale(x, f) <= Scale(y, f)
  {
    Product((y - x) as real, f);
    assert y as real * f == x as real * f + (y - x) as real * f;
  }

  lemma ScaleLifts(x: int, f: real)
    requires x >= 0 && f >= 0.0
    ensures Scale(x, f) > x <==> Times(x as real, f) >= x as real + 1.0
  {
    Product(x as real, f);
  }

  lemma FactorAboveOne(u: real, f: real)
    requires u > 0.0 && Times(u, f) > u
    ensures f > 1.0
  {
    Product(u, 1.0 - f);
    assert u * (1.0 - f) == u - u * f;
  }

  /** A factor above one lifts a longer duration by at least as much. */
  lemma LiftGrows(u: real, d: real, f: real)
    requires d >= 0.0 && f > 1.0
    ensures Times(u + d, f) - (u + d) >= Times(u, f) - u
  {
    Product(d, f - 1.0);
    assert (u + d) * f == u * f + d + d * (f - 1.0);
  }

  /** If back-off lifts x then it lifts everything above x. */
  lemma GrowthPersists(x: int, y: int, f: real)
    requires 0 < x <= y && f >= 0.0 && Scale(x, f) > x
    ensures Scale(y, f) > y
  {
    hide Scale, Times;
    ScaleLifts(x, f);
    FactorAboveOne(x as real, f);
    LiftGrows(x as real, (y - x) as real, f);
    ScaleLifts(y, f);
  }

  lemma GrowthRises(x: int, y: int, c: Config)
    requires ValidConfig(c) && c.minInterval <= x <= y <= c.maxInterval && Scale(x, c.backoff) > x
    ensures y < c.maxInterval ==> y < Grow(y, c) <= c.maxInterval
    ensures y == c.maxInterval ==> Grow(y, c) == c.maxInterval
  {
    GrowthPersists(x, y, c.backoff);
  }

  /** With a factor of at least one, back-off never shortens an interval. */
  lemma BackoffNeverShrinks(x: int, c: Config)
    requires ValidConfig(c) && c.minInterval <= x <= c.maxInterval && c.backoff >= 1.0
    ensures x <= Grow(x, c) <= c.maxInterval
  {
    Product(x as real, c.backoff - 1.0);
    assert x as real * c.backoff == x as real + x as real * (c.backoff - 1.0);
  }

  lemma NoGrowthCaps(x: int, y: int, c: Config)
    requires ValidConfig(c) && c.minInterval <= y <= x <= c.maxInterval && Scale(x, c.backoff) <= x
    ensures c.minInterval <= Grow(y, c) <= x
  {
    ScaleMonotone(y, x, c.backoff);
  }

  lemma {:induction false} GrowthClimbs(x: int, n: nat, c: Config)
    requires ValidConfig(c) && c.minInterval <= x <= c.maxInterval && Scale(x, c.backoff) > x
    ensures x <= GrowN(x, n, c) <= c.maxInterval
    ensures GrowN(x, n, c) >= if x + n < c.maxInterval then x + n else c.maxInterval
  {
    if n > 0 {
      GrowthClimbs(x, n - 1, c);
      GrowthRises(x, GrowN(x, n - 1, c), c);
    }
  }

  lemma {:induction false} NoGrowthStays(x: int, n: nat, c: Config)
    requires ValidConfig(c) && c.minInterval <= x <= c.maxInterval && Scale(x, c.backoff) <= x
    ensures c.minInterval <= GrowN(x, n, c) <= x
  {
    if n > 0 {
      NoGrowthStays(x, n - 1, c);
      NoGrowthCaps(x, GrowN(x, n - 1, c), c);
    }
  }

  /** x multiplied n times by k. */
  function Multiplied(x: nat, k: nat, n: nat): (m: nat) {
    if n == 0 then x else Multiplied(x, k, n - 1) * k
  }

  lemma ScaleByWhole(x: nat, k: nat)
    ensures Scale(x, k as real) == x * k
  {
    assert x as real * k as real == (x * k) as real;
  }

  lemma MulGrows(m: nat, k: nat)
    requires k >= 1
    ensures m * k >= m
  {
    assert m * k == m + m * (k - 1);
  }

  lemma GrowByWhole(m: nat, k: nat, c: Config)
    requires ValidConfig(c) && c.backoff == k as real && k >= 1 && c.minInterval <= m
    ensures Grow(MinDur(m, c.maxInterval), c) == MinDur(m * k, c.maxInterval)
  {
    hide Scale;
    ScaleByWhole(MinDur(m, c.maxInterval), k);
    MulGrows(m, k);
    MulGrows(c.maxInterval, k);
  }

  /** With a whole factor k, n failed checks in a row multiply the interval n times by k, up to the maximum. */
  lemma {:induction false} BackoffIsPower(x: int, n: nat, k: nat, c: Config)
    requires ValidConfig(c) && c.backoff == k as real && k >= 1 && c.minInterval <= x <= c.maxInterval
    ensures Multiplied(x, k, n) >= x && GrowN(x, n, c) == MinDur(Multiplied(x, k, n), c.maxInterval)
  {
    hide Grow;
    if n > 0 {
      BackoffIsPower(x, n - 1, k, c);
      MulGrows(Multiplied(x, k, n - 1), k);
      GrowByWhole(Multiplied(x, k, n - 1), k, c);
    }
  }

  /** x multiplied n times by q. */
  function Geometric(x: real, q: real, n: nat): (r: real) {
    if n == 0 then x else Times(Geometric(x, q, n - 1), q)
  }

  /** A step that lengthens an interval gains at least half of what the factor promises. */
  lemma HalfGain(y: int, f: real)
    requires y > 0 && f >= 0.0 && Scale(y, f) > y
    ensures f > 1.0 && Scale(y, f) as real >= Times(y as real, (f + 1.0) / 2.0)
  {
    var u := y as real;
    Product(u, f);
    Product(u, 1.0 - f);
    assert u * (1.0 - f) == u - u * f;
    assert Times(u, (f + 1.0) / 2.0) == (u * f + u) / 2.0;
  }

  lemma GeometricStep(y: int, z: int, x: real, f: real, n: nat)
    requires y > 0 && f >= 0.0 && Scale(y, f) > y && z >= Scale(y, f)
    requires y as real >= Geometric(x, (f + 1.0) / 2.0, n)
    ensures z as real >= Geometric(x, (f + 1.0) / 2.0, n + 1)
  {
    HalfGain(y, f);
    TimesOrder(Geometric(x, (f + 1.0) / 2.0, n), y as real, (f + 1.0) / 2.0);
  }

  /** Back-off that lengthens an interval grows it geometrically, by half the factor's excess per step, until the
      maximum is reached. */
  lemma {:induction false} BackoffIsGeometric(x: int, n: nat, c: Config)
    requires ValidConfig(c) && c.minInterval <= x <= c.maxInterval && Scale(x, c.backoff) > x
    ensures GrowN(x, n, c) == c.maxInterval
         || GrowN(x, n, c) as real >= Geometric(x as real, (c.backoff + 1.0) / 2.0, n)
  {
    if n > 0 {
      var y := GrowN(x, n - 1, c);
      BackoffIsGeometric(x, n - 1, c);
      GrowthClimbs(x, n - 1, c);
      GrowthRises(x, y, c);
      GrowthPersists(x, y, c.backoff);
      if Scale(y, c.backoff) < c.maxInterval && y < c.maxInterval {
        GeometricStep(y, Grow(y, c), x as real, c.backoff, n - 1);
      }
    }
  }

  ghost predicate ReachesMax(x: int, c: Config) {
    exists n: nat :: GrowN(x, n, c) == c.maxInterval
  }

  /** Back-off from an interval x reaches the maximum, in at most maxInterval - x failed checks, if and
      only if it is there already or one step, after truncation, makes the interval longer. */
  lemma BackoffReachesMaxIff(x: int, c: Config)
    requires ValidConfig(c) && c.minInterval <= x <= c.maxInterval
    ensures ReachesMax(x, c) <==> x == c.maxInterval || Scale(x, c.backoff) > x
    ensures ReachesMax(x, c) ==> GrowN(x, c.maxInterval - x, c) == c.maxInterval
  {
    var n := c.maxInterval - x;
    if x == c.maxInterval {
      assert GrowN(x, 0, c) == c.maxInterval;
    } else if Scale(x, c.backoff) > x {
      GrowthClimbs(x, n, c);
    } else {
      forall m: nat
        ensures GrowN(x, m, c) != c.maxInterval
      {
        NoGrowthStays(x, m, c);
      }
    }
  }

  lemma LongerBySixFifths(x: int, add: int, c: Config)
    requires 0 < c.minInterval <= x <= c.maxInterval && add >= 0
    ensures var next := Clamp(Scale(x, 1.2) + add, c.minInterval, c.maxInterval);
            next >= x && (x < c.maxInterval ==> (next > x <==> x >= 5 || add >= 1))
  {
  }

  lemma PassedInterval(h: HC, c: Config, rtt: int, now: int, draw: int)
    requires ValidConfig(c) && Draw(draw, c.jitter) && rtt >= 0 && h.rttEWMA >= 0
    requires h.successCount >= 2 && h.hcEvery > 0
    ensures var r, avg := Apply(h, c, Passed(rtt, now, draw)), Average(h.rttEWMA, rtt);
            && r.rttEWMA == avg && r.successCount >= 2
            && r.hcEvery == Clamp(Scale(h.hcEvery, 1.2) + Scale(avg, c.rttScale),
                                  c.minInterval, c.maxInterval)
  {
  }

  lemma AverageNonNegative(avg: int, rtt: int)
    requires avg >= 0 && rtt >= 0
    ensures Average(avg, rtt) >= 0
  {
  }

  /** From the third success of a run on, the interval never shrinks, and below the maximum it grows
      exactly when it is at least five nanoseconds or the round-trip term adds something. */
  lemma SuccessNeverShrinks(h: HC, c: Config, rtt: int, now: int, draw: int)
    requires ValidConfig(c) && Draw(draw, c.jitter) && rtt >= 0 && h.rttEWMA >= 0
    requires h.successCount >= 2 && c.minInterval <= h.hcEvery <= c.maxInterval
    ensures var r := Apply(h, c, Passed(rtt, now, draw));
            && r.hcEvery >= h.hcEvery && r.rttEWMA >= 0 && r.successCount >= 2
            && (h.hcEvery < c.maxInterval ==>
                  (r.hcEvery > h.hcEvery <==> h.hcEvery >= 5 || Scale(r.rttEWMA, c.rttScale) >= 1))
  {
    var avg := Average(h.rttEWMA, rtt);
    PassedInterval(h, c, rtt, now, draw);
    AverageNonNegative(h.rttEWMA, rtt);
    LongerBySixFifths(h.hcEvery, Scale(avg, c.rttScale), c);
  }

  /** So a long enough success run reaches the maximum interval. */
  lemma {:induction false} SuccessRunReachesMax(h: HC, es: seq<Event>, n: nat, c: Config)
    requires ValidConfig(c) && ValidEvents(es, c) && n <= |es| && h.hcEvery >= 5
    requires forall i | 0 <= i < n :: es[i].Passed?
    requires h.successCount >= 2 && h.rttEWMA >= 0 && c.minInterval <= h.hcEvery <= c.maxInterval
    ensures var r := Run(h, es, n, c);
            && r.successCount >= 2 && r.rttEWMA >= 0 && h.hcEvery <= r.hcEvery <= c.maxInterval
            && r.hcEvery >= if h.hcEvery + n < c.maxInterval then h.hcEvery + n else c.maxInterval
  {
    if n > 0 {
      var before, e := Run(h, es, n - 1, c), es[n - 1];
      SuccessRunReachesMax(h, es, n - 1, c);
      SuccessNeverShrinks(before, c, e.rtt, e.now, e.draw);
      ApplyBounds(before, c, e);
    }
  }

  lemma PassedGain(h: HC, c: Config, rtt: int, now: int, draw: int)
    requires ValidConfig(c) && Draw(draw, c.jitter) && rtt >= 0 && h.rttEWMA >= 0
    requires h.successCount >= 2 && 5 <= h.hcEvery && c.minInterval <= h.hcEvery <= c.maxInterval
    ensures var r := Apply(h, c, Passed(rtt, now, draw)).hcEvery;
            r == c.maxInterval || r >= Scale(h.hcEvery, 1.2) == h.hcEvery + h.hcEvery / 5 > h.hcEvery
  {
    var avg := Average(h.rttEWMA, rtt);
    PassedInterval(h, c, rtt, now, draw);
    AverageNonNegative(h.rttEWMA, rtt);
    FifthMore(h.hcEvery);
  }

  const SUCCESS_RATIO := (1.2 + 1.0) / 2.0

  lemma PassedGrows(h: HC, c: Config, e: Event, x: real, n: nat)
    requires ValidConfig(c) && ValidEvent(e, c) && e.Passed? && h.rttEWMA >= 0
    requires h.successCount >= 2 && 5 <= h.hcEvery && c.minInterval <= h.hcEvery <= c.maxInterval
    requires h.hcEvery == c.maxInterval || h.hcEvery as real >= Geometric(x, SUCCESS_RATIO, n)
    ensures var r := Apply(h, c, e).hcEvery; r == c.maxInterval || r as real >= Geometric(x, SUCCESS_RATIO, n + 1)
  {
    var r := Apply(h, c, e).hcEvery;
    PassedGain(h, c, e.rtt, e.now, e.draw);
    SuccessNeverShrinks(h, c, e.rtt, e.now, e.draw);
    ApplyBounds(h, c, e);
    if r < c.maxInterval { GeometricStep(h.hcEvery, r, x, 1.2, n); }
  }

  /** A success run gains a fifth per check, so it grows the interval geometrically until the maximum. */
  lemma {:induction false} SuccessRunIsGeometric(h: HC, es: seq<Event>, n: nat, c: Config)
    requires ValidConfig(c) && ValidEvents(es, c) && n <= |es| && h.hcEvery >= 5
    requires forall i | 0 <= i < n :: es[i].Passed?
    requires h.successCount >= 2 && h.rttEWMA >= 0 && c.minInterval <= h.hcEvery <= c.maxInterval
    ensures Run(h, es, n, c).hcEvery == c.maxInterval
         || Run(h, es, n, c).hcEvery as real >= Geometric(h.hcEvery as real, SUCCESS_RATIO, n)
  {
    hide Apply, Times;
    if n > 0 {
      var before := Run(h, es, n - 1, c);
      SuccessRunIsGeometric(h, es, n - 1, c);
      SuccessRunReachesMax(h, es, n - 1, c);
      PassedGrows(before, c, es[n - 1], h.hcEvery as real, n - 1);
      assert Run(h, es, n, c) == Apply(before, c, es[n - 1]);
    }
  }

  // ---- round-trip average ----

  lemma AverageBetween(a: int, b: int, lo: int, hi: int)
    requires 0 <= lo <= b <= hi && (a == 0 || lo <= a <= hi)
    ensures lo <= Average(a, b) <= hi
  {
  }

  /** The new round trip counts one part in five, rounded down; the first one counts whole. */
  lemma AverageWeighs(avg: int, rtt: int)
    requires avg >= 0 && rtt >= 0
    ensures Average(avg, rtt) == if avg == 0 then rtt else (4 * avg + rtt) / 5
  {
    var n := 4 * avg + rtt;
    assert avg as real * 0.8 + rtt as real * 0.2 == n as real / 5.0;
    FloorOfFifth(n);
  }

  lemma FloorOfFifth(n: nat)
    ensures (n as real / 5.0).Floor == n / 5
  {
    var q := n / 5;
    assert q as real <= n as real / 5.0 < (q + 1) as real;
  }

  lemma ApplyAverage(h: HC, c: Config, e: Event)
    requires ValidEvent(e, c)
    ensures Apply(h, c, e).rttEWMA == if e.Passed? then Average(h.rttEWMA, e.rtt) else h.rttEWMA
  {
  }

  /** Once a check has passed, the average lies between the smallest and largest round trips seen. */
  lemma {:induction false} AverageInHull(es: seq<Event>, n: nat, c: Config, lo: int, hi: int)
    requires ValidEvents(es, c) && n <= |es| && 0 <= lo <= hi
    requires forall i | 0 <= i < n && es[i].Passed? :: lo <= es[i].rtt <= hi
    ensures var avg := Run(INIT, es, n, c).rttEWMA;
            if exists i :: 0 <= i < n && es[i].Passed? then lo <= avg <= hi else avg == 0
  {
    if n > 0 {
      AverageInHull(es, n - 1, c, lo, hi);
      ApplyAverage(Run(INIT, es, n - 1, c), c, es[n - 1]);
      if es[n - 1].Passed? { AverageBetween(Run(INIT, es, n - 1, c).rttEWMA, es[n - 1].rtt, lo, hi); }
    }
  }
}
