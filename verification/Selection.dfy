/** Scoring of upstreams and the meaning of "the best n of them". */
module Selection {
  import opened Bytes
  import opened Health

  /** One protocol of an upstream: its health and the end of its cooldown (the zero time is 0). */
  datatype Side = Side(h: HC, cooldown: int)

  /** Scores start below this bound. */
  const LIMIT := 1_000_000_000_000_000_000.0

  function Millis(d: int): (ms: int) {
    if d >= 0 then d / 1_000_000 else -((-d) / 1_000_000)
  }

  predicate Eligible(s: Side, now: int) {
    s.h.healthy && !(now < s.cooldown)
  }

  /** Milliseconds of round trip, or 1000 when there are none. */
  function Base(rtt: int): (b: real) {
    var ms := Millis(rtt) as real;
    if ms <= 0.0 then 1000.0 else ms
  }

  function Penalty(h: HC, now: int, interval: int): (p: real) {
    var staleness := now - h.lastCheck;
    var stalePenalty := if staleness > 2 * interval then Millis(staleness) as real * 0.2 else 0.0;
    var failPenalty := h.failCount as real * 500.0;
    var errPenalty := if h.failing then 500.0 else 0.0;
    stalePenalty + failPenalty + errPenalty
  }

  function Burden(h: HC, now: int, interval: int): (b: real) {
    Base(h.rttEWMA) + Penalty(h, now, interval)
  }

  function Score(h: HC, weight: int, now: int, interval: int): (score: real) {
    var w := if weight <= 0 then 1 else weight;
    Times(Burden(h, now, interval), 1.0 / w as real)
  }

  /** The score of a candidate that can be chosen. */
  function Key(s: Side, weight: int, now: int, interval: int): (k: Option<real>) {
    if !Eligible(s, now) then None
    else
      var score := Score(s.h, weight, now, interval);
      if score < LIMIT then Some(score) else None
  }

  lemma ScoreBelowBurden(h: HC, weight: int, now: int, interval: int)
    requires Burden(h, now, interval) >= 0.0
    ensures Score(h, weight, now, interval) <= Burden(h, now, interval)
  {
    var q := 1.0 / (if weight <= 0 then 1 else weight) as real;
    assert q <= 1.0;
    Product(Burden(h, now, interval), 1.0 - q);
  }

  lemma Reciprocals(v: int, w: int)
    requires 1 <= v <= w
    ensures 0.0 < 1.0 / w as real <= 1.0 / v as real
  {
    var a, b := v as real, w as real;
    var q := 1.0 / b;
    assert q * b == 1.0 && q > 0.0;
    Product(q, b - a);
    assert q * a <= 1.0;
    assert 1.0 / a - q == (1.0 - q * a) / a;
  }

  /** A heavier upstream never scores worse, and a weight that is not positive counts as 1. */
  lemma HeavierScoresLower(h: HC, v: int, w: int, now: int, interval: int)
    requires interval >= 0 && v <= w
    ensures Score(h, w, now, interval) <= Score(h, v, now, interval)
    ensures v <= 0 ==> Score(h, v, now, interval) == Score(h, 1, now, interval)
  {
    var b, v', w' := Burden(h, now, interval), if v <= 0 then 1 else v, if w <= 0 then 1 else w;
    BurdenNonNegative(h, now, interval);
    Reciprocals(v', w');
    TimesSecond(b, 1.0 / w' as real, 1.0 / v' as real);
  }

  lemma BurdenNonNegative(h: HC, now: int, interval: int)
    requires interval >= 0
    ensures Burden(h, now, interval) >= 0.0
  {
  }

  lemma TimesSecond(x: real, y: real, z: real)
    requires x >= 0.0 && y <= z
    ensures Times(x, y) <= Times(x, z)
  {
    Product(x, z - y);
  }

  /** A round trip of r is not scored better than the shorter, known one of h: whole milliseconds are
      compared, and less than one counts as 1000. */
  predicate KeepsOrder(h: int, r: int) {
    Millis(h) >= 1 || Millis(r) == 0 || Millis(r) >= 1000
  }

  lemma BurdenGrows(h: HC, k: HC, now: int, interval: int)
    requires interval >= 0
    requires 0 < h.rttEWMA <= k.rttEWMA && KeepsOrder(h.rttEWMA, k.rttEWMA)
    requires h.failCount <= k.failCount && (h.failing ==> k.failing) && k.lastCheck <= h.lastCheck
    ensures Burden(h, now, interval) <= Burden(k, now, interval)
  {
  }

  lemma ScoreOfBurden(a: HC, b: HC, weight: int, now: int, interval: int)
    ensures Score(a, weight, now, interval) <= Score(b, weight, now, interval)
       <==> Burden(a, now, interval) <= Burden(b, now, interval)
  {
    TimesOrder(Burden(a, now, interval), Burden(b, now, interval), 1.0 / (if weight <= 0 then 1 else weight) as real);
  }

  /** At equal weight, a longer known round trip, more failures, an error or an older check do not improve a
      score, when the two round trips keep their order. */
  lemma WorseScoresHigher(h: HC, k: HC, weight: int, now: int, interval: int)
    requires interval >= 0
    requires 0 < h.rttEWMA <= k.rttEWMA && KeepsOrder(h.rttEWMA, k.rttEWMA)
    requires h.failCount <= k.failCount && (h.failing ==> k.failing) && k.lastCheck <= h.lastCheck
    ensures Score(h, weight, now, interval) <= Score(k, weight, now, interval)
  {
    BurdenGrows(h, k, now, interval);
    ScoreOfBurden(h, k, weight, now, interval);
  }

  lemma MillisOrder(x: int, y: int)
    requires 0 < x <= y
    ensures 0 <= Millis(x) <= Millis(y)
  {
  }

  lemma BaseOrder(x: int, y: int)
    requires 0 < x <= y
    ensures Base(x) <= Base(y) <==> KeepsOrder(x, y)
  {
    hide Millis;
    MillisOrder(x, y);
  }

  lemma BurdenOrder(h: HC, r: int, now: int, interval: int)
    requires 0 < h.rttEWMA <= r
    ensures Burden(h, now, interval) <= Burden(h.(rttEWMA := r), now, interval) <==> KeepsOrder(h.rttEWMA, r)
  {
    assert Penalty(h.(rttEWMA := r), now, interval) == Penalty(h, now, interval);
    hide Base, Penalty, KeepsOrder;
    BaseOrder(h.rttEWMA, r);
  }

  /** With all else equal a longer known round trip scores no better exactly when they do. */
  lemma LongerScoresHigherIff(h: HC, r: int, weight: int, now: int, interval: int)
    requires 0 < h.rttEWMA <= r
    ensures Score(h, weight, now, interval) <= Score(h.(rttEWMA := r), weight, now, interval)
       <==> KeepsOrder(h.rttEWMA, r)
  {
    BurdenOrder(h, r, now, interval);
    ScoreOfBurden(h, h.(rttEWMA := r), weight, now, interval);
  }

  /** And they do not always: an upstream one nanosecond short of a millisecond away loses to one at two. */
  lemma SubMillisecondLoses(h: HC, weight: int, now: int, interval: int)
    requires h.rttEWMA == 999_999
    ensures Score(h.(rttEWMA := 2_000_000), weight, now, interval) < Score(h, weight, now, interval)
  {
    LongerScoresHigherIff(h, 2_000_000, weight, now, interval);
  }

  // ---- what things cost, in milliseconds of round trip ----

  const MS := 1_000_000

  lemma BaseAdds(rtt: int, ms: nat)
    requires rtt >= MS
    ensures Base(rtt + ms * MS) == Base(rtt) + ms as real
  {
    assert (rtt + ms * MS) / MS == rtt / MS + ms;
  }

  lemma SlowerBy(h: HC, ms: nat, now: int, interval: int)
    requires h.rttEWMA >= MS
    ensures Burden(h.(rttEWMA := h.rttEWMA + ms * MS), now, interval) == Burden(h, now, interval) + ms as real
  {
    BaseAdds(h.rttEWMA, ms);
    hide Base;
    assert Penalty(h.(rttEWMA := h.rttEWMA + ms * MS), now, interval) == Penalty(h, now, interval);
  }

  /** A fresh and sound upstream of weight 1 scores its round trip in whole milliseconds. */
  lemma SoundScore(h: HC, now: int, interval: int)
    requires h.rttEWMA >= MS && h.failCount == 0 && !h.failing && now - h.lastCheck <= 2 * interval
    ensures Score(h, 1, now, interval) == (h.rttEWMA / MS) as real
  {
  }

  /** An unknown round trip, or one that rounds down to nothing, scores as a second. */
  lemma UnknownScore(h: HC, weight: int, now: int, interval: int)
    requires 0 <= h.rttEWMA < MS
    ensures Score(h, weight, now, interval) == Score(h.(rttEWMA := 1000 * MS), weight, now, interval)
  {
    assert Base(h.rttEWMA) == Base(1000 * MS);
  }

  /** One more failure scores as half a second more of round trip. */
  lemma FailureCosts(h: HC, weight: int, now: int, interval: int)
    requires h.rttEWMA >= MS
    ensures Score(h.(failCount := h.failCount + 1), weight, now, interval)
         == Score(h.(rttEWMA := h.rttEWMA + 500 * MS), weight, now, interval)
  {
    SlowerBy(h, 500, now, interval);
    assert Burden(h.(failCount := h.failCount + 1), now, interval) == Burden(h, now, interval) + 500.0;
  }

  /** And so does a remembered error. */
  lemma ErrorCosts(h: HC, weight: int, now: int, interval: int)
    requires h.rttEWMA >= MS && !h.failing
    ensures Score(h.(failing := true), weight, now, interval)
         == Score(h.(rttEWMA := h.rttEWMA + 500 * MS), weight, now, interval)
  {
    SlowerBy(h, 500, now, interval);
    assert Burden(h.(failing := true), now, interval) == Burden(h, now, interval) + 500.0;
  }

  /** Beyond two intervals without a check, the whole age counts, 5 ms of it as 1 ms of round trip. */
  lemma StaleCosts(h: HC, weight: int, now: int, interval: int, ms: nat)
    requires h.rttEWMA >= MS && interval >= 0
    requires now - h.lastCheck > 2 * interval && (now - h.lastCheck) / MS == 5 * ms
    ensures Score(h, weight, now, interval)
         == Score(h.(lastCheck := now, rttEWMA := h.rttEWMA + ms * MS), weight, now, interval)
  {
    var fresh_ := h.(lastCheck := now);
    SlowerBy(fresh_, ms, now, interval);
    assert Burden(h, now, interval) == Burden(fresh_, now, interval) + ms as real;
  }

  /** Up to then age changes nothing. */
  lemma RecentIsFresh(h: HC, weight: int, now: int, interval: int, other: int)
    requires now - h.lastCheck <= 2 * interval && now - other <= 2 * interval
    ensures Score(h, weight, now, interval) == Score(h.(lastCheck := other), weight, now, interval)
  {
    assert Penalty(h, now, interval) == Penalty(h.(lastCheck := other), now, interval);
  }

  lemma Shares(x: real, w: int)
    requires w >= 1
    ensures Times(Times(x, 1.0 / w as real), w as real) == x
  {
    var q := 1.0 / w as real;
    assert q * w as real == 1.0;
    assert x * q * w as real == x * (q * w as real);
  }

  lemma Crosswise(x: real, y: real, v: int, w: int)
    requires v >= 1 && w >= 1
    ensures Times(x, 1.0 / v as real) <= Times(y, 1.0 / w as real) <==> Times(x, w as real) <= Times(y, v as real)
  {
    var a, b, p := Times(x, 1.0 / v as real), Times(y, 1.0 / w as real), Times(v as real, w as real);
    PositiveProduct(v as real, w as real);
    TimesOrder(a, b, p);
    Shares(x, v);
    Shares(y, w);
    assert Times(a, p) == Times(Times(a, v as real), w as real);
    assert Times(b, p) == Times(Times(b, w as real), v as real);
  }

  /** Weights share the load: upstreams compare as their scores at weight 1, each multiplied by the other's weight. */
  lemma WeightsCompare(a: HC, v: int, b: HC, w: int, now: int, interval: int)
    requires v >= 1 && w >= 1
    ensures Score(a, v, now, interval) <= Score(b, w, now, interval)
       <==> Times(Score(a, 1, now, interval), w as real) <= Times(Score(b, 1, now, interval), v as real)
  {
    Crosswise(Burden(a, now, interval), Burden(b, now, interval), v, w);
    Shares(Burden(a, now, interval), 1);
    Shares(Burden(b, now, interval), 1);
  }

  /** A fast upstream with one failed check behind it and its error loses to a sound one that is ten times slower. */
  lemma FailingLoses(h: HC, now: int, interval: int)
    requires h.rttEWMA == 10 * MS && h.failCount == 1 && h.failing && h.lastCheck == now && interval >= 0
    ensures Score(h.(rttEWMA := 100 * MS, failCount := 0, failing := false), 1, now, interval) == 100.0
    ensures Score(h, 1, now, interval) == 1010.0
  {
    var sound := h.(failCount := 0, failing := false);
    FailureCosts(sound.(failing := true), 1, now, interval);
    ErrorCosts(sound.(rttEWMA := 510 * MS), 1, now, interval);
    SoundScore(sound.(rttEWMA := 1010 * MS), now, interval);
    SoundScore(sound.(rttEWMA := 100 * MS), now, interval);
  }

  lemma BurdenBelowLimit(h: HC, now: int, interval: int)
    requires interval >= 0 && h.failCount < 1_000_000_000_000_000
    requires h.rttEWMA < 0x8000_0000_0000_0000 && now - h.lastCheck < 0x8000_0000_0000_0000
    ensures 0.0 <= Burden(h, now, interval) < LIMIT
  {
  }

  /** With 64-bit durations and a failure threshold below 10^15, being eligible is enough to be chosen:
      a healthy upstream has fewer failures in a row than the threshold. */
  lemma EligibleHasKey(s: Side, weight: int, now: int, interval: int)
    requires s.h.healthy && now >= s.cooldown && interval >= 0
    requires s.h.failCount < 1_000_000_000_000_000
    requires s.h.rttEWMA < 0x8000_0000_0000_0000 && now - s.h.lastCheck < 0x8000_0000_0000_0000
    ensures Key(s, weight, now, interval) == Some(Score(s.h, weight, now, interval))
  {
    BurdenBelowLimit(s.h, now, interval);
    ScoreBelowBurden(s.h, weight, now, interval);
  }

  /** One that is down, or cooling down, never is. */
  lemma IneligibleHasNoKey(s: Side, weight: int, now: int, interval: int)
    requires !s.h.healthy || now < s.cooldown
    ensures Key(s, weight, now, interval).None?
  {
  }

  // ---- orders on keys ----

  predicate Has(ks: seq<Option<real>>, i: nat) {
    i < |ks| && ks[i].Some?
  }

  /** Lower score first, earlier position on a tie. */
  predicate Before(ks: seq<Option<real>>, i: nat, j: nat)
    requires Has(ks, i) && Has(ks, j)
  {
    ks[i].value < ks[j].value || (ks[i].value == ks[j].value && i < j)
  }

  /** The first of the candidates that are not used, if there is one. */
  ghost predicate IsBest(ks: seq<Option<real>>, used: set<nat>, best: Option<nat>) {
    match best
    case None => forall j: nat | Has(ks, j) :: j in used
    case Some(b) =>
      && Has(ks, b) && b !in used
      && forall j: nat | Has(ks, j) && j !in used && j != b :: Before(ks, b, j)
  }

  /** `top` lists the first n candidates in order: all of them are candidates, they are in strict order,
      whatever is omitted comes after all of them, and nothing is omitted while there is room. */
  ghost predicate IsTop(ks: seq<Option<real>>, n: nat, top: seq<nat>) {
    && |top| <= n
    && (forall k | 0 <= k < |top| :: Has(ks, top[k]))
    && (forall a, b | 0 <= a < b < |top| :: Before(ks, top[a], top[b]))
    && (forall j: nat, k: nat | Has(ks, j) && j !in top && k < |top| :: Before(ks, top[k], j))
    && (|top| < n ==> forall j: nat | Has(ks, j) :: j in top)
  }

  function Members(top: seq<nat>): (s: set<nat>) {
    set j | j in top
  }

  /** Taking the best of what is left extends the list by one. */
  lemma TopSnoc(ks: seq<Option<real>>, top: seq<nat>, b: nat)
    requires IsTop(ks, |top|, top) && IsBest(ks, Members(top), Some(b))
    ensures IsTop(ks, |top| + 1, top + [b])
  {
    var top' := top + [b];
    forall x, y | 0 <= x < y < |top'|
      ensures Before(ks, top'[x], top'[y])
    {
      assert b !in top;
    }
    forall j: nat, k: nat | Has(ks, j) && j !in top' && k < |top'|
      ensures Before(ks, top'[k], j)
    {
      assert j !in top && top'[|top|] == b;
    }
  }

  lemma TopDone(ks: seq<Option<real>>, n: nat, top: seq<nat>)
    requires |top| <= n && IsTop(ks, |top|, top) && IsBest(ks, Members(top), None)
    ensures IsTop(ks, n, top)
  {
  }

  /** Position k of one list is not after position k of the other. */
  lemma TopNotAfter(ks: seq<Option<real>>, n: nat, t: seq<nat>, u: seq<nat>, k: nat)
    requires IsTop(ks, n, t) && IsTop(ks, n, u) && k < |t| && k < |u| && t[..k] == u[..k]
    ensures !Before(ks, t[k], u[k])
  {
    assert forall m | 0 <= m < k :: t[m] == t[..k][m] == u[m];
  }

  /** The conditions determine the list. */
  lemma {:induction false} TopAgree(ks: seq<Option<real>>, n: nat, t: seq<nat>, u: seq<nat>, k: nat)
    requires IsTop(ks, n, t) && IsTop(ks, n, u) && k <= |t| && k <= |u|
    ensures t[..k] == u[..k]
  {
    if k > 0 {
      TopAgree(ks, n, t, u, k - 1);
      TopNotAfter(ks, n, t, u, k - 1);
      TopNotAfter(ks, n, u, t, k - 1);
      assert t[..k] == t[..k - 1] + [t[k - 1]];
      assert u[..k] == u[..k - 1] + [u[k - 1]];
    }
  }

  lemma TopNotLonger(ks: seq<Option<real>>, n: nat, t: seq<nat>, u: seq<nat>)
    requires IsTop(ks, n, t) && IsTop(ks, n, u)
    ensures |t| <= |u|
  {
    var k := if |u| < |t| then |u| else |t|;
    TopAgree(ks, n, t, u, k);
    assert forall m | 0 <= m < k :: t[m] == t[..k][m] == u[m];
    assert t != [] ==> Has(ks, t[|t| - 1]);
  }

  lemma TopUnique(ks: seq<Option<real>>, n: nat, t: seq<nat>, u: seq<nat>)
    requires IsTop(ks, n, t) && IsTop(ks, n, u)
    ensures t == u
  {
    TopNotLonger(ks, n, t, u);
    TopNotLonger(ks, n, u, t);
    TopAgree(ks, n, t, u, |t|);
    assert t[..|t|] == t && u[..|t|] == u;
  }

  /** A shorter list is a prefix of a longer one, and the best candidate alone heads every list. */
  lemma TopPrefix(ks: seq<Option<real>>, m: nat, n: nat, t: seq<nat>, u: seq<nat>)
    requires m <= n && IsTop(ks, m, t) && IsTop(ks, n, u)
    ensures t == u[..if m < |u| then m else |u|]
  {
    var k := if m < |u| then m else |u|;
    var cut := u[..k];
    assert IsTop(ks, m, cut) by {
      forall j: nat, i: nat | Has(ks, j) && j !in cut && i < |cut|
        ensures Before(ks, cut[i], j)
      {
        assert cut[i] == u[i];
        if j in u {
          var x :| 0 <= x < |u| && u[x] == j;
          assert Before(ks, u[i], u[x]);
        }
      }
      if k < m { assert cut == u; }
    }
    TopUnique(ks, m, t, cut);
  }

  lemma BestHeadsTop(ks: seq<Option<real>>, best: Option<nat>, n: nat, u: seq<nat>)
    requires IsBest(ks, {}, best) && n > 0 && IsTop(ks, n, u)
    ensures best == if u == [] then None else Some(u[0])
  {
    var t := match best case None => [] case Some(b) => [b];
    assert IsTop(ks, 1, t);
    TopPrefix(ks, 1, n, t, u);
  }

  function Candidates(ks: seq<Option<real>>): (s: set<nat>) {
    set j: nat | j < |ks| && ks[j].Some?
  }

  lemma {:induction false} MembersCount(top: seq<nat>)
    requires forall a, b | 0 <= a < b < |top| :: top[a] != top[b]
    ensures |Members(top)| == |top|
  {
    if top != [] {
      var init, x := top[..|top| - 1], top[|top| - 1];
      MembersCount(init);
      assert Members(top) == Members(init) + {x};
      assert x !in init;
    }
  }

  /** The list is as long as it can be. */
  lemma TopLength(ks: seq<Option<real>>, n: nat, top: seq<nat>)
    requires IsTop(ks, n, top)
    ensures |top| == if n < |Candidates(ks)| then n else |Candidates(ks)|
  {
    var all, chosen := Candidates(ks), Members(top);
    forall a, b | 0 <= a < b < |top|
      ensures top[a] != top[b]
    {
      assert Before(ks, top[a], top[b]);
    }
    MembersCount(top);
    assert all == chosen + (all - chosen);
    if |top| < n { assert all == chosen; }
  }
}
