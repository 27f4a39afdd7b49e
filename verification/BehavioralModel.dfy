/** Sliding-window behaviour statistics (hal/src/behavioral_model.rs), with f32 ratios as reals. */
module BehavioralModel {
  import opened SetSum

  const WINDOW := 200
  const RECENT := 20
  const ESTABLISHED := 0.05

  datatype Observation = Observation(action: string, succeeded: bool, escalation: bool, hour: nat)

  datatype Metrics = Metrics(anomaly: real, volatility: real, escalations: nat, stability: real, recentFailures: nat)

  type Window = seq<Observation>

  function Counted(h: Window, p: Observation -> bool): nat {
    if h == [] then 0 else Counted(h[..|h| - 1], p) + if p(h[|h| - 1]) then 1 else 0
  }

  function Successes(h: Window): nat {
    Counted(h, (o: Observation) => o.succeeded)
  }

  function Failures(h: Window): nat {
    Counted(h, (o: Observation) => !o.succeeded)
  }

  function AtHour(h: Window, hour: nat): nat {
    Counted(h, (o: Observation) => o.hour == hour)
  }

  /** Consecutive observations with different outcomes. */
  function Flips(h: Window): nat {
    if |h| < 2 then 0
    else Flips(h[..|h| - 1]) + if h[|h| - 2].succeeded != h[|h| - 1].succeeded then 1 else 0
  }

  function RecentStart(h: Window): nat {
    if |h| <= RECENT then 0 else |h| - RECENT
  }

  function Recent(h: Window): Window {
    h[RecentStart(h)..]
  }

  /** Is this an action never seen before the recent part of the window? */
  function NovelIn(h: Window): Observation -> bool {
    var baseline := h[..RecentStart(h)];
    (o: Observation) => forall i :: 0 <= i < |baseline| ==> baseline[i].action != o.action
  }

  function Novel(h: Window): nat {
    Counted(Recent(h), NovelIn(h))
  }

  function Anomaly(h: Window): real {
    if RecentStart(h) == 0 then 0.5 else Ratio(Novel(h), |Recent(h)|)
  }

  function Ratio(a: nat, b: nat): real
    requires b > 0
  {
    a as real / b as real
  }

  function Volatility(h: Window): real {
    if |h| < 2 then 0.0 else Ratio(Flips(h), |h| - 1)
  }

  function Stability(h: Window): real
    requires h != []
  {
    Ratio(Successes(h), |h|)
  }

  function MetricsOf(h: Window): Metrics {
    if h == [] then Metrics(0.5, 0.5, 0, 0.5, 0)
    else Metrics(
      Anomaly(h),
      Volatility(h),
      Counted(h, (o: Observation) => o.escalation),
      Stability(h),
      Failures(Recent(h)))
  }

  /** 0 for an established hour, 1 for a never observed one, one half in between and for an unknown agent. */
  function TimeAnomalyOf(h: Window, hour: nat): real {
    if h == [] then 0.5
    else if AtHour(h, hour) == 0 then 1.0
    else if Ratio(AtHour(h, hour), |h|) >= ESTABLISHED then 0.0
    else 0.5
  }

  function Observed(q: Window, o: Observation): Window {
    (if |q| >= WINDOW then q[1..] else q) + [o]
  }

  function WindowOf(history: map<string, Window>, agent: string): Window {
    if agent in history then history[agent] else []
  }

  class BehavioralModel {
    var history: map<string, Window>

    constructor ()
      ensures history == map[]
    {
      history := map[];
    }

    method Observe(agent: string, o: Observation)
      modifies this
      ensures history == old(history)[agent := Observed(WindowOf(old(history), agent), o)]
    {
      var queue := if agent in history then history[agent] else [];
      if |queue| >= WINDOW {
        queue := queue[1..];
      }
      queue := queue + [o];
      history := history[agent := queue];
    }

    method GetMetrics(agent: string) returns (m: Metrics)
      ensures m == MetricsOf(WindowOf(history, agent))
    {
      if agent in history {
        m := MetricsOf(history[agent]);
      } else {
        m := Metrics(0.5, 0.5, 0, 0.5, 0);
      }
    }

    method TimeAnomaly(agent: string, hour: nat) returns (score: real)
      ensures score == TimeAnomalyOf(WindowOf(history, agent), hour)
    {
      score := if agent in history then TimeAnomalyOf(history[agent], hour) else 0.5;
    }
  }

  // ---- The window ----

  datatype Event = Event(agent: string, o: Observation)

  function Run(trace: seq<Event>): map<string, Window> {
    if trace == [] then map[]
    else
      var history, ev := Run(trace[..|trace| - 1]), trace[|trace| - 1];
      history[ev.agent := Observed(WindowOf(history, ev.agent), ev.o)]
  }

  function OfAgent(trace: seq<Event>, agent: string): Window {
    if trace == [] then []
    else OfAgent(trace[..|trace| - 1], agent) + if trace[|trace| - 1].agent == agent then [trace[|trace| - 1].o] else []
  }

  ghost predicate IsLatest(w: Window, all: Window) {
    |w| == (if |all| <= 200 then |all| else 200) && w == all[|all| - |w|..]
  }

  lemma ObservedIsLatest(w: Window, all: Window, o: Observation)
    requires IsLatest(w, all)
    ensures IsLatest(Observed(w, o), all + [o])
  {
    var old' := all[..|all| - |w|];
    assert all == old' + w;
    if |w| >= 200 {
      assert w == [w[0]] + w[1..];
      assert all + [o] == (old' + [w[0]]) + (w[1..] + [o]);
      AfterPrefix(old' + [w[0]], w[1..] + [o]);
    } else {
      assert all + [o] == old' + (w + [o]);
      AfterPrefix(old', w + [o]);
    }
  }

  lemma AfterPrefix(a: Window, b: Window)
    ensures (a + b)[|a + b| - |b|..] == b
  {
  }

  /** Whatever is observed of whom, an agent's window is the last at most 200 of its observations. */
  lemma {:induction false} WindowIsLatest(trace: seq<Event>, agent: string)
    ensures IsLatest(WindowOf(Run(trace), agent), OfAgent(trace, agent))
  {
    if trace != [] {
      var front, ev := trace[..|trace| - 1], trace[|trace| - 1];
      WindowIsLatest(front, agent);
      ObservedIsLatest(WindowOf(Run(front), agent), OfAgent(front, agent), ev.o);
    }
  }

  // ---- Counting ----

  lemma {:induction false} CountedBound(h: Window, p: Observation -> bool)
    ensures Counted(h, p) <= |h|
  {
    if h != [] {
      CountedBound(h[..|h| - 1], p);
    }
  }

  lemma {:induction false} SuccessesAndFailures(h: Window)
    ensures Successes(h) + Failures(h) == |h|
  {
    if h != [] {
      SuccessesAndFailures(h[..|h| - 1]);
    }
  }

  /** Every success touches at most two flips, and so does every failure. */
  lemma {:induction false} FlipsBounded(h: Window)
    ensures Flips(h) <= 2 * Successes(h) && Flips(h) <= 2 * Failures(h)
    ensures h != [] && h[|h| - 1].succeeded ==> Flips(h) + 1 <= 2 * Successes(h)
    ensures h != [] && !h[|h| - 1].succeeded ==> Flips(h) + 1 <= 2 * Failures(h)
  {
    if h != [] {
      var front := h[..|h| - 1];
      FlipsBounded(front);
    }
  }

  /** Volatility is bounded by stability and by its complement. */
  lemma VolatilityBoundedByStability(h: Window)
    requires |h| >= 2
    ensures Times(Volatility(h), |h| - 1) <= 2.0 * Times(Stability(h), |h|)
    ensures Times(Volatility(h), |h| - 1) <= 2.0 * (|h| as real - Times(Stability(h), |h|))
  {
    FlipsBounded(h);
    SuccessesAndFailures(h);
    RatioTimes(Flips(h), |h| - 1);
    RatioTimes(Successes(h), |h|);
  }

  function Times(x: real, n: nat): real {
    x * n as real
  }

  lemma RatioTimes(a: nat, b: nat)
    requires b > 0
    ensures Times(Ratio(a, b), b) == a as real
  {
  }

  lemma {:induction false} CountedSplit(a: Window, b: Window, p: Observation -> bool)
    ensures Counted(a + b, p) == Counted(a, p) + Counted(b, p)
  {
    if b == [] {
      assert a + b == a;
    } else {
      assert (a + b)[..|a + b| - 1] == a + b[..|b| - 1];
      CountedSplit(a, b[..|b| - 1], p);
    }
  }

  /** Recent failures are among the last twenty observations and among all failures. */
  lemma RecentFailuresBounded(h: Window)
    ensures MetricsOf(h).recentFailures <= RECENT
    ensures MetricsOf(h).recentFailures <= Failures(h)
  {
    var p := (o: Observation) => !o.succeeded;
    assert h == h[..RecentStart(h)] + Recent(h);
    CountedSplit(h[..RecentStart(h)], Recent(h), p);
    CountedBound(Recent(h), p);
    assert |Recent(h)| <= RECENT;
    assert Failures(Recent(h)) == Counted(Recent(h), p) && Failures(h) == Counted(h, p);
  }

  lemma {:induction false} CountedExtremes(h: Window, p: Observation -> bool)
    ensures Counted(h, p) == 0 <==> forall i :: 0 <= i < |h| ==> !p(h[i])
    ensures Counted(h, p) == |h| <==> forall i :: 0 <= i < |h| ==> p(h[i])
  {
    if h != [] {
      CountedExtremes(h[..|h| - 1], p);
      CountedBound(h[..|h| - 1], p);
    }
  }

  lemma {:induction false} CountedFrom(h: Window, k: nat, p: Observation -> bool)
    requires k <= |h|
    ensures Counted(h[k..], p) == |set i: nat | k <= i < |h| && p(h[i])|
  {
    var all := set i: nat | k <= i < |h| && p(h[i]);
    if |h| == k {
      assert all == {};
    } else {
      var n := |h| - 1;
      CountedFrom(h[..n], k, p);
      assert h[k..][..|h[k..]| - 1] == h[..n][k..];
      var before := set i: nat | k <= i < n && p(h[..n][i]);
      assert all == before + if p(h[n]) then {n} else {};
    }
  }

  lemma CountedHere(h: Window, p: Observation -> bool, s: set<nat>)
    requires forall i: nat :: i in s <==> i < |h| && p(h[i])
    ensures Counted(h, p) == |s|
  {
    CountedFrom(h, 0, p);
    assert h[0..] == h;
    assert s == set i: nat | 0 <= i < |h| && p(h[i]);
  }

  /** The outcome changes at position i. */
  predicate FlipAt(h: Window, i: nat) {
    0 < i < |h| && h[i - 1].succeeded != h[i].succeeded
  }

  lemma {:induction false} FlipsAre(h: Window)
    ensures Flips(h) == |set i: nat | i < |h| && FlipAt(h, i)|
  {
    var all := set i: nat | i < |h| && FlipAt(h, i);
    if |h| < 2 {
      assert all == {};
    } else {
      var n := |h| - 1;
      FlipsAre(h[..n]);
      var before := set i: nat | i < n && FlipAt(h[..n], i);
      assert forall i: nat :: i < n ==> FlipAt(h[..n], i) == FlipAt(h, i);
      assert all == before + if FlipAt(h, n) then {n} else {};
    }
  }

  /** The shares, of the positions of the window: successes, and changed outcomes among neighbours. */
  lemma SharesSay(h: Window)
    requires h != []
    ensures Times(MetricsOf(h).stability, |h|) == |set i: nat | 0 <= i < |h| && h[i].succeeded| as real
    ensures |h| == 1 ==> MetricsOf(h).volatility == 0.0
    ensures |h| > 1 ==>
              Times(MetricsOf(h).volatility, |h| - 1) == |set i: nat | i < |h| && FlipAt(h, i)| as real
  {
    CountedHere(h, (o: Observation) => o.succeeded, set i: nat | 0 <= i < |h| && h[i].succeeded);
    RatioTimes(Successes(h), |h|);
    if |h| > 1 {
      FlipsAre(h);
      RatioTimes(Flips(h), |h| - 1);
    }
  }

  /** The counts: escalations in the whole window, failures among its last twenty. And what an unknown agent gets. */
  lemma CountsSay(h: Window)
    ensures h == [] ==> MetricsOf(h) == Metrics(0.5, 0.5, 0, 0.5, 0)
    ensures MetricsOf(h).escalations == |set i: nat | 0 <= i < |h| && h[i].escalation|
    ensures var k := if |h| <= 20 then 0 else |h| - 20;
            MetricsOf(h).recentFailures == |set i: nat | k <= i < |h| && !h[i].succeeded|
  {
    var k := RecentStart(h);
    var p := (o: Observation) => !o.succeeded;
    CountedHere(h, (o: Observation) => o.escalation, set i: nat | 0 <= i < |h| && h[i].escalation);
    CountedFrom(h, k, p);
    assert (set i: nat | k <= i < |h| && p(h[i])) == set i: nat | k <= i < |h| && !h[i].succeeded;
  }

  lemma {:induction false} NoFlips(h: Window)
    ensures Flips(h) == 0 <==> forall i :: 0 <= i < |h| ==> h[i].succeeded == h[0].succeeded
  {
    if |h| >= 2 {
      NoFlips(h[..|h| - 1]);
    }
  }

  /** Stability is 1 exactly without failures, 0 exactly without successes; volatility is 0 exactly for one outcome. */
  lemma MetricExtremes(h: Window)
    requires h != []
    ensures MetricsOf(h).stability == 1.0 <==> forall i :: 0 <= i < |h| ==> h[i].succeeded
    ensures MetricsOf(h).stability == 0.0 <==> forall i :: 0 <= i < |h| ==> !h[i].succeeded
    ensures MetricsOf(h).volatility == 0.0 <==> forall i :: 0 <= i < |h| ==> h[i].succeeded == h[0].succeeded
  {
    SuccessExtremes(h);
    NoFlips(h);
    if |h| > 1 {
      RatioZero(Flips(h), |h| - 1);
    }
  }

  lemma SuccessExtremes(h: Window)
    requires h != []
    ensures Stability(h) == 1.0 <==> forall i :: 0 <= i < |h| ==> h[i].succeeded
    ensures Stability(h) == 0.0 <==> forall i :: 0 <= i < |h| ==> !h[i].succeeded
  {
    CountedExtremes(h, (o: Observation) => o.succeeded);
    CountedBound(h, (o: Observation) => o.succeeded);
    RatioBounds(Successes(h), |h|);
  }

  lemma RatioZero(a: nat, b: nat)
    requires b > 0
    ensures Ratio(a, b) == 0.0 <==> a == 0
  {
  }

  predicate InBaseline(h: Window, action: string) {
    exists i :: 0 <= i < RecentStart(h) && h[i].action == action
  }

  /**
    Novelty lies between 0 and 1: it is neutral without a baseline, and otherwise 0
    exactly when every recent action occurred earlier in the window and 1 exactly
    when none did.
  */
  lemma NoveltyExtremes(h: Window)
    requires h != []
    ensures 0.0 <= Anomaly(h) <= 1.0
    ensures |h| <= RECENT ==> Anomaly(h) == 0.5
    ensures |h| > RECENT ==>
              && (Anomaly(h) == 0.0 <==> forall i :: 0 <= i < RECENT ==> InBaseline(h, Recent(h)[i].action))
              && (Anomaly(h) == 1.0 <==> forall i :: 0 <= i < RECENT ==> !InBaseline(h, Recent(h)[i].action))
  {
    if |h| > RECENT {
      var p := NovelIn(h);
      CountedExtremes(Recent(h), p);
      CountedBound(Recent(h), p);
      forall i | 0 <= i < RECENT
        ensures p(Recent(h)[i]) <==> !InBaseline(h, Recent(h)[i].action)
      {
        assert forall j :: 0 <= j < RecentStart(h) ==> h[..RecentStart(h)][j] == h[j];
      }
      RatioBounds(Novel(h), RECENT);
    }
  }

  lemma RatioBounds(a: nat, b: nat)
    requires b > 0 && a <= b
    ensures 0.0 <= Ratio(a, b) <= 1.0
    ensures Ratio(a, b) == 0.0 <==> a == 0
    ensures Ratio(a, b) == 1.0 <==> a == b
  {
  }

  /**
    An hour scores 1 exactly when a known agent never had it, 0 exactly from a
    twentieth of the observations on, and one half otherwise, also for an unknown agent.
  */
  lemma TimeAnomalyTiers(h: Window, hour: nat)
    ensures TimeAnomalyOf(h, hour) == 1.0 <==> h != [] && forall i :: 0 <= i < |h| ==> h[i].hour != hour
    ensures TimeAnomalyOf(h, hour) == 0.0 <==>
            h != [] && 20 * |set i: nat | 0 <= i < |h| && h[i].hour == hour| >= |h|
    ensures TimeAnomalyOf(h, hour) in {0.0, 0.5, 1.0}
  {
    if h != [] {
      CountedExtremes(h, (o: Observation) => o.hour == hour);
      CountedHere(h, (o: Observation) => o.hour == hour, set i: nat | 0 <= i < |h| && h[i].hour == hour);
      RatioTwentieth(AtHour(h, hour), |h|);
    }
  }

  lemma RatioTwentieth(a: nat, b: nat)
    requires b > 0
    ensures Ratio(a, b) >= ESTABLISHED <==> 20 * a >= b
  {
    if Ratio(a, b) >= ESTABLISHED {
      RatioAtLeast(a, b);
    }
    if 20 * a >= b {
      TwentiethReached(a as real, b as real);
    }
  }

  lemma TwentiethReached(x: real, y: real)
    requires y > 0.0 && 20.0 * x >= y
    ensures x / y >= 0.05
  {
    assert x == (x / y) * y;
    ScaledBelow(x / y, y);
  }

  lemma ScaledBelow(q: real, y: real)
    requires y > 0.0
    ensures q < 0.05 ==> q * y < 0.05 * y
  {
  }

  // ---- Established hours ----

  lemma {:induction false} HoursSum(h: Window, hours: set<nat>)
    ensures Sum(hours, (hour: nat) => AtHour(h, hour)) <= |h|
  {
    var f := (hour: nat) => AtHour(h, hour);
    if h == [] {
      AllZero(hours, f);
    } else {
      var front, x := h[..|h| - 1], h[|h| - 1].hour;
      var g := (hour: nat) => AtHour(front, hour);
      HoursSum(front, hours);
      if x in hours {
        SumTakeOut(hours, f, x);
        SumTakeOut(hours, g, x);
        SumCongruent(hours - {x}, f, g);
      } else {
        SumCongruent(hours, f, g);
      }
    }
  }

  lemma {:induction false} AllZero(s: set<nat>, f: nat -> nat)
    requires forall x :: x in s ==> f(x) == 0
    ensures Sum(s, f) == 0
    decreases |s|
  {
    if s != {} {
      var x :| x in s;
      SumTakeOut(s, f, x);
      AllZero(s - {x}, f);
    }
  }

  /** At most twenty distinct hours can score as established. */
  lemma EstablishedHoursBounded(h: Window, hours: set<nat>)
    requires h != [] && forall hour :: hour in hours ==> TimeAnomalyOf(h, hour) == 0.0
    ensures |hours| <= 20
  {
    var f := (hour: nat) => AtHour(h, hour);
    var low := (|h| + 19) / 20;
    forall hour | hour in hours
      ensures f(hour) >= low
    {
      assert TimeAnomalyOf(h, hour) == 0.0;
      RatioAtLeast(AtHour(h, hour), |h|);
    }
    HoursSum(h, hours);
    SumAtLeast(hours, f, low);
    AtMostTwenty(|h|, low, |hours|);
  }

  lemma MulAtLeast(a: nat, b: nat, c: nat)
    requires b <= c
    ensures a * b <= a * c
  {
  }

  lemma AtMostTwenty(n: nat, low: nat, k: nat)
    requires n > 0 && 20 * low >= n && low * k <= n
    ensures k <= 20
  {
    if k > 20 {
      MulAtLeast(low, 21, k);
    }
  }

  lemma RatioAtLeast(a: nat, b: nat)
    requires b > 0 && Ratio(a, b) >= ESTABLISHED
    ensures 20 * a >= b
  {
    assert a as real == Ratio(a, b) * b as real;
    assert Ratio(a, b) * b as real >= 0.05 * b as real;
  }
}
