/** Degraded mode is not a trap: once the load is gone, probes bring the quality
    route back after a number of submits known beforehand.

    All statements are about runs of the machine in `SchedulerRuns`, in which a
    probe's task is accepted, started, completes or raises, and is released. */
module SchedulerRecovery {
  import opened Wrappers
  import opened Scheduler
  import opened SchedulerRuns

  function Target(cfg: Config): real {
    cfg.routingBudgetMs * cfg.recoveryRatio
  }

  // A submit without a deadline, of at most `u` units, that comes after the hold in
  // degraded mode and finds nothing pending on the quality route.
  ghost predicate Due(cfg: Config, w: World, a: Action, u: real)
    requires ValidConfig(cfg)
  {
    && a.SubmitTask? && a.deadline.None? && Units(cfg, a.codepoints) <= u
    && w.st.degraded && !w.st.closed && a.now >= w.st.degradedUntil
    && w.st.quality.pending == 0
  }

  // The estimate of an idle pool meets the recovery target.
  predicate MeetsTarget(cfg: Config, w: World, units: real) {
    w.st.quality.ewma * units <= Target(cfg)
  }

  lemma IdleEstimate(cfg: Config, w: World, units: real)
    requires ValidConfig(cfg) && Inv(cfg, w) && w.st.quality.pending == 0
    ensures Estimate(cfg, w.st, Quality, units) == w.st.quality.ewma * units
  {
    SumsAreOrdered(w.tasks, Quality);
    var workers := Workers(cfg, Quality) as real;
    assert 0.0 / workers == 0.0;
  }

  // On an idle pool after the hold, a submit recovers exactly when the estimate
  // meets the target, and probes otherwise; either way the quality route gets it.
  lemma SubmitRecoversOrProbes(cfg: Config, w: World, a: Action, u: real)
    requires ValidConfig(cfg) && cfg.backend.Adaptive? && Inv(cfg, w) && Enabled(w, a) && Due(cfg, w, a, u)
    ensures var w' := Step(cfg, w, a);
      && w'.tasks == w.tasks + [Task(Quality, Units(cfg, a.codepoints), Admitted)]
      && (if MeetsTarget(cfg, w, Units(cfg, a.codepoints)) then Recovered(w, w')
          else w'.st.degraded && Probed(cfg, w, a))
  {
    var units := Units(cfg, a.codepoints);
    IdleEstimate(cfg, w, units);
    DecideIdle(cfg, w.st, units, w.st.quality.ewma * units, a.now);
  }

  lemma DecideIdle(cfg: Config, st: State, units: real, estimate: real, now: real)
    requires ValidConfig(cfg) && cfg.backend.Adaptive?
    requires st.degraded && !st.closed && now >= st.degradedUntil && st.quality.pending == 0
    ensures var (st', d) := AdmitWith(cfg, st, units, estimate, cfg.routingBudgetMs, now, None);
      if estimate <= Target(cfg)
      then !st'.degraded && d == Reserved(Quality, Normal)
      else st'.degraded && d == Reserved(Quality, RecoveryProbe)
  {
    if Recovers(cfg, st, estimate, cfg.routingBudgetMs, now) {
      RecoveryHolds(cfg, st, estimate, cfg.routingBudgetMs, now);
    }
  }

  // ----- the average

  // A task of the quality route is released after real work: the average moves.
  ghost predicate Samples(w: World, a: Action) {
    a.ReleaseTask? && Enabled(w, a) && w.tasks[a.i].route == Quality && w.tasks[a.i].phase != Cancelled
  }

  // Milliseconds per unit, as they enter the average.
  function SampleOf(cfg: Config, w: World, a: Action): real
    requires a.ReleaseTask? && a.i < |w.tasks| && w.tasks[a.i].units > 0.0
  {
    Sample(cfg, Quality, a.elapsedMs, w.tasks[a.i].units)
  }

  lemma AverageStep(cfg: Config, w: World, a: Action)
    requires ValidConfig(cfg) && Inv(cfg, w) && Enabled(w, a)
    ensures Step(cfg, w, a).st.quality.ewma ==
      if Samples(w, a) then 0.8 * w.st.quality.ewma + 0.2 * SampleOf(cfg, w, a) else w.st.quality.ewma
  {
    if a.SubmitTask? {
      var units := Units(cfg, a.codepoints);
      AdmissionKeepsAverage(cfg, w.st, units, Estimate(cfg, w.st, Quality, units), Budget(cfg, a.now, a.deadline),
                            a.now, a.deadline);
    }
  }

  lemma AdmissionKeepsAverage(cfg: Config, st: State, units: real, estimate: real, budget: real, now: real,
                              deadline: Option<real>)
    ensures AdmitWith(cfg, st, units, estimate, budget, now, deadline).0.quality.ewma == st.quality.ewma
  {
  }

  // How far the average is above `m`.
  function Gap(w: World, m: real): (d: real)
    ensures d >= 0.0
  {
    Max(w.st.quality.ewma - m, 0.0)
  }

  // The sample, if the action takes one, is at most `m` per unit.
  ghost predicate FastEnough(cfg: Config, w: World, a: Action, m: real) {
    Samples(w, a) ==> w.tasks[a.i].units > 0.0 && SampleOf(cfg, w, a) <= m
  }

  // A sample of at most `m` takes a fifth of the gap at least; nothing else moves it.
  lemma GapShrinks(cfg: Config, w: World, a: Action, m: real)
    requires ValidConfig(cfg) && Inv(cfg, w) && Enabled(w, a) && FastEnough(cfg, w, a, m)
    ensures Gap(Step(cfg, w, a), m) <= (if Samples(w, a) then 0.8 * Gap(w, m) else Gap(w, m))
  {
    AverageStep(cfg, w, a);
  }

  // ----- between two submits

  ghost predicate SampledBetween(ws: seq<World>, acts: seq<Action>, a: nat, b: nat) {
    exists q :: a <= q < b && q < |acts| && q < |ws| && Samples(ws[q], acts[q])
  }

  ghost predicate Lowers(w: World, a: Action, w': World, m: real) {
    Gap(w', m) <= (if Samples(w, a) then 0.8 * Gap(w, m) else Gap(w, m))
  }

  lemma {:induction false} GapOverSteps(ws: seq<World>, acts: seq<Action>, a: nat, b: nat, m: real)
    requires a <= b < |ws| && b <= |acts|
    requires forall q :: a <= q < b ==> Lowers(ws[q], acts[q], ws[q + 1], m)
    ensures Gap(ws[b], m) <= (if SampledBetween(ws, acts, a, b) then 0.8 * Gap(ws[a], m) else Gap(ws[a], m))
    decreases b
  {
    if a < b {
      GapOverSteps(ws, acts, a, b - 1, m);
      assert Lowers(ws[b - 1], acts[b - 1], ws[b], m);
      if SampledBetween(ws, acts, a, b) && !SampledBetween(ws, acts, a, b - 1) {
        var q :| a <= q < b && q < |acts| && q < |ws| && Samples(ws[q], acts[q]);
        assert q == b - 1;
      }
    }
  }

  lemma GapOverRun(cfg: Config, ws: seq<World>, acts: seq<Action>, a: nat, b: nat, m: real)
    requires ValidConfig(cfg) && IsRun(cfg, ws, acts) && a <= b < |ws|
    requires forall q :: a <= q < b ==> FastEnough(cfg, ws[q], acts[q], m)
    ensures Gap(ws[b], m) <= (if SampledBetween(ws, acts, a, b) then 0.8 * Gap(ws[a], m) else Gap(ws[a], m))
  {
    forall q | a <= q < b ensures Lowers(ws[q], acts[q], ws[q + 1], m) {
      NextGap(cfg, ws, acts, q, m);
    }
    GapOverSteps(ws, acts, a, b, m);
  }

  lemma NextGap(cfg: Config, ws: seq<World>, acts: seq<Action>, q: nat, m: real)
    requires ValidConfig(cfg) && IsRun(cfg, ws, acts) && q < |acts| && FastEnough(cfg, ws[q], acts[q], m)
    ensures Lowers(ws[q], acts[q], ws[q + 1], m)
  {
    InvAlways(cfg, ws, acts, q);
    assert StepsTo(cfg, ws[q], acts[q], ws[q + 1]);
    GapShrinks(cfg, ws[q], acts[q], m);
  }

  // A task keeps its place, its route and its units.
  ghost predicate SameTask(w: World, w': World, j: nat) {
    j < |w.tasks| && j < |w'.tasks| && w'.tasks[j] == w.tasks[j].(phase := w'.tasks[j].phase)
  }

  lemma StepKeepsTask(cfg: Config, w: World, a: Action, j: nat)
    requires ValidConfig(cfg) && Inv(cfg, w) && Enabled(w, a) && j < |w.tasks|
    ensures var w' := Step(cfg, w, a);
      && SameTask(w, w', j)
      && (w'.tasks[j].phase == w.tasks[j].phase
          || a == Accept(j) || a == Reject(j) || a == CancelTask(j) || a == StartTask(j)
          || (a.CompleteTask? && a.i == j) || (a.ReleaseTask? && a.i == j))
  {
  }

  // Past admission, and not cancelled.
  predicate Under(p: Phase) {
    p == Admitted || p == Queued || p == Running || p == Ran
  }

  // A task of the quality route goes on, and is released only after it ran.
  ghost predicate GoesOn(w: World, a: Action, w': World, j: nat) {
    && j < |w.tasks| && j < |w'.tasks| && w.tasks[j].route == w'.tasks[j].route == Quality
    && (w.tasks[j].phase == Gone ==> w'.tasks[j].phase == Gone)
    && (Under(w.tasks[j].phase) ==>
          Under(w'.tasks[j].phase) || (w'.tasks[j].phase == Gone && Samples(w, a)))
  }

  lemma TaskGoesOn(cfg: Config, ws: seq<World>, acts: seq<Action>, j: nat, q: nat)
    requires ValidConfig(cfg) && IsRun(cfg, ws, acts) && q < |acts|
    requires j < |ws[q].tasks| && ws[q].tasks[j].route == Quality
    requires acts[q] != Reject(j) && acts[q] != CancelTask(j)
    ensures GoesOn(ws[q], acts[q], ws[q + 1], j)
  {
    InvAlways(cfg, ws, acts, q);
    assert StepsTo(cfg, ws[q], acts[q], ws[q + 1]);
    StepKeepsTask(cfg, ws[q], acts[q], j);
  }

  // Where a quality task that is neither rejected nor cancelled can be: still under
  // way, or gone with its sample taken.
  ghost predicate RanOrUnder(ws: seq<World>, acts: seq<Action>, j: nat, a: nat, b: nat)
    requires b < |ws|
  {
    && j < |ws[b].tasks| && ws[b].tasks[j].route == Quality
    && (Under(ws[b].tasks[j].phase) || (ws[b].tasks[j].phase == Gone && SampledBetween(ws, acts, a, b)))
  }

  lemma {:induction false} TaskRuns(cfg: Config, ws: seq<World>, acts: seq<Action>, j: nat, a: nat, b: nat)
    requires ValidConfig(cfg) && IsRun(cfg, ws, acts) && a <= b < |ws|
    requires j < |ws[a].tasks| && Under(ws[a].tasks[j].phase) && ws[a].tasks[j].route == Quality
    requires forall q :: a <= q < b ==> acts[q] != Reject(j) && acts[q] != CancelTask(j)
    ensures RanOrUnder(ws, acts, j, a, b)
    decreases b
  {
    if a < b {
      TaskRuns(cfg, ws, acts, j, a, b - 1);
      TaskGoesOn(cfg, ws, acts, j, b - 1);
      RanOrUnderStep(ws, acts, j, a, b - 1);
    }
  }

  lemma RanOrUnderStep(ws: seq<World>, acts: seq<Action>, j: nat, a: nat, b: nat)
    requires a <= b < |acts| && b + 1 < |ws|
    requires RanOrUnder(ws, acts, j, a, b) && GoesOn(ws[b], acts[b], ws[b + 1], j)
    ensures RanOrUnder(ws, acts, j, a, b + 1)
  {
    if SampledBetween(ws, acts, a, b) {
      var q :| a <= q < b && q < |acts| && q < |ws| && Samples(ws[q], acts[q]);
      assert SampledBetween(ws, acts, a, b + 1);
    }
    assert Samples(ws[b], acts[b]) ==> SampledBetween(ws, acts, a, b + 1);
  }

  // ----- many submits

  // No submit before the `i`-th of `ps` recovered.
  ghost predicate Waiting(ws: seq<World>, ps: seq<nat>, i: nat)
    requires i <= |ps| && forall j :: 0 <= j < |ps| ==> ps[j] + 1 < |ws|
  {
    forall j :: 0 <= j < i ==> !Recovered(ws[ps[j]], ws[ps[j] + 1])
  }

  ghost predicate Positions(acts: seq<Action>, ps: seq<nat>) {
    && (forall i :: 0 <= i < |ps| ==> ps[i] < |acts|)
    && forall i, j :: 0 <= i < j < |ps| ==> ps[i] < ps[j]
  }

  // The task that the submit in place `p` brings in is neither rejected by the pool
  // nor cancelled before place `b`.
  ghost predicate LeftToRun(ws: seq<World>, acts: seq<Action>, p: nat, b: nat)
    requires p < b <= |acts| && |ws| == |acts| + 1
  {
    forall q :: p < q < b ==> acts[q] != Reject(|ws[p].tasks|) && acts[q] != CancelTask(|ws[p].tasks|)
  }

  // While none of the submits in places `ps` has recovered: each is due, the probe
  // before it was left to run, and no sample up to it exceeds `m` per unit. All else
  // that happens in the run is free.
  ghost predicate Rounds(cfg: Config, ws: seq<World>, acts: seq<Action>, ps: seq<nat>, m: real, u: real)
    requires ValidConfig(cfg) && |ws| == |acts| + 1 && Positions(acts, ps)
  {
    forall i :: 0 <= i < |ps| && Waiting(ws, ps, i) ==>
      && Due(cfg, ws[ps[i]], acts[ps[i]], u)
      && (i > 0 ==> LeftToRun(ws, acts, ps[i - 1], ps[i]))
      && forall q :: ps[0] <= q < ps[i] ==> FastEnough(cfg, ws[q], acts[q], m)
  }

  // From one unsuccessful submit to the next the gap shrinks by a fifth: its task
  // was admitted as a probe, and since nothing is pending any more it has run.
  lemma RoundShrinksGap(cfg: Config, ws: seq<World>, acts: seq<Action>, p: nat, b: nat, m: real, u: real)
    requires ValidConfig(cfg) && cfg.backend.Adaptive? && IsRun(cfg, ws, acts) && p < b < |acts|
    requires Due(cfg, ws[p], acts[p], u) && Due(cfg, ws[b], acts[b], u)
    requires !Recovered(ws[p], ws[p + 1]) && LeftToRun(ws, acts, p, b)
    requires forall q :: p <= q < b ==> FastEnough(cfg, ws[q], acts[q], m)
    ensures Gap(ws[b], m) <= 0.8 * Gap(ws[p], m)
  {
    var j := |ws[p].tasks|;
    InvAlways(cfg, ws, acts, p);
    assert StepsTo(cfg, ws[p], acts[p], ws[p + 1]);
    SubmitRecoversOrProbes(cfg, ws[p], acts[p], u);
    TaskRuns(cfg, ws, acts, j, p + 1, b);
    InvAlways(cfg, ws, acts, b);
    NothingPending(cfg, ws[b], j);
    var q :| p + 1 <= q < b && q < |acts| && q < |ws| && Samples(ws[q], acts[q]);
    assert SampledBetween(ws, acts, p, b);
    GapOverRun(cfg, ws, acts, p, b, m);
  }

  lemma NothingPending(cfg: Config, w: World, j: nat)
    requires Inv(cfg, w) && w.st.quality.pending == 0 && j < |w.tasks| && w.tasks[j].route == Quality
    ensures w.tasks[j].phase == Gone
  {
    SumsAreOrdered(w.tasks, Quality);
    assert Here(w.tasks[j], Quality) == 0;
  }

  lemma RoundFacts(cfg: Config, ws: seq<World>, acts: seq<Action>, ps: seq<nat>, m: real, u: real, i: nat)
    requires ValidConfig(cfg) && |ws| == |acts| + 1 && Positions(acts, ps)
    requires Rounds(cfg, ws, acts, ps, m, u) && 0 < i < |ps| && Waiting(ws, ps, i)
    ensures Waiting(ws, ps, i - 1) && !Recovered(ws[ps[i - 1]], ws[ps[i - 1] + 1])
    ensures ps[i - 1] < ps[i] && Due(cfg, ws[ps[i - 1]], acts[ps[i - 1]], u) && Due(cfg, ws[ps[i]], acts[ps[i]], u)
    ensures LeftToRun(ws, acts, ps[i - 1], ps[i])
    ensures forall q :: ps[i - 1] <= q < ps[i] ==> FastEnough(cfg, ws[q], acts[q], m)
  {
    assert Waiting(ws, ps, i - 1);
    assert ps[0] <= ps[i - 1];
  }

  function Power(x: real, k: nat): real {
    if k == 0 then 1.0 else x * Power(x, k - 1)
  }

  // `d`, less a fifth `k` times.
  function Decayed(d: real, k: nat): real {
    if k == 0 then d else 0.8 * Decayed(d, k - 1)
  }

  // That is, `0.8` to the power `k` times `d`.
  lemma {:induction false} DecayedIsPower(d: real, k: nat)
    ensures Decayed(d, k) == Power(0.8, k) * d
  {
    if k > 0 {
      DecayedIsPower(d, k - 1);
      var p := Power(0.8, k - 1);
      assert (0.8 * p) * d == 0.8 * (p * d);
    }
  }

  lemma {:induction false} Decay(gaps: seq<real>, k: nat)
    requires k < |gaps| && forall j :: 0 < j < |gaps| ==> gaps[j] <= 0.8 * gaps[j - 1]
    ensures gaps[k] <= Decayed(gaps[0], k)
  {
    if k > 0 {
      Decay(gaps, k - 1);
    }
  }

  lemma RoundGap(cfg: Config, ws: seq<World>, acts: seq<Action>, ps: seq<nat>, m: real, u: real, i: nat)
    requires ValidConfig(cfg) && cfg.backend.Adaptive? && IsRun(cfg, ws, acts) && Positions(acts, ps)
    requires Rounds(cfg, ws, acts, ps, m, u) && 0 < i < |ps| && Waiting(ws, ps, i)
    ensures Gap(ws[ps[i]], m) <= 0.8 * Gap(ws[ps[i - 1]], m)
  {
    RoundFacts(cfg, ws, acts, ps, m, u, i);
    RoundShrinksGap(cfg, ws, acts, ps[i - 1], ps[i], m, u);
  }

  lemma WaitingEarlier(ws: seq<World>, ps: seq<nat>, j: nat, i: nat)
    requires j <= i <= |ps| && forall j :: 0 <= j < |ps| ==> ps[j] + 1 < |ws|
    requires Waiting(ws, ps, i)
    ensures Waiting(ws, ps, j)
  {
  }

  // After `i` unsuccessful probes the gap is at most the first one decayed `i` times.
  lemma GapAfterProbes(cfg: Config, ws: seq<World>, acts: seq<Action>, ps: seq<nat>, m: real, u: real, i: nat)
    requires ValidConfig(cfg) && cfg.backend.Adaptive? && IsRun(cfg, ws, acts) && Positions(acts, ps)
    requires Rounds(cfg, ws, acts, ps, m, u) && i < |ps| && Waiting(ws, ps, i)
    ensures Gap(ws[ps[i]], m) <= Decayed(Gap(ws[ps[0]], m), i)
  {
    var gaps := GapsShrink(cfg, ws, acts, ps, m, u, i);
    Decay(gaps, i);
  }

  lemma {:induction false} GapsShrink(cfg: Config, ws: seq<World>, acts: seq<Action>, ps: seq<nat>, m: real,
                                      u: real, i: nat) returns (gaps: seq<real>)
    requires ValidConfig(cfg) && cfg.backend.Adaptive? && IsRun(cfg, ws, acts) && Positions(acts, ps)
    requires Rounds(cfg, ws, acts, ps, m, u) && i < |ps| && Waiting(ws, ps, i)
    ensures |gaps| == i + 1 && gaps[0] == Gap(ws[ps[0]], m) && gaps[i] == Gap(ws[ps[i]], m)
    ensures forall j :: 0 < j < |gaps| ==> gaps[j] <= 0.8 * gaps[j - 1]
  {
    if i == 0 {
      gaps := [Gap(ws[ps[0]], m)];
    } else {
      WaitingEarlier(ws, ps, i - 1, i);
      gaps := GapsShrink(cfg, ws, acts, ps, m, u, i - 1);
      RoundGap(cfg, ws, acts, ps, m, u, i);
      gaps := gaps + [Gap(ws[ps[i]], m)];
    }
  }

  // ----- how many probes are enough

  lemma FewerRounds(d: real, slack: real)
    requires slack > 0.0 && d > slack
    ensures 0 <= (5.0 * (0.8 * d) / slack).Floor < (5.0 * d / slack).Floor
  {
    var x, y := 5.0 * d / slack, d / slack;
    assert x == 5.0 * y && 5.0 * (0.8 * d) / slack == 4.0 * y;
    assert y * slack == d;
    if y <= 1.0 {
      Times(y, 1.0, slack);
    }
  }

  // The least number of times by which a gap of `d`, losing a fifth each time, comes
  // down to `slack`: the logarithm of `d / slack` to the base 1.25, rounded up.
  function RoundsEnough(d: real, slack: real): (r: nat)
    requires d >= 0.0 && slack > 0.0
    ensures Decayed(d, r) <= slack
    ensures r > 0 ==> Decayed(d, r - 1) > slack
    decreases (5.0 * d / slack).Floor
  {
    if d <= slack then 0
    else
      FewerRounds(d, slack);
      var r := RoundsEnough(0.8 * d, slack);
      DecayedOnce(d, r);
      if r == 0 then 1
      else
        DecayedOnce(d, r - 1);
        r + 1
  }

  lemma {:induction false} DecayedOnce(d: real, k: nat)
    ensures Decayed(d, k + 1) == Decayed(0.8 * d, k)
  {
    if k > 0 {
      DecayedOnce(d, k - 1);
    }
  }

  lemma {:induction false} MoreIsEnough(d: real, slack: real, r: nat, k: nat)
    requires d >= 0.0 && slack >= 0.0 && r <= k && Decayed(d, r) <= slack
    ensures Decayed(d, k) <= slack
    decreases k
  {
    if r < k {
      MoreIsEnough(d, slack, r, k - 1);
    }
  }

  lemma Times(a: real, b: real, x: real)
    requires a <= b && x >= 0.0
    ensures a * x <= b * x && x * a <= x * b
  {
  }

  lemma ScaledEstimate(e: real, v: real, u: real, limit: real, target: real)
    requires e <= limit && 0.0 < v <= u && limit * u <= target && target >= 0.0
    ensures e * v <= target
  {
    if e > 0.0 {
      Times(v, u, e);
      Times(e, limit, u);
    } else {
      Times(e, 0.0, v);
    }
  }

  // What `m` per unit leaves below the target on `u` units, per unit.
  function Slack(m: real, u: real, target: real): (slack: real)
    requires u > 0.0 && m * u < target
    ensures slack > 0.0 && (m + slack) * u <= target
  {
    var slack := (target - m * u) / u;
    SlackIsPositive(slack, m, u, target);
    slack
  }

  lemma SlackIsPositive(slack: real, m: real, u: real, target: real)
    requires u > 0.0 && m * u < target && slack * u == target - m * u
    ensures slack > 0.0 && (m + slack) * u <= target
  {
    if slack <= 0.0 {
      Times(slack, 0.0, u);
    }
    assert (m + slack) * u == m * u + slack * u;
  }

  lemma TargetIsPositive(cfg: Config)
    requires ValidConfig(cfg)
    ensures Target(cfg) > 0.0
  {
  }

  // ----- degraded mode ends

  lemma {:induction false} FirstRecovery(ws: seq<World>, ps: seq<nat>, n: nat) returns (i: nat)
    requires n < |ps| && forall j :: 0 <= j < |ps| ==> ps[j] + 1 < |ws|
    ensures i <= n && Waiting(ws, ps, i) && (i < n ==> Recovered(ws[ps[i]], ws[ps[i] + 1]))
  {
    if n == 0 {
      i := 0;
    } else {
      i := FirstRecovery(ws, ps, n - 1);
      if i == n - 1 && !Recovered(ws[ps[i]], ws[ps[i] + 1]) {
        i := n;
      }
    }
  }

  // After enough unsuccessful probes, the next submit that is due recovers.
  lemma EnoughProbesRecover(cfg: Config, ws: seq<World>, acts: seq<Action>, ps: seq<nat>, m: real, u: real,
                            slack: real, n: nat)
    requires ValidConfig(cfg) && cfg.backend.Adaptive? && IsRun(cfg, ws, acts) && Positions(acts, ps)
    requires Rounds(cfg, ws, acts, ps, m, u) && n < |ps| && Waiting(ws, ps, n)
    requires Decayed(Gap(ws[ps[0]], m), n) <= slack && (m + slack) * u <= Target(cfg)
    ensures Recovered(ws[ps[n]], ws[ps[n] + 1])
  {
    GapAfterProbes(cfg, ws, acts, ps, m, u, n);
    RecoversAt(cfg, ws, acts, ps[n], m, slack, u);
  }

  lemma EnoughIsEnough(d: real, slack: real, n: nat)
    requires d >= 0.0 && slack > 0.0 && n >= RoundsEnough(d, slack)
    ensures Decayed(d, n) <= slack
  {
    MoreIsEnough(d, slack, RoundsEnough(d, slack), n);
  }

  lemma RecoversAt(cfg: Config, ws: seq<World>, acts: seq<Action>, p: nat, m: real, slack: real, u: real)
    requires ValidConfig(cfg) && cfg.backend.Adaptive? && IsRun(cfg, ws, acts) && p < |acts|
    requires Due(cfg, ws[p], acts[p], u) && Gap(ws[p], m) <= slack && (m + slack) * u <= Target(cfg)
    ensures Recovered(ws[p], ws[p + 1])
  {
    InvAlways(cfg, ws, acts, p);
    assert StepsTo(cfg, ws[p], acts[p], ws[p + 1]);
    TargetIsPositive(cfg);
    ScaledEstimate(ws[p].st.quality.ewma, Units(cfg, acts[p].codepoints), u, m + slack, Target(cfg));
    SubmitRecoversOrProbes(cfg, ws[p], acts[p], u);
  }

  // Samples of at most `m` per unit on chunks of at most `u` units, with `m * u`
  // below the recovery target: one of the first submits after the holds recovers,
  // and how many it takes is bounded beforehand.
  lemma DegradedIsNotATrap(cfg: Config, ws: seq<World>, acts: seq<Action>, ps: seq<nat>, m: real, u: real)
    requires ValidConfig(cfg) && cfg.backend.Adaptive? && IsRun(cfg, ws, acts) && Positions(acts, ps) && ps != []
    requires Rounds(cfg, ws, acts, ps, m, u) && u > 0.0 && m * u < Target(cfg)
    requires |ps| > RoundsEnough(Gap(ws[ps[0]], m), Slack(m, u, Target(cfg)))
    ensures exists i :: 0 <= i < |ps| && Waiting(ws, ps, i) && Recovered(ws[ps[i]], ws[ps[i] + 1])
  {
    EnoughIsEnough(Gap(ws[ps[0]], m), Slack(m, u, Target(cfg)), |ps| - 1);
    var i := SomeSubmitRecovers(cfg, ws, acts, ps, m, u, Slack(m, u, Target(cfg)));
  }

  lemma SomeSubmitRecovers(cfg: Config, ws: seq<World>, acts: seq<Action>, ps: seq<nat>, m: real, u: real,
                           slack: real) returns (i: nat)
    requires ValidConfig(cfg) && cfg.backend.Adaptive? && IsRun(cfg, ws, acts) && Positions(acts, ps) && ps != []
    requires Rounds(cfg, ws, acts, ps, m, u)
    requires Decayed(Gap(ws[ps[0]], m), |ps| - 1) <= slack && (m + slack) * u <= Target(cfg)
    ensures i < |ps| && Waiting(ws, ps, i) && Recovered(ws[ps[i]], ws[ps[i] + 1])
  {
    i := FirstRecovery(ws, ps, |ps| - 1);
    if i == |ps| - 1 {
      EnoughProbesRecover(cfg, ws, acts, ps, m, u, slack, i);
    }
  }

  // ----- such runs exist

  const EXAMPLE := Config(Adaptive, 1, 1, 1, 1, 100.0, 1000.0, 1.0, 10.0, 1000.0, 0, 0.5, 100)

  const EXAMPLE_ACTIONS: seq<Action> := [
    SubmitTask(100, 0.0, None), SubmitTask(100, 1.0, None), Accept(1), StartTask(1),
    CompleteTask(1, false), ReleaseTask(1, 0.0, 2.0), SubmitTask(100, 2.0, None)
  ]

  lemma OneMoreStep(cfg: Config, ws: seq<World>, acts: seq<Action>, a: Action, w: World)
    requires ValidConfig(cfg) && IsRun(cfg, ws, acts) && StepsTo(cfg, ws[|acts|], a, w)
    ensures IsRun(cfg, ws + [w], acts + [a])
  {
    var ws', acts' := ws + [w], acts + [a];
    forall k | 0 <= k < |acts'| ensures StepsTo(cfg, ws'[k], acts'[k], ws'[k + 1]) {
      if k < |acts| {
        assert StepsTo(cfg, ws[k], acts[k], ws[k + 1]);
      }
    }
  }

  // Degraded until `t`, nothing pending on the quality route, whose average is `e`.
  predicate Calm(w: World, t: real, e: real) {
    && w.st.degraded && w.st.degradedUntil == t && !w.st.closed
    && w.st.quality.pending == 0 && w.st.quality.units == 0.0 && w.st.quality.ewma == e
  }

  // The probe's task is in phase `p`.
  predicate Probing(w: World, p: Phase) {
    && |w.tasks| == 2 && w.tasks[1] == Task(Quality, 1.0, p)
    && w.st.degraded && w.st.degradedUntil == 2.0 && !w.st.closed && w.shut == {}
    && w.st.quality.pending == 1 && w.st.quality.units == 1.0 && w.st.quality.ewma == 1000.0
  }

  // The world after the first `i` actions of the example.
  ghost predicate ExampleAt(w: World, i: nat) {
    && (forall k :: 0 <= k < |w.tasks| ==> w.tasks[k].units > 0.0)
    && (i == 0 ==> w == Start(EXAMPLE))
    && (i == 1 ==> Calm(w, 1.0, 1000.0) && |w.tasks| == 1 && w.shut == {})
    && (i == 2 ==> Probing(w, Admitted))
    && (i == 3 ==> Probing(w, Queued))
    && (i == 4 ==> Probing(w, Running))
    && (i == 5 ==> Probing(w, Ran))
    && (i == 6 ==> Calm(w, 2.0, 800.4))
  }

  lemma ExampleStep(w: World, i: nat) returns (w': World)
    requires i < |EXAMPLE_ACTIONS| && ExampleAt(w, i)
    ensures StepsTo(EXAMPLE, w, EXAMPLE_ACTIONS[i], w') && ExampleAt(w', i + 1)
  {
    w' := Step(EXAMPLE, w, EXAMPLE_ACTIONS[i]);
  }

  lemma {:induction false} ExampleRun(n: nat) returns (ws: seq<World>)
    requires n <= |EXAMPLE_ACTIONS|
    ensures IsRun(EXAMPLE, ws, EXAMPLE_ACTIONS[..n])
    ensures forall k :: 0 <= k <= n ==> ExampleAt(ws[k], k)
  {
    if n == 0 {
      ws := [Start(EXAMPLE)];
    } else {
      ws := ExampleRun(n - 1);
      var w := ExampleStep(ws[n - 1], n - 1);
      OneMoreStep(EXAMPLE, ws, EXAMPLE_ACTIONS[..n - 1], EXAMPLE_ACTIONS[n - 1], w);
      assert EXAMPLE_ACTIONS[..n] == EXAMPLE_ACTIONS[..n - 1] + [EXAMPLE_ACTIONS[n - 1]];
      ws := ws + [w];
    }
  }

  lemma ExampleIsFast(w: World, q: nat)
    requires 1 <= q < 6 && ExampleAt(w, q)
    ensures FastEnough(EXAMPLE, w, EXAMPLE_ACTIONS[q], 2.0)
  {
  }

  // A slow first estimate degrades the mode; the probe after the hold runs to its
  // end, and the next submit is due again.
  lemma CompletedProbeIsARound() returns (ws: seq<World>)
    ensures IsRun(EXAMPLE, ws, EXAMPLE_ACTIONS) && Positions(EXAMPLE_ACTIONS, [1, 6])
    ensures Rounds(EXAMPLE, ws, EXAMPLE_ACTIONS, [1, 6], 2.0, 1.0) && Waiting(ws, [1, 6], 1)
  {
    var acts := EXAMPLE_ACTIONS;
    ws := ExampleRun(|acts|);
    assert acts[..|acts|] == acts;
    assert ExampleAt(ws[1], 1) && ExampleAt(ws[2], 2) && ExampleAt(ws[6], 6);
    assert Due(EXAMPLE, ws[1], acts[1], 1.0) && Due(EXAMPLE, ws[6], acts[6], 1.0);
    assert LeftToRun(ws, acts, 1, 6);
    forall q | 1 <= q < 6 ensures FastEnough(EXAMPLE, ws[q], acts[q], 2.0) {
      assert ExampleAt(ws[q], q);
      ExampleIsFast(ws[q], q);
    }
    ExampleRounds(ws);
  }

  lemma ExampleRounds(ws: seq<World>)
    requires |ws| == |EXAMPLE_ACTIONS| + 1 && !Recovered(ws[1], ws[2])
    requires Due(EXAMPLE, ws[1], EXAMPLE_ACTIONS[1], 1.0) && Due(EXAMPLE, ws[6], EXAMPLE_ACTIONS[6], 1.0)
    requires LeftToRun(ws, EXAMPLE_ACTIONS, 1, 6)
    requires forall q :: 1 <= q < 6 ==> FastEnough(EXAMPLE, ws[q], EXAMPLE_ACTIONS[q], 2.0)
    ensures Rounds(EXAMPLE, ws, EXAMPLE_ACTIONS, [1, 6], 2.0, 1.0) && Waiting(ws, [1, 6], 1)
  {
    var ps: seq<nat> := [1, 6];
    assert Positions(EXAMPLE_ACTIONS, ps);
    assert Waiting(ws, ps, 1);
    forall i | 0 <= i < |ps| && Waiting(ws, ps, i)
      ensures Due(EXAMPLE, ws[ps[i]], EXAMPLE_ACTIONS[ps[i]], 1.0)
      ensures i > 0 ==> LeftToRun(ws, EXAMPLE_ACTIONS, ps[i - 1], ps[i])
      ensures forall q :: ps[0] <= q < ps[i] ==> FastEnough(EXAMPLE, ws[q], EXAMPLE_ACTIONS[q], 2.0)
    {
      assert i == 0 || i == 1;
    }
  }
}
