/** What the scheduler decides in a run, in terms of the outstanding tasks, the clock
    and the configuration alone. */
module Admission {
  import opened Wrappers
  import opened Scheduler
  import opened SchedulerRuns

  // The submit gets a place on `route`, for `reason`, and nothing else is counted.
  ghost predicate TakesPlace(w: World, w': World, route: Route, reason: Reason, units: real) {
    && w'.tasks == w.tasks + [Task(route, units, Admitted)]
    && w'.st.counts.reasons == w.st.counts.reasons + multiset{reason}
    && w'.st.counts.rejected == w.st.counts.rejected
    && forall r: Route ::
         && Of(w'.st, r).ewma == Of(w.st, r).ewma
         && Of(w'.st, r).routed == Of(w.st, r).routed + (if r == route then 1 else 0)
  }

  ghost predicate TurnedAway(w: World, w': World) {
    && w'.tasks == w.tasks && w'.st.quality == w.st.quality && w'.st.spacy == w.st.spacy
    && w'.st.counts.reasons == w.st.counts.reasons && w'.st.counts.rejected == w.st.counts.rejected + 1
  }

  // The world after a submit.
  ghost function Submitted(cfg: Config, w: World, units: real, estimate: real, budget: real, now: real,
                           deadline: Option<real>): World
  {
    var (st, d) := AdmitWith(cfg, w.st, units, estimate, budget, now, deadline);
    if d.Reserved? then w.(st := st, tasks := w.tasks + [Task(d.route, units, Admitted)]) else w.(st := st)
  }

  // `inTime` and `low` say how the estimate compares to the budget and to its share.
  lemma ModeTable(cfg: Config, w: World, units: real, load: real, budget: real, now: real, deadline: Option<real>,
                  inTime: bool, low: bool, beforeEnd: bool)
    requires ValidConfig(cfg) && cfg.backend.Adaptive? && !w.st.closed && budget >= 0.0
    requires inTime == (load <= budget) && low == (load <= budget * cfg.recoveryRatio)
    requires beforeEnd == (deadline.Some? ==> load < (deadline.value - now) * 1000.0)
    ensures
      var st, st' := w.st, Submitted(cfg, w, units, load, budget, now, deadline).st;
      var room := st.quality.pending < cfg.qualityWorkers + cfg.qualityQueue;
      var recovers := st.degraded && now >= st.degradedUntil && st.quality.pending <= cfg.qualityRecoveryPending && low;
      var degraded := if st.degraded then !recovers else !(room && inTime);
      var probe := st.degraded && degraded && now >= st.degradedUntil && st.quality.pending == 0 && beforeEnd;
      && st'.degraded == degraded
      && st'.degradedUntil
         == (if probe || (degraded && !st.degraded) then now + cfg.recoveryHoldMs / 1000.0 else st.degradedUntil)
      && st'.counts.recoveries == st.counts.recoveries + (if st.degraded && !degraded then 1 else 0)
      && st'.counts.degradations == st.counts.degradations + (if degraded && !st.degraded then 1 else 0)
  {
    if Recovers(cfg, w.st, load, budget, now) {
      RecoveryHolds(cfg, w.st, load, budget, now);
    }
  }

  lemma DecisionTable(cfg: Config, st: State, units: real, load: real, budget: real, now: real, deadline: Option<real>)
    requires ValidConfig(cfg) && cfg.backend.Adaptive? && !st.closed && budget >= 0.0
    ensures
      var room := st.quality.pending < cfg.qualityWorkers + cfg.qualityQueue;
      var fastRoom := st.spacy.pending < cfg.spacyWorkers + cfg.spacyQueue;
      var recovers := st.degraded && now >= st.degradedUntil && st.quality.pending <= cfg.qualityRecoveryPending
                      && load <= budget * cfg.recoveryRatio;
      var degraded := if st.degraded then !recovers else !room || load > budget;
      var probe := st.degraded && degraded && now >= st.degradedUntil && st.quality.pending == 0
                   && (deadline.Some? ==> load < (deadline.value - now) * 1000.0);
      AdmitWith(cfg, st, units, load, budget, now, deadline).1 ==
        if !degraded then Reserved(Quality, Normal)
        else if probe then Reserved(Quality, RecoveryProbe)
        else if fastRoom then
          Reserved(Spacy, if !room then QualityCapacity else if load > budget then QualityBudget else Hold)
        else if room && load <= budget then Reserved(Quality, FastFullQualitySpare)
        else Exhausted
  {
    if Recovers(cfg, st, load, budget, now) {
      RecoveryHolds(cfg, st, load, budget, now);
    }
  }

  lemma DecisionIsCarriedOut(cfg: Config, w: World, units: real, load: real, budget: real, now: real,
                             deadline: Option<real>)
    requires !w.st.closed
    ensures
      var d, w' := AdmitWith(cfg, w.st, units, load, budget, now, deadline).1,
                   Submitted(cfg, w, units, load, budget, now, deadline);
      if d.Reserved? then TakesPlace(w, w', d.route, d.reason, units) else TurnedAway(w, w')
  {
  }

  lemma PlaceTable(cfg: Config, w: World, units: real, load: real, budget: real, now: real, deadline: Option<real>,
                   inTime: bool, beforeEnd: bool)
    requires ValidConfig(cfg) && cfg.backend.Adaptive? && !w.st.closed && budget >= 0.0
    requires inTime == (load <= budget)
    requires beforeEnd == (deadline.Some? ==> load < (deadline.value - now) * 1000.0)
    ensures
      var st, w' := w.st, Submitted(cfg, w, units, load, budget, now, deadline);
      var room := st.quality.pending < cfg.qualityWorkers + cfg.qualityQueue;
      var fastRoom := st.spacy.pending < cfg.spacyWorkers + cfg.spacyQueue;
      var probe := st.degraded && now >= st.degradedUntil && st.quality.pending == 0 && beforeEnd;
      if !w'.st.degraded then room && inTime && TakesPlace(w, w', Quality, Normal, units)
      else if probe then TakesPlace(w, w', Quality, RecoveryProbe, units)
      else if fastRoom then
        TakesPlace(w, w', Spacy, if !room then QualityCapacity else if !inTime then QualityBudget else Hold, units)
      else if room && inTime then TakesPlace(w, w', Quality, FastFullQualitySpare, units)
      else TurnedAway(w, w')
  {
    ScaledDown(budget, cfg.recoveryRatio);
    ModeTable(cfg, w, units, load, budget, now, deadline, inTime, load <= budget * cfg.recoveryRatio, beforeEnd);
    DecisionTable(cfg, w.st, units, load, budget, now, deadline);
    DecisionIsCarriedOut(cfg, w, units, load, budget, now, deadline);
  }

  // The step of a submit, with its estimate and its budget worked out.
  lemma SubmitStep(cfg: Config, ws: seq<World>, acts: seq<Action>, k: nat, units: real, load: real, budget: real)
    requires ValidConfig(cfg) && IsRun(cfg, ws, acts) && k < |acts| && acts[k].SubmitTask?
    requires units == Units(cfg, acts[k].codepoints)
    requires load == ws[k].st.quality.ewma * (SumLoad(ws[k].tasks, Quality) / cfg.qualityWorkers as real + units)
    requires budget == Budget(cfg, acts[k].now, acts[k].deadline)
    ensures ws[k + 1] == Submitted(cfg, ws[k], units, load, budget, acts[k].now, acts[k].deadline)
    ensures ws[k].st.quality.pending == CountHere(ws[k].tasks, Quality)
    ensures ws[k].st.spacy.pending == CountHere(ws[k].tasks, Spacy)
    ensures acts[k].deadline.Some? ==> acts[k].now < acts[k].deadline.value
  {
    ReservationsAreConserved(cfg, ws, acts, k, Quality);
    ReservationsAreConserved(cfg, ws, acts, k, Spacy);
    assert StepsTo(cfg, ws[k], acts[k], ws[k + 1]);
    assert load == Estimate(cfg, ws[k].st, Quality, units);
  }

  lemma BudgetIsTheSmaller(cfg: Config, ws: seq<World>, acts: seq<Action>, k: nat)
    requires ValidConfig(cfg) && IsRun(cfg, ws, acts) && k < |acts| && acts[k].SubmitTask?
    ensures var now, deadline := acts[k].now, acts[k].deadline;
      Budget(cfg, now, deadline) == if deadline.Some? && (deadline.value - now) * 1000.0 < cfg.routingBudgetMs
                                    then (deadline.value - now) * 1000.0 else cfg.routingBudgetMs
  {
    assert StepsTo(cfg, ws[k], acts[k], ws[k + 1]);
  }

  // The mode after a submit to the adaptive backend. The estimate is the average times
  // the chunks each quality worker still has to do, with this one on top; the budget
  // is what is configured, or what is left until the deadline.
  lemma SubmitSetsMode(cfg: Config, ws: seq<World>, acts: seq<Action>, k: nat, units: real, load: real,
                       budget: real)
    requires ValidConfig(cfg) && IsRun(cfg, ws, acts) && k < |acts| && acts[k].SubmitTask?
    requires cfg.backend.Adaptive? && !ws[k].st.closed
    requires var share := acts[k].codepoints as real / cfg.maxChunkCodepoints as real;
      units == if share < 0.25 then 0.25 else share
    requires load == ws[k].st.quality.ewma * (SumLoad(ws[k].tasks, Quality) / cfg.qualityWorkers as real + units)
    requires var deadline := acts[k].deadline;
      budget == if deadline.Some? && (deadline.value - acts[k].now) * 1000.0 < cfg.routingBudgetMs
                then (deadline.value - acts[k].now) * 1000.0 else cfg.routingBudgetMs
    ensures
      var st, st', now, deadline := ws[k].st, ws[k + 1].st, acts[k].now, acts[k].deadline;
      var room := CountHere(ws[k].tasks, Quality) < cfg.qualityWorkers + cfg.qualityQueue;
      var inTime := load <= budget;
      var recovers :=
        && st.degraded && now >= st.degradedUntil
        && CountHere(ws[k].tasks, Quality) <= cfg.qualityRecoveryPending
        && load <= budget * cfg.recoveryRatio;
      var degraded := if st.degraded then !recovers else !(room && inTime);
      var probe := st.degraded && degraded && now >= st.degradedUntil && CountHere(ws[k].tasks, Quality) == 0
                   && (deadline.Some? ==> load < (deadline.value - now) * 1000.0);
      && st'.degraded == degraded
      && st'.degradedUntil
         == (if probe || (degraded && !st.degraded) then now + cfg.recoveryHoldMs / 1000.0 else st.degradedUntil)
      && st'.counts.recoveries == st.counts.recoveries + (if st.degraded && !degraded then 1 else 0)
      && st'.counts.degradations == st.counts.degradations + (if degraded && !st.degraded then 1 else 0)
  {
    var now, deadline := acts[k].now, acts[k].deadline;
    BudgetIsTheSmaller(cfg, ws, acts, k);
    SubmitStep(cfg, ws, acts, k, units, load, budget);
    BudgetIsNotNegative(cfg, now, deadline);
    ModeTable(cfg, ws[k], units, load, budget, now, deadline, load <= budget, load <= budget * cfg.recoveryRatio,
              deadline.Some? ==> load < (deadline.value - now) * 1000.0);
  }

  // The place a submit to the adaptive backend gets, and why.
  lemma SubmitGetsPlace(cfg: Config, ws: seq<World>, acts: seq<Action>, k: nat, units: real, load: real,
                        budget: real)
    requires ValidConfig(cfg) && IsRun(cfg, ws, acts) && k < |acts| && acts[k].SubmitTask?
    requires cfg.backend.Adaptive? && !ws[k].st.closed
    requires var share := acts[k].codepoints as real / cfg.maxChunkCodepoints as real;
      units == if share < 0.25 then 0.25 else share
    requires load == ws[k].st.quality.ewma * (SumLoad(ws[k].tasks, Quality) / cfg.qualityWorkers as real + units)
    requires var deadline := acts[k].deadline;
      budget == if deadline.Some? && (deadline.value - acts[k].now) * 1000.0 < cfg.routingBudgetMs
                then (deadline.value - acts[k].now) * 1000.0 else cfg.routingBudgetMs
    ensures
      var st, now, deadline := ws[k].st, acts[k].now, acts[k].deadline;
      var room := CountHere(ws[k].tasks, Quality) < cfg.qualityWorkers + cfg.qualityQueue;
      var fastRoom := CountHere(ws[k].tasks, Spacy) < cfg.spacyWorkers + cfg.spacyQueue;
      var inTime := load <= budget;
      var probe := st.degraded && now >= st.degradedUntil && CountHere(ws[k].tasks, Quality) == 0
                   && (deadline.Some? ==> load < (deadline.value - now) * 1000.0);
      if !ws[k + 1].st.degraded then room && inTime && TakesPlace(ws[k], ws[k + 1], Quality, Normal, units)
      else if probe then TakesPlace(ws[k], ws[k + 1], Quality, RecoveryProbe, units)
      else if fastRoom then
        TakesPlace(ws[k], ws[k + 1], Spacy,
                   if !room then QualityCapacity else if !inTime then QualityBudget else Hold, units)
      else if room && inTime then TakesPlace(ws[k], ws[k + 1], Quality, FastFullQualitySpare, units)
      else TurnedAway(ws[k], ws[k + 1])
  {
    var now, deadline := acts[k].now, acts[k].deadline;
    BudgetIsTheSmaller(cfg, ws, acts, k);
    SubmitStep(cfg, ws, acts, k, units, load, budget);
    BudgetIsNotNegative(cfg, now, deadline);
    PlaceTable(cfg, ws[k], units, load, budget, now, deadline, load <= budget,
               deadline.Some? ==> load < (deadline.value - now) * 1000.0);
  }

  // A closed scheduler counts nothing and admits nobody; a fixed backend has one route.
  lemma SubmitElsewhere(cfg: Config, ws: seq<World>, acts: seq<Action>, k: nat)
    requires ValidConfig(cfg) && IsRun(cfg, ws, acts) && k < |acts| && acts[k].SubmitTask?
    ensures ws[k].st.closed ==> ws[k + 1] == ws[k]
    ensures !ws[k].st.closed && cfg.backend.Fixed? ==>
      var route := cfg.backend.route;
      var share := acts[k].codepoints as real / cfg.maxChunkCodepoints as real;
      var capacity := if route == Quality then cfg.qualityWorkers + cfg.qualityQueue
                      else cfg.spacyWorkers + cfg.spacyQueue;
      if CountHere(ws[k].tasks, route) < capacity
      then TakesPlace(ws[k], ws[k + 1], route, FixedRoute, if share < 0.25 then 0.25 else share)
      else TurnedAway(ws[k], ws[k + 1])
  {
    var now, deadline := acts[k].now, acts[k].deadline;
    var units, budget := Units(cfg, acts[k].codepoints), Budget(cfg, now, deadline);
    var load := ws[k].st.quality.ewma * (SumLoad(ws[k].tasks, Quality) / cfg.qualityWorkers as real + units);
    SubmitStep(cfg, ws, acts, k, units, load, budget);
    if !ws[k].st.closed && cfg.backend.Fixed? {
      DecisionIsCarriedOut(cfg, ws[k], units, load, budget, now, deadline);
    }
  }

  // The end of a task that ran: a fifth of the average is the time it took for each
  // unit, which counts at least as much as the floor of its route.
  lemma ReleaseMovesAverage(cfg: Config, ws: seq<World>, acts: seq<Action>, k: nat, r: Route)
    requires ValidConfig(cfg) && IsRun(cfg, ws, acts) && k < |acts| && acts[k].ReleaseTask?
    ensures acts[k].i < |ws[k].tasks|
    ensures
      var p, p', t := Of(ws[k].st, r), Of(ws[k + 1].st, r), ws[k].tasks[acts[k].i];
      var floor := if r == Quality then cfg.qualityMinMs else 0.1;
      t.units > 0.0 &&
      if t.route == r && t.phase != Cancelled then
        var each := acts[k].elapsedMs / t.units;
        && p'.ewma == 0.8 * p.ewma + 0.2 * (if each < floor then floor else each)
        && p'.queueMs == p.queueMs + acts[k].queuedMs && p'.computeMs == p.computeMs + acts[k].elapsedMs
      else p'.ewma == p.ewma && p'.queueMs == p.queueMs && p'.computeMs == p.computeMs
  {
    assert StepsTo(cfg, ws[k], acts[k], ws[k + 1]);
  }

  // Nothing else moves an average: it starts as configured and is the mean of the ends alone.
  lemma OthersKeepAverage(cfg: Config, ws: seq<World>, acts: seq<Action>, k: nat, r: Route)
    requires ValidConfig(cfg) && IsRun(cfg, ws, acts) && k < |acts| && !acts[k].ReleaseTask?
    ensures ws[0].st.quality.ewma == cfg.qualityInitialMs && ws[0].st.spacy.ewma == cfg.spacyInitialMs
    ensures var p, p' := Of(ws[k].st, r), Of(ws[k + 1].st, r);
      p'.ewma == p.ewma && p'.queueMs == p.queueMs && p'.computeMs == p.computeMs
  {
    assert StepsTo(cfg, ws[k], acts[k], ws[k + 1]);
    if acts[k].SubmitTask? {
      var units := Units(cfg, acts[k].codepoints);
      SubmitKeepsWork(cfg, ws[k].st, units, Estimate(cfg, ws[k].st, Quality, units),
                      Budget(cfg, acts[k].now, acts[k].deadline), acts[k].now, acts[k].deadline);
    }
  }

  predicate SameWork(p: Pool, p': Pool) {
    && p'.ewma == p.ewma && p'.queueMs == p.queueMs && p'.computeMs == p.computeMs
    && p'.completed == p.completed && p'.errors == p.errors
  }

  // Before a place is taken, only the mode moves.
  lemma ModeAlone(cfg: Config, st: State, estimate: real, budget: real, now: real, deadline: Option<real>)
    ensures var st' := Routed(cfg, Switched(cfg, st, estimate, budget, now), estimate, budget, now, deadline).0;
      && st'.quality == st.quality && st'.spacy == st.spacy
      && st'.counts.cancelledBeforeCompute == st.counts.cancelledBeforeCompute
  {
  }

  lemma SubmitKeepsWork(cfg: Config, st: State, units: real, estimate: real, budget: real, now: real,
                        deadline: Option<real>)
    ensures var st' := AdmitWith(cfg, st, units, estimate, budget, now, deadline).0;
      && SameWork(st.quality, st'.quality) && SameWork(st.spacy, st'.spacy)
      && st'.counts.cancelledBeforeCompute == st.counts.cancelledBeforeCompute
  {
    ModeAlone(cfg, st, estimate, budget, now, deadline);
  }

  // What the other counters count.
  lemma CountersCount(cfg: Config, ws: seq<World>, acts: seq<Action>, k: nat, r: Route)
    requires ValidConfig(cfg) && IsRun(cfg, ws, acts) && k < |acts|
    ensures
      var st, st' := ws[k].st, ws[k + 1].st;
      var returned := acts[k].CompleteTask? && acts[k].i < |ws[k].tasks| && ws[k].tasks[acts[k].i].route == r;
      && Of(st', r).completed == Of(st, r).completed + (if returned then 1 else 0)
      && Of(st', r).errors == Of(st, r).errors + (if returned && acts[k].error then 1 else 0)
      && st'.counts.cancelledBeforeCompute
         == st.counts.cancelledBeforeCompute + (if acts[k].CancelTask? then 1 else 0)
  {
    assert StepsTo(cfg, ws[k], acts[k], ws[k + 1]);
    if acts[k].SubmitTask? {
      var units := Units(cfg, acts[k].codepoints);
      SubmitKeepsWork(cfg, ws[k].st, units, Estimate(cfg, ws[k].st, Quality, units),
                      Budget(cfg, acts[k].now, acts[k].deadline), acts[k].now, acts[k].deadline);
    }
  }
}
