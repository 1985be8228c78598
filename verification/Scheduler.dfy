/** Load-aware admission to the quality and the fast worker pool.

    Every region under the scheduler's lock is one function of its state; the class
    at the end has the fields and carries the regions out. Times are in seconds,
    durations and budgets in milliseconds, as reals. */
module Scheduler {
  import opened Wrappers

  datatype Route = Quality | Spacy

  datatype Backend = Adaptive | Fixed(route: Route)

  datatype Config = Config(
    backend: Backend,
    qualityWorkers: nat, spacyWorkers: nat, qualityQueue: nat, spacyQueue: nat,
    routingBudgetMs: real, qualityInitialMs: real, qualityMinMs: real, spacyInitialMs: real,
    recoveryHoldMs: real, qualityRecoveryPending: nat, recoveryRatio: real,
    maxChunkCodepoints: nat)

  // What the configuration's own checks guarantee.
  predicate ValidConfig(cfg: Config) {
    && cfg.qualityWorkers > 0 && cfg.spacyWorkers > 0 && cfg.maxChunkCodepoints > 0
    && cfg.routingBudgetMs > 0.0 && cfg.qualityInitialMs > 0.0 && cfg.qualityMinMs > 0.0
    && cfg.spacyInitialMs > 0.0 && cfg.recoveryHoldMs > 0.0
    && 0.0 < cfg.recoveryRatio < 1.0
    && cfg.qualityRecoveryPending < cfg.qualityWorkers + cfg.qualityQueue
  }

  function Workers(cfg: Config, r: Route): nat {
    if r.Quality? then cfg.qualityWorkers else cfg.spacyWorkers
  }

  function Capacity(cfg: Config, r: Route): nat {
    if r.Quality? then cfg.qualityWorkers + cfg.qualityQueue else cfg.spacyWorkers + cfg.spacyQueue
  }

  // The scheduler's record of one route.
  datatype Pool = Pool(
    pending: int, running: int, units: real, ewma: real,
    routed: int, completed: int, errors: int, queueMs: real, computeMs: real)

  datatype Counts = Counts(
    recoveries: int, degradations: int, rejected: int, cancelledBeforeCompute: int, reasons: multiset<Reason>)

  datatype State = State(
    closed: bool, degraded: bool, degradedUntil: real, quality: Pool, spacy: Pool, counts: Counts)

  function Of(st: State, r: Route): Pool {
    if r.Quality? then st.quality else st.spacy
  }

  function With(st: State, r: Route, p: Pool): State {
    if r.Quality? then st.(quality := p) else st.(spacy := p)
  }

  function Initial(cfg: Config): State {
    State(false, false, 0.0, Pool(0, 0, 0.0, cfg.qualityInitialMs, 0, 0, 0, 0.0, 0.0),
          Pool(0, 0, 0.0, cfg.spacyInitialMs, 0, 0, 0, 0.0, 0.0), Counts(0, 0, 0, 0, multiset{}))
  }

  function Max(a: real, b: real): real {
    if a < b then b else a
  }

  function Min(a: real, b: real): real {
    if b < a then b else a
  }

  function Units(cfg: Config, codepoints: nat): (u: real)
    requires ValidConfig(cfg)
    ensures u >= 0.25
  {
    Max(0.25, codepoints as real / cfg.maxChunkCodepoints as real)
  }

  function Estimate(cfg: Config, st: State, r: Route, units: real): real
    requires ValidConfig(cfg)
  {
    Of(st, r).ewma * (Of(st, r).units / Workers(cfg, r) as real + units)
  }

  // ----- admission

  datatype Reason = Normal | RecoveryProbe | QualityCapacity | QualityBudget | Hold | FastFullQualitySpare | FixedRoute

  datatype Decision = Reserved(route: Route, reason: Reason) | Exhausted | SchedulerClosed

  function Budget(cfg: Config, now: real, deadline: Option<real>): real {
    match deadline
    case None => cfg.routingBudgetMs
    case Some(d) => Min(cfg.routingBudgetMs, Max(0.0, (d - now) * 1000.0))
  }

  predicate Room(cfg: Config, st: State, r: Route) {
    Of(st, r).pending < Capacity(cfg, r)
  }

  // The quality pool can leave degraded mode: time, queue and estimate allow it.
  predicate Recovers(cfg: Config, st: State, estimate: real, budget: real, now: real) {
    && st.degraded && now >= st.degradedUntil
    && st.quality.pending <= cfg.qualityRecoveryPending
    && estimate <= budget * cfg.recoveryRatio
  }

  // The first two decisions of a submit: leave degraded mode, then enter it.
  function Switched(cfg: Config, st: State, estimate: real, budget: real, now: real): State {
    var st1 := if Recovers(cfg, st, estimate, budget, now)
               then st.(degraded := false, counts := st.counts.(recoveries := st.counts.recoveries + 1))
               else st;
    if !st1.degraded && (!Room(cfg, st, Quality) || estimate > budget)
    then st1.(degraded := true, degradedUntil := now + cfg.recoveryHoldMs / 1000.0,
              counts := st1.counts.(degradations := st1.counts.degradations + 1))
    else st1
  }

  predicate Probes(st: State, estimate: real, now: real, deadline: Option<real>) {
    && st.degraded && now >= st.degradedUntil && st.quality.pending == 0
    && (deadline.None? || estimate < (deadline.value - now) * 1000.0)
  }

  // The route of a submit to the adaptive backend, after the two decisions.
  function Routed(cfg: Config, st: State, estimate: real, budget: real, now: real, deadline: Option<real>)
    : (State, Route, Reason)
  {
    if !st.degraded then (st, Quality, Normal)
    else if Probes(st, estimate, now, deadline) then
      (st.(degradedUntil := now + cfg.recoveryHoldMs / 1000.0), Quality, RecoveryProbe)
    else if !Room(cfg, st, Spacy) && Room(cfg, st, Quality) && estimate <= budget then
      (st, Quality, FastFullQualitySpare)
    else
      (st, Spacy,
       if !Room(cfg, st, Quality) then QualityCapacity else if estimate > budget then QualityBudget else Hold)
  }

  function Reserve(st: State, r: Route, reason: Reason, units: real): State {
    var p := Of(st, r);
    var counted := st.(counts := st.counts.(reasons := st.counts.reasons + multiset{reason}));
    With(counted, r, p.(pending := p.pending + 1, units := p.units + units, routed := p.routed + 1))
  }

  // The locked region of `submit`, with the estimate for the quality route and the
  // budget worked out.
  function AdmitWith(cfg: Config, st: State, units: real, estimate: real, budget: real, now: real,
                     deadline: Option<real>): (State, Decision)
  {
    if st.closed then (st, SchedulerClosed)
    else
      var (st1, route, reason) :=
        if cfg.backend.Adaptive?
        then Routed(cfg, Switched(cfg, st, estimate, budget, now), estimate, budget, now, deadline)
        else (st, cfg.backend.route, FixedRoute);
      if !Room(cfg, st1, route) then
        (st1.(counts := st1.counts.(rejected := st1.counts.rejected + 1)), Exhausted)
      else
        (Reserve(st1, route, reason, units), Reserved(route, reason))
  }

  function Admit(cfg: Config, st: State, units: real, now: real, deadline: Option<real>): (State, Decision)
    requires ValidConfig(cfg)
  {
    AdmitWith(cfg, st, units, Estimate(cfg, st, Quality, units), Budget(cfg, now, deadline), now, deadline)
  }

  // ----- the other locked regions

  // Giving a reservation back: after a rejection by the pool, and at the end of a task.
  function Refund(st: State, r: Route, units: real): State {
    var p := Of(st, r);
    With(st, r, p.(pending := p.pending - 1, units := Max(0.0, p.units - units)))
  }

  function Begin(st: State, r: Route): State {
    With(st, r, Of(st, r).(running := Of(st, r).running + 1))
  }

  function Cancel(st: State): State {
    st.(counts := st.counts.(cancelledBeforeCompute := st.counts.cancelledBeforeCompute + 1))
  }

  function Complete(st: State, r: Route, error: bool): State {
    var p := Of(st, r);
    With(st, r, p.(completed := p.completed + 1, errors := if error then p.errors + 1 else p.errors))
  }

  function Sample(cfg: Config, r: Route, elapsedMs: real, units: real): real
    requires units > 0.0
  {
    Max(if r.Quality? then cfg.qualityMinMs else 0.1, elapsedMs / units)
  }

  // The `finally` block of a task.
  function Release(cfg: Config, st: State, r: Route, units: real, ran: bool, queuedMs: real, elapsedMs: real): State
    requires units > 0.0
  {
    var st1 := Refund(st, r, units);
    if !ran then st1
    else
      var p := Of(st1, r);
      With(st1, r, p.(running := p.running - 1,
                      ewma := 0.8 * p.ewma + 0.2 * Sample(cfg, r, elapsedMs, units),
                      queueMs := p.queueMs + queuedMs, computeMs := p.computeMs + elapsedMs))
  }

  // ----- the scheduler

  class AdaptiveScheduler {
    const config: Config
    var closed: bool
    var degraded: bool
    var degradedUntil: real
    var pools: map<Route, Pool>
    var counts: Counts

    ghost predicate Valid()
      reads this
    {
      ValidConfig(config) && forall r: Route :: r in pools
    }

    function Abs(): State
      reads this
      requires Valid()
    {
      State(closed, degraded, degradedUntil, pools[Quality], pools[Spacy], counts)
    }

    constructor (config: Config)
      requires ValidConfig(config)
      ensures Valid() && this.config == config && Abs() == Initial(config)
    {
      this.config := config;
      closed := false;
      degraded := false;
      degradedUntil := 0.0;
      pools := map[Quality := Pool(0, 0, 0.0, config.qualityInitialMs, 0, 0, 0, 0.0, 0.0),
                   Spacy := Pool(0, 0, 0.0, config.spacyInitialMs, 0, 0, 0, 0.0, 0.0)];
      counts := Counts(0, 0, 0, 0, multiset{});
      new;
      forall r: Route ensures r in pools {
        match r { case Quality => case Spacy => }
      }
    }

    function EstimateFor(route: Route, units: real): real
      reads this
      requires Valid()
    {
      pools[route].ewma * (pools[route].units / Workers(config, route) as real + units)
    }

    // What `submit` does under the lock.
    method Submit(units: real, now: real, deadline: Option<real>) returns (decision: Decision)
      requires Valid()
      modifies this
      ensures Valid() && (Abs(), decision) == Admit(config, old(Abs()), units, now, deadline)
      ensures decision == Reserved(Quality, Normal) ==>
        var p := old(pools[Quality]);
        var load := p.ewma * (p.units / config.qualityWorkers as real + units);
        && load <= config.routingBudgetMs
        && (deadline.Some? && now < deadline.value ==> load <= (deadline.value - now) * 1000.0)
    {
      var estimate := EstimateFor(Quality, units);
      assert estimate == Estimate(config, Abs(), Quality, units);
      decision := Decide(units, estimate, Budget(config, now, deadline), now, deadline);
    }

    method Decide(units: real, estimate: real, budget: real, now: real, deadline: Option<real>)
      returns (decision: Decision)
      requires Valid()
      modifies this
      ensures Valid()
      ensures (Abs(), decision) == AdmitWith(config, old(Abs()), units, estimate, budget, now, deadline)
    {
      if closed {
        return SchedulerClosed;
      }
      var route, reason := Quality, FixedRoute;
      if config.backend.Adaptive? {
        SwitchMode(estimate, budget, now);
        route, reason := ChooseRoute(estimate, budget, now, deadline);
      } else {
        route := config.backend.route;
      }
      if pools[route].pending >= Capacity(config, route) {
        counts := counts.(rejected := counts.rejected + 1);
        return Exhausted;
      }
      TakePlace(route, reason, units);
      return Reserved(route, reason);
    }

    method TakePlace(route: Route, reason: Reason, units: real)
      requires Valid()
      modifies `pools, `counts
      ensures Valid() && Abs() == Reserve(old(Abs()), route, reason, units)
    {
      var p := pools[route];
      pools := pools[route := p.(pending := p.pending + 1, units := p.units + units, routed := p.routed + 1)];
      counts := counts.(reasons := counts.reasons + multiset{reason});
    }

    method SwitchMode(estimate: real, budget: real, now: real)
      requires Valid()
      modifies `degraded, `degradedUntil, `counts
      ensures Valid() && Abs() == Switched(config, old(Abs()), estimate, budget, now)
    {
      var qualityRoom := pools[Quality].pending < Capacity(config, Quality);
      var qualityBudget := estimate <= budget;
      if degraded && now >= degradedUntil && pools[Quality].pending <= config.qualityRecoveryPending
         && estimate <= budget * config.recoveryRatio
      {
        degraded := false;
        counts := counts.(recoveries := counts.recoveries + 1);
      }
      if !degraded && (!qualityRoom || !qualityBudget) {
        degraded := true;
        degradedUntil := now + config.recoveryHoldMs / 1000.0;
        counts := counts.(degradations := counts.degradations + 1);
      }
    }

    method ChooseRoute(estimate: real, budget: real, now: real, deadline: Option<real>)
      returns (route: Route, reason: Reason)
      requires Valid()
      modifies `degradedUntil
      ensures Valid() && (Abs(), route, reason) == Routed(config, old(Abs()), estimate, budget, now, deadline)
    {
      var qualityRoom := pools[Quality].pending < Capacity(config, Quality);
      var qualityBudget := estimate <= budget;
      var probe := degraded && now >= degradedUntil && pools[Quality].pending == 0
        && (deadline.None? || estimate < (deadline.value - now) * 1000.0);
      if !degraded {
        route, reason := Quality, Normal;
      } else if probe {
        route, reason := Quality, RecoveryProbe;
        degradedUntil := now + config.recoveryHoldMs / 1000.0;
      } else {
        route := Spacy;
        reason := if !qualityRoom then QualityCapacity else if !qualityBudget then QualityBudget else Hold;
        if pools[route].pending >= Capacity(config, route) && qualityRoom && qualityBudget {
          route, reason := Quality, FastFullQualitySpare;
        }
      }
    }

    method GiveBack(route: Route, units: real)
      requires Valid()
      modifies `pools
      ensures Valid() && Abs() == Refund(old(Abs()), route, units)
    {
      var p := pools[route];
      pools := pools[route := p.(pending := p.pending - 1, units := Max(0.0, p.units - units))];
    }

    method Started(route: Route)
      requires Valid()
      modifies `pools
      ensures Valid() && Abs() == Begin(old(Abs()), route)
    {
      pools := pools[route := pools[route].(running := pools[route].running + 1)];
    }

    method CancelledBeforeCompute()
      requires Valid()
      modifies `counts
      ensures Valid() && Abs() == Cancel(old(Abs()))
    {
      counts := counts.(cancelledBeforeCompute := counts.cancelledBeforeCompute + 1);
    }

    method Completed(route: Route, error: bool)
      requires Valid()
      modifies `pools
      ensures Valid() && Abs() == Complete(old(Abs()), route, error)
    {
      var p := pools[route];
      pools := pools[route := p.(completed := p.completed + 1)];
      if error {
        pools := pools[route := pools[route].(errors := p.errors + 1)];
      }
    }

    method Finished(route: Route, units: real, ran: bool, queuedMs: real, elapsedMs: real)
      requires Valid() && units > 0.0
      modifies `pools
      ensures Valid() && Abs() == Release(config, old(Abs()), route, units, ran, queuedMs, elapsedMs)
    {
      GiveBack(route, units);
      if ran {
        var floor := if route == Quality then config.qualityMinMs else 0.1;
        var sample := Max(floor, elapsedMs / units);
        var p := pools[route];
        pools := pools[route := p.(running := p.running - 1, ewma := 0.8 * p.ewma + 0.2 * sample,
                               queueMs := p.queueMs + queuedMs, computeMs := p.computeMs + elapsedMs)];
      }
    }

    method Close()
      requires Valid()
      modifies `closed
      ensures Valid() && Abs() == old(Abs()).(closed := true)
    {
      closed := true;
    }
  }

  // ----- admission is sound

  lemma ScaledDown(b: real, ratio: real)
    requires b >= 0.0 && 0.0 < ratio < 1.0
    ensures b * ratio <= b
  {
  }

  // Leaving degraded mode is never followed by entering it in the same submit.
  lemma RecoveryHolds(cfg: Config, st: State, estimate: real, budget: real, now: real)
    requires ValidConfig(cfg) && budget >= 0.0 && Recovers(cfg, st, estimate, budget, now)
    ensures !Switched(cfg, st, estimate, budget, now).degraded
    ensures Room(cfg, st, Quality) && estimate <= budget
  {
    ScaledDown(budget, cfg.recoveryRatio);
  }

  // The submit passes the first decision: degraded mode is over, if it was on.
  predicate OutOfDegraded(cfg: Config, st: State, estimate: real, budget: real, now: real) {
    !st.degraded || Recovers(cfg, st, estimate, budget, now)
  }

  // When a submit gets the route and the reason it gets, on entry to the region.
  predicate Deserves(cfg: Config, st: State, estimate: real, budget: real, now: real, deadline: Option<real>,
                     d: Decision)
    requires d.Reserved?
  {
    var fits := Room(cfg, st, Quality) && estimate <= budget;
    var due := st.degraded && !Recovers(cfg, st, estimate, budget, now) && Probes(st, estimate, now, deadline);
    match d.reason
    case FixedRoute => cfg.backend == Fixed(d.route)
    case Normal => d.route == Quality && fits && OutOfDegraded(cfg, st, estimate, budget, now)
    case RecoveryProbe => d.route == Quality && due
    case FastFullQualitySpare =>
      d.route == Quality && fits && !Room(cfg, st, Spacy) && !OutOfDegraded(cfg, st, estimate, budget, now) && !due
    case QualityCapacity => d.route == Spacy && !Room(cfg, st, Quality) && !due
    case QualityBudget => d.route == Spacy && Room(cfg, st, Quality) && estimate > budget && !due
    case Hold =>
      d.route == Spacy && fits && !OutOfDegraded(cfg, st, estimate, budget, now) && !due
  }

  // Admission is sound: the route has room, and the reason given is true. A probe is
  // due: the hold is over, quality is idle, and the estimate is below the deadline.
  lemma AdmissionIsSound(cfg: Config, st: State, units: real, estimate: real, budget: real, now: real,
                         deadline: Option<real>)
    requires ValidConfig(cfg) && budget >= 0.0
    requires AdmitWith(cfg, st, units, estimate, budget, now, deadline).1.Reserved?
    ensures var (st', d) := AdmitWith(cfg, st, units, estimate, budget, now, deadline);
      && Room(cfg, st, d.route) && Deserves(cfg, st, estimate, budget, now, deadline, d)
      && (d.reason == RecoveryProbe ==>
            && now >= st.degradedUntil && st.quality.pending == 0
            && (deadline.Some? ==> estimate < (deadline.value - now) * 1000.0)
            && st'.degradedUntil == now + cfg.recoveryHoldMs / 1000.0)
      && (cfg.backend.Adaptive? ==> (st'.degraded <==> d.reason != Normal))
  {
    if Recovers(cfg, st, estimate, budget, now) {
      RecoveryHolds(cfg, st, estimate, budget, now);
    }
  }

  // No two reasons are deserved at once: the reason says exactly what was found.
  lemma ReasonIsExact(cfg: Config, st: State, estimate: real, budget: real, now: real, deadline: Option<real>,
                      d: Decision, e: Decision)
    requires ValidConfig(cfg) && cfg.backend.Adaptive? && budget >= 0.0 && d.Reserved? && e.Reserved?
    requires Room(cfg, st, d.route) && Room(cfg, st, e.route)
    requires Deserves(cfg, st, estimate, budget, now, deadline, d)
    requires Deserves(cfg, st, estimate, budget, now, deadline, e)
    ensures d == e
  {
    if Recovers(cfg, st, estimate, budget, now) {
      RecoveryHolds(cfg, st, estimate, budget, now);
    }
  }

  // A submit is turned away for capacity exactly when no pool it may use has room:
  // the fast pool is full, and quality is full or too slow and not to be probed.
  lemma RejectedExactlyWhenFull(cfg: Config, st: State, units: real, estimate: real, budget: real, now: real,
                                deadline: Option<real>)
    requires ValidConfig(cfg) && !st.closed && budget >= 0.0
    ensures AdmitWith(cfg, st, units, estimate, budget, now, deadline).1 == Exhausted <==>
      match cfg.backend
      case Fixed(r) => !Room(cfg, st, r)
      case Adaptive =>
        && !Room(cfg, st, Spacy)
        && (!Room(cfg, st, Quality) || estimate > budget)
        && !Probes(Switched(cfg, st, estimate, budget, now), estimate, now, deadline)
  {
    if Recovers(cfg, st, estimate, budget, now) {
      RecoveryHolds(cfg, st, estimate, budget, now);
    }
  }

  // Degraded mode starts exactly when quality lacks room or time, ends exactly on a
  // recovery, and the two counters tell whether it is on.
  lemma ModeSwitches(cfg: Config, st: State, units: real, estimate: real, budget: real, now: real,
                     deadline: Option<real>)
    requires ValidConfig(cfg) && cfg.backend.Adaptive? && !st.closed && budget >= 0.0
    ensures var st' := AdmitWith(cfg, st, units, estimate, budget, now, deadline).0;
      && (st'.degraded <==>
            if st.degraded then !Recovers(cfg, st, estimate, budget, now)
            else !Room(cfg, st, Quality) || estimate > budget)
      && st'.counts.degradations - st'.counts.recoveries - (if st'.degraded then 1 else 0)
           == st.counts.degradations - st.counts.recoveries - (if st.degraded then 1 else 0)
  {
    if Recovers(cfg, st, estimate, budget, now) {
      RecoveryHolds(cfg, st, estimate, budget, now);
    }
  }

  lemma BudgetIsNotNegative(cfg: Config, now: real, deadline: Option<real>)
    requires ValidConfig(cfg)
    ensures 0.0 <= Budget(cfg, now, deadline) <= cfg.routingBudgetMs
  {
  }
}
