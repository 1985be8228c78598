/** Whole runs of the scheduler: reservations are conserved, and degraded mode keeps
    its distances.

    A task passes its locked regions one by one, and the regions of different tasks
    interleave freely. Accepting, rejecting, starting and ending are the moves of the
    thread pools and of the clients. */
module SchedulerRuns {
  import opened Wrappers
  import opened Scheduler

  // Where a task is. `Cancelled` and `Ran` are past the work and before the release.
  datatype Phase = Admitted | Queued | Running | Ran | Cancelled | Gone

  datatype Task = Task(route: Route, units: real, phase: Phase)

  // `shut` are the pools told to shut down; `drained` says that `close` has returned.
  datatype World = World(st: State, tasks: seq<Task>, shut: set<Route>, drained: bool)

  datatype Action =
    | SubmitTask(codepoints: nat, now: real, deadline: Option<real>)
    | Accept(i: nat)                    // the pool takes the task
    | Reject(i: nat)                    // the pool is shut: the reservation is refunded
    | CancelTask(i: nat)                // dequeued, but no longer wanted
    | StartTask(i: nat)
    | CompleteTask(i: nat, error: bool) // the function returned
    | ReleaseTask(i: nat, queuedMs: real, elapsedMs: real)  // also when the function raised
    | CloseScheduler
    | ShutPool(route: Route)
    | Drain                             // both pools have waited for their tasks

  function Start(cfg: Config): World {
    World(Initial(cfg), [], {}, false)
  }

  predicate InPhase(w: World, i: nat, p: Phase) {
    i < |w.tasks| && w.tasks[i].phase == p
  }

  ghost predicate Enabled(w: World, a: Action) {
    match a
    case SubmitTask(_, now, deadline) => deadline.Some? ==> now < deadline.value
    case Accept(i) => InPhase(w, i, Admitted) && w.tasks[i].route !in w.shut
    case Reject(i) => InPhase(w, i, Admitted) && w.tasks[i].route in w.shut
    case CancelTask(i) => InPhase(w, i, Queued)
    case StartTask(i) => InPhase(w, i, Queued)
    case CompleteTask(i, _) => InPhase(w, i, Running)
    case ReleaseTask(i, _, elapsed) =>
      elapsed >= 0.0 && (InPhase(w, i, Running) || InPhase(w, i, Ran) || InPhase(w, i, Cancelled))
    case CloseScheduler => true
    case ShutPool(_) => w.st.closed
    case Drain => w.shut == {Quality, Spacy} && forall i :: 0 <= i < |w.tasks| ==> w.tasks[i].phase in {Admitted, Gone}
  }

  function Move(w: World, i: nat, p: Phase, st: State): World
    requires i < |w.tasks|
  {
    w.(st := st, tasks := w.tasks[i := w.tasks[i].(phase := p)])
  }

  ghost function Step(cfg: Config, w: World, a: Action): World
    requires ValidConfig(cfg) && Enabled(w, a)
    requires forall i :: 0 <= i < |w.tasks| ==> w.tasks[i].units > 0.0
  {
    match a
    case SubmitTask(codepoints, now, deadline) =>
      var units := Units(cfg, codepoints);
      var (st, d) := Admit(cfg, w.st, units, now, deadline);
      if d.Reserved? then w.(st := st, tasks := w.tasks + [Task(d.route, units, Admitted)]) else w.(st := st)
    case Accept(i) => Move(w, i, Queued, w.st)
    case Reject(i) => Move(w, i, Gone, Refund(w.st, w.tasks[i].route, w.tasks[i].units))
    case CancelTask(i) => Move(w, i, Cancelled, Cancel(w.st))
    case StartTask(i) => Move(w, i, Running, Begin(w.st, w.tasks[i].route))
    case CompleteTask(i, error) => Move(w, i, Ran, Complete(w.st, w.tasks[i].route, error))
    case ReleaseTask(i, queued, elapsed) =>
      var t := w.tasks[i];
      Move(w, i, Gone, Release(cfg, w.st, t.route, t.units, t.phase != Cancelled, queued, elapsed))
    case CloseScheduler => w.(st := w.st.(closed := true))
    case ShutPool(r) => w.(shut := w.shut + {r})
    case Drain => w.(drained := true)
  }

  // ----- what the outstanding tasks of a route add up to

  function Here(t: Task, r: Route): int {
    if t.route == r && t.phase != Gone then 1 else 0
  }

  function Busy(t: Task, r: Route): int {
    if t.route == r && (t.phase == Running || t.phase == Ran) then 1 else 0
  }

  function Load(t: Task, r: Route): real {
    if t.route == r && t.phase != Gone then t.units else 0.0
  }

  function CountHere(ts: seq<Task>, r: Route): int {
    if ts == [] then 0 else CountHere(ts[..|ts| - 1], r) + Here(ts[|ts| - 1], r)
  }

  function CountBusy(ts: seq<Task>, r: Route): int {
    if ts == [] then 0 else CountBusy(ts[..|ts| - 1], r) + Busy(ts[|ts| - 1], r)
  }

  function SumLoad(ts: seq<Task>, r: Route): real {
    if ts == [] then 0.0 else SumLoad(ts[..|ts| - 1], r) + Load(ts[|ts| - 1], r)
  }

  lemma {:induction false} SumsOfUpdate(ts: seq<Task>, i: nat, t: Task, r: Route)
    requires i < |ts|
    ensures CountHere(ts[i := t], r) == CountHere(ts, r) - Here(ts[i], r) + Here(t, r)
    ensures CountBusy(ts[i := t], r) == CountBusy(ts, r) - Busy(ts[i], r) + Busy(t, r)
    ensures SumLoad(ts[i := t], r) == SumLoad(ts, r) - Load(ts[i], r) + Load(t, r)
    decreases |ts|
  {
    var n := |ts| - 1;
    if i == n {
      assert ts[i := t][..n] == ts[..n];
    } else {
      assert ts[i := t][..n] == ts[..n][i := t];
      SumsOfUpdate(ts[..n], i, t, r);
    }
  }

  lemma SumsOfSnoc(ts: seq<Task>, t: Task, r: Route)
    ensures CountHere(ts + [t], r) == CountHere(ts, r) + Here(t, r)
    ensures CountBusy(ts + [t], r) == CountBusy(ts, r) + Busy(t, r)
    ensures SumLoad(ts + [t], r) == SumLoad(ts, r) + Load(t, r)
  {
    assert (ts + [t])[..|ts|] == ts;
  }

  lemma {:induction false} SumsAreOrdered(ts: seq<Task>, r: Route)
    requires forall i :: 0 <= i < |ts| ==> ts[i].units > 0.0
    ensures 0 <= CountBusy(ts, r) <= CountHere(ts, r)
    ensures SumLoad(ts, r) >= 0.0
    ensures CountHere(ts, r) == 0 ==> SumLoad(ts, r) == 0.0
    ensures CountHere(ts, r) == 0 <==> forall i :: 0 <= i < |ts| ==> Here(ts[i], r) == 0
  {
    if ts != [] {
      var init := ts[..|ts| - 1];
      SumsAreOrdered(init, r);
      assert forall i :: 0 <= i < |init| ==> init[i] == ts[i];
    }
  }

  lemma {:induction false} LoadIsAtLeast(ts: seq<Task>, i: nat, r: Route)
    requires forall k :: 0 <= k < |ts| ==> ts[k].units > 0.0
    requires i < |ts| && Here(ts[i], r) == 1
    ensures SumLoad(ts, r) >= ts[i].units
    decreases |ts|
  {
    var n := |ts| - 1;
    SumsAreOrdered(ts[..n], r);
    if i < n {
      LoadIsAtLeast(ts[..n], i, r);
    }
  }

  // ----- reservations are conserved

  ghost predicate Balanced(cfg: Config, w: World, r: Route) {
    var p := Of(w.st, r);
    && p.pending == CountHere(w.tasks, r) && p.running == CountBusy(w.tasks, r)
    && p.units == SumLoad(w.tasks, r)
    && p.pending <= Capacity(cfg, r)
  }

  ghost predicate Inv(cfg: Config, w: World) {
    && (forall i :: 0 <= i < |w.tasks| ==> w.tasks[i].units > 0.0)
    && Balanced(cfg, w, Quality) && Balanced(cfg, w, Spacy)
    && Episodes(w.st) == InEpisode(w.st)
    && (w.shut != {} ==> w.st.closed)
    && (w.drained ==>
          w.shut == {Quality, Spacy}
          && forall i :: 0 <= i < |w.tasks| ==> w.tasks[i].phase in {Admitted, Gone})
  }

  lemma SubmitKeepsInv(cfg: Config, w: World, a: Action)
    requires ValidConfig(cfg) && Inv(cfg, w) && Enabled(w, a) && a.SubmitTask?
    ensures Inv(cfg, Step(cfg, w, a))
  {
    var units := Units(cfg, a.codepoints);
    var estimate, budget := Estimate(cfg, w.st, Quality, units), Budget(cfg, a.now, a.deadline);
    BudgetIsNotNegative(cfg, a.now, a.deadline);
    AdmitKeepsInv(cfg, w, units, estimate, budget, a.now, a.deadline);
  }

  lemma AdmitKeepsInv(cfg: Config, w: World, units: real, estimate: real, budget: real, now: real,
                      deadline: Option<real>)
    requires ValidConfig(cfg) && Inv(cfg, w) && units > 0.0 && budget >= 0.0
    ensures var (st, d) := AdmitWith(cfg, w.st, units, estimate, budget, now, deadline);
      Inv(cfg, if d.Reserved? then w.(st := st, tasks := w.tasks + [Task(d.route, units, Admitted)]) else w.(st := st))
  {
    AdmitEffect(cfg, w.st, units, estimate, budget, now, deadline);
    var (st, d) := AdmitWith(cfg, w.st, units, estimate, budget, now, deadline);
    if d.Reserved? {
      JoinKeepsInv(cfg, w, units, d.route, st);
    }
  }

  predicate Joined(p: Pool, p': Pool, capacity: int, units: real) {
    p'.pending == p.pending + 1 <= capacity && p'.running == p.running && p'.units == p.units + units
  }

  // What admission does to the reservations and to the count of episodes.
  lemma AdmitEffect(cfg: Config, st: State, units: real, estimate: real, budget: real, now: real,
                    deadline: Option<real>)
    requires ValidConfig(cfg) && budget >= 0.0
    ensures var (st', d) := AdmitWith(cfg, st, units, estimate, budget, now, deadline);
      && st'.closed == st.closed
      && Episodes(st') - Episodes(st) == InEpisode(st') - InEpisode(st)
      && (if d.Reserved? && d.route == Quality
          then Joined(st.quality, st'.quality, Capacity(cfg, Quality), units) else st'.quality == st.quality)
      && (if d.Reserved? && d.route == Spacy
          then Joined(st.spacy, st'.spacy, Capacity(cfg, Spacy), units) else st'.spacy == st.spacy)
  {
    if !st.closed && cfg.backend.Adaptive? {
      ModeSwitches(cfg, st, units, estimate, budget, now, deadline);
    }
  }

  function Episodes(st: State): int {
    st.counts.degradations - st.counts.recoveries
  }

  function InEpisode(st: State): int {
    if st.degraded then 1 else 0
  }

  lemma JoinKeepsInv(cfg: Config, w: World, units: real, r: Route, st: State)
    requires Inv(cfg, w) && units > 0.0
    requires st.closed == w.st.closed && Episodes(st) == InEpisode(st)
    requires Joined(Of(w.st, r), Of(st, r), Capacity(cfg, r), units)
    requires forall q: Route :: q != r ==> Of(st, q) == Of(w.st, q)
    ensures Inv(cfg, w.(st := st, tasks := w.tasks + [Task(r, units, Admitted)]))
  {
    SumsOfSnoc(w.tasks, Task(r, units, Admitted), Quality);
    SumsOfSnoc(w.tasks, Task(r, units, Admitted), Spacy);
    assert Quality != r ==> Of(st, Quality) == Of(w.st, Quality);
    assert Spacy != r ==> Of(st, Spacy) == Of(w.st, Spacy);
  }

  // How the record of route `r` follows a task that changes from `t` to `t'`.
  predicate Follows(p: Pool, p': Pool, t: Task, t': Task, r: Route) {
    && p'.pending == p.pending - Here(t, r) + Here(t', r)
    && p'.running == p.running - Busy(t, r) + Busy(t', r)
    && p'.units == p.units - Load(t, r) + Load(t', r)
  }

  lemma MoveKeepsInv(cfg: Config, w: World, i: nat, p: Phase, st: State)
    requires Inv(cfg, w) && i < |w.tasks| && p != Admitted && !w.tasks[i].phase.Gone?
    requires w.drained ==> p == Gone
    requires st.closed == w.st.closed && st.degraded == w.st.degraded
    requires st.counts.degradations == w.st.counts.degradations && st.counts.recoveries == w.st.counts.recoveries
    requires var t' := w.tasks[i].(phase := p);
      && Follows(w.st.quality, st.quality, w.tasks[i], t', Quality)
      && Follows(w.st.spacy, st.spacy, w.tasks[i], t', Spacy)
    ensures Inv(cfg, Move(w, i, p, st))
  {
    var t' := w.tasks[i].(phase := p);
    SumsOfUpdate(w.tasks, i, t', Quality);
    SumsOfUpdate(w.tasks, i, t', Spacy);
  }

  // The clamp at zero never bites: what is given back was reserved.
  lemma RefundEffect(cfg: Config, w: World, i: nat)
    requires Inv(cfg, w) && i < |w.tasks| && !w.tasks[i].phase.Gone?
    ensures var t := w.tasks[i];
      Of(w.st, t.route).units >= t.units
  {
    LoadIsAtLeast(w.tasks, i, w.tasks[i].route);
  }

  lemma ReleaseEffect(cfg: Config, st: State, r: Route, units: real, ran: bool, queued: real, elapsed: real)
    requires units > 0.0
    ensures var st' := Release(cfg, st, r, units, ran, queued, elapsed);
      && Of(st', r).pending == Of(st, r).pending - 1
      && Of(st', r).units == Max(0.0, Of(st, r).units - units)
      && Of(st', r).running == Of(st, r).running - (if ran then 1 else 0)
      && st' == With(st, r, Of(st', r))
  {
  }

  lemma WaitStepKeepsInv(cfg: Config, w: World, a: Action)
    requires ValidConfig(cfg) && Inv(cfg, w) && Enabled(w, a) && (a.Accept? || a.CancelTask?)
    ensures Inv(cfg, Step(cfg, w, a))
  {
    var t := w.tasks[a.i];
    assert t.route == Quality || t.route == Spacy;
    match a {
      case Accept(i) => MoveKeepsInv(cfg, w, i, Queued, w.st);
      case CancelTask(i) => MoveKeepsInv(cfg, w, i, Cancelled, Cancel(w.st));
    }
  }

  lemma StartKeepsInv(cfg: Config, w: World, i: nat)
    requires ValidConfig(cfg) && Inv(cfg, w) && InPhase(w, i, Queued)
    ensures Inv(cfg, Move(w, i, Running, Begin(w.st, w.tasks[i].route)))
  {
    assert w.tasks[i].route == Quality || w.tasks[i].route == Spacy;
    MoveKeepsInv(cfg, w, i, Running, Begin(w.st, w.tasks[i].route));
  }

  lemma CompleteKeepsInv(cfg: Config, w: World, i: nat, error: bool)
    requires ValidConfig(cfg) && Inv(cfg, w) && InPhase(w, i, Running)
    ensures Inv(cfg, Move(w, i, Ran, Complete(w.st, w.tasks[i].route, error)))
  {
    assert w.tasks[i].route == Quality || w.tasks[i].route == Spacy;
    MoveKeepsInv(cfg, w, i, Ran, Complete(w.st, w.tasks[i].route, error));
  }

  lemma WorkStepKeepsInv(cfg: Config, w: World, a: Action)
    requires ValidConfig(cfg) && Inv(cfg, w) && Enabled(w, a) && (a.StartTask? || a.CompleteTask?)
    ensures Inv(cfg, Step(cfg, w, a))
  {
    match a {
      case StartTask(i) => StartKeepsInv(cfg, w, i);
      case CompleteTask(i, error) => CompleteKeepsInv(cfg, w, i, error);
    }
  }

  lemma RejectKeepsInv(cfg: Config, w: World, a: Action)
    requires ValidConfig(cfg) && Inv(cfg, w) && Enabled(w, a) && a.Reject?
    ensures Inv(cfg, Step(cfg, w, a))
  {
    RefundEffect(cfg, w, a.i);
    MoveKeepsInv(cfg, w, a.i, Gone, Refund(w.st, w.tasks[a.i].route, w.tasks[a.i].units));
  }

  lemma ReleaseKeepsInv(cfg: Config, w: World, a: Action)
    requires ValidConfig(cfg) && Inv(cfg, w) && Enabled(w, a) && a.ReleaseTask?
    ensures Inv(cfg, Step(cfg, w, a))
  {
    var t := w.tasks[a.i];
    ReleaseEffect(cfg, w.st, t.route, t.units, t.phase != Cancelled, a.queuedMs, a.elapsedMs);
    FreedKeepsInv(cfg, w, a.i, Release(cfg, w.st, t.route, t.units, t.phase != Cancelled, a.queuedMs, a.elapsedMs));
  }

  lemma FreedKeepsInv(cfg: Config, w: World, i: nat, st: State)
    requires Inv(cfg, w) && i < |w.tasks|
    requires w.tasks[i].phase in {Running, Ran, Cancelled}
    requires var t := w.tasks[i];
      && Of(st, t.route).pending == Of(w.st, t.route).pending - 1
      && Of(st, t.route).units == Max(0.0, Of(w.st, t.route).units - t.units)
      && Of(st, t.route).running == Of(w.st, t.route).running - (if t.phase != Cancelled then 1 else 0)
      && st == With(w.st, t.route, Of(st, t.route))
    ensures Inv(cfg, Move(w, i, Gone, st))
  {
    RefundEffect(cfg, w, i);
    MoveKeepsInv(cfg, w, i, Gone, st);
  }

  lemma StepKeepsInv(cfg: Config, w: World, a: Action)
    requires ValidConfig(cfg) && Inv(cfg, w) && Enabled(w, a)
    ensures Inv(cfg, Step(cfg, w, a))
  {
    match a {
      case SubmitTask(_, _, _) => SubmitKeepsInv(cfg, w, a);
      case Reject(_) => RejectKeepsInv(cfg, w, a);
      case ReleaseTask(_, _, _) => ReleaseKeepsInv(cfg, w, a);
      case CloseScheduler =>
      case Drain =>
      case ShutPool(r) => assert r == Quality || r == Spacy;
      case Accept(_) => WaitStepKeepsInv(cfg, w, a);
      case CancelTask(_) => WaitStepKeepsInv(cfg, w, a);
      case StartTask(_) => WorkStepKeepsInv(cfg, w, a);
      case CompleteTask(_, _) => WorkStepKeepsInv(cfg, w, a);
    }
  }

  // ----- over whole runs

  ghost predicate StepsTo(cfg: Config, w: World, a: Action, w': World)
    requires ValidConfig(cfg)
  {
    Enabled(w, a) && (forall i :: 0 <= i < |w.tasks| ==> w.tasks[i].units > 0.0) && w' == Step(cfg, w, a)
  }

  ghost predicate IsRun(cfg: Config, ws: seq<World>, acts: seq<Action>)
    requires ValidConfig(cfg)
  {
    && |ws| == |acts| + 1 && ws[0] == Start(cfg)
    && forall k :: 0 <= k < |acts| ==> StepsTo(cfg, ws[k], acts[k], ws[k + 1])
  }

  lemma {:induction false} InvAlways(cfg: Config, ws: seq<World>, acts: seq<Action>, k: nat)
    requires ValidConfig(cfg) && IsRun(cfg, ws, acts) && k < |ws|
    ensures Inv(cfg, ws[k])
  {
    if k > 0 {
      InvAlways(cfg, ws, acts, k - 1);
      assert StepsTo(cfg, ws[k - 1], acts[k - 1], ws[k]);
      StepKeepsInv(cfg, ws[k - 1], acts[k - 1]);
    }
  }

  // At every moment of every run: running work is part of the pending work, which
  // fits the pool; the reserved units are exactly those of the outstanding tasks;
  // and the counters tell whether the mode is degraded.
  lemma ReservationsAreConserved(cfg: Config, ws: seq<World>, acts: seq<Action>, k: nat, r: Route)
    requires ValidConfig(cfg) && IsRun(cfg, ws, acts) && k < |ws|
    ensures var w := ws[k];
      && 0 <= Of(w.st, r).running <= Of(w.st, r).pending <= Capacity(cfg, r)
      && Of(w.st, r).pending == CountHere(w.tasks, r)
      && Of(w.st, r).units == SumLoad(w.tasks, r) >= 0.0
      && w.st.counts.degradations - w.st.counts.recoveries == (if w.st.degraded then 1 else 0)
  {
    InvAlways(cfg, ws, acts, k);
    SumsAreOrdered(ws[k].tasks, r);
  }

  // Once `close` has returned and every submit with it, nothing is reserved.
  lemma NothingReservedAfterClose(cfg: Config, ws: seq<World>, acts: seq<Action>, k: nat, r: Route)
    requires ValidConfig(cfg) && IsRun(cfg, ws, acts) && k < |ws|
    requires ws[k].drained && forall i :: 0 <= i < |ws[k].tasks| ==> ws[k].tasks[i].phase != Admitted
    ensures Of(ws[k].st, r).pending == 0 && Of(ws[k].st, r).running == 0 && Of(ws[k].st, r).units == 0.0
  {
    InvAlways(cfg, ws, acts, k);
    SumsAreOrdered(ws[k].tasks, r);
  }

  // ----- distances in degraded mode

  // A submit that starts an episode or probes sets the hold anew.
  predicate Marks(cfg: Config, w: World, a: Action, w': World)
    requires ValidConfig(cfg)
  {
    a.SubmitTask? && w'.st.degraded && (!w.st.degraded || Probed(cfg, w, a))
  }

  predicate Probed(cfg: Config, w: World, a: Action)
    requires ValidConfig(cfg)
  {
    && a.SubmitTask?
    && Admit(cfg, w.st, Units(cfg, a.codepoints), a.now, a.deadline).1 == Reserved(Quality, RecoveryProbe)
  }

  predicate Recovered(w: World, w': World) {
    w.st.degraded && !w'.st.degraded
  }

  // What one step can do to the hold.
  lemma HoldStep(cfg: Config, w: World, a: Action)
    requires ValidConfig(cfg) && Inv(cfg, w) && Enabled(w, a)
    ensures var w' := Step(cfg, w, a);
      && (Marks(cfg, w, a, w') ==> w'.st.degradedUntil == a.now + cfg.recoveryHoldMs / 1000.0)
      && (Probed(cfg, w, a) && w.st.degraded ==> a.now >= w.st.degradedUntil)
      && (Recovered(w, w') ==> a.SubmitTask? && a.now >= w.st.degradedUntil)
      && (w.st.degraded && w'.st.degraded && !Marks(cfg, w, a, w') ==>
            w'.st.degradedUntil == w.st.degradedUntil)
  {
    if a.SubmitTask? {
      var units := Units(cfg, a.codepoints);
      var estimate, budget := Estimate(cfg, w.st, Quality, units), Budget(cfg, a.now, a.deadline);
      BudgetIsNotNegative(cfg, a.now, a.deadline);
      HoldSubmit(cfg, w.st, units, estimate, budget, a.now, a.deadline);
    }
  }

  lemma HoldSubmit(cfg: Config, st: State, units: real, estimate: real, budget: real, now: real, deadline: Option<real>)
    requires ValidConfig(cfg) && budget >= 0.0
    ensures var (st', d) := AdmitWith(cfg, st, units, estimate, budget, now, deadline);
      var probed := d == Reserved(Quality, RecoveryProbe);
      && (st'.degraded && (!st.degraded || probed) ==> st'.degradedUntil == now + cfg.recoveryHoldMs / 1000.0)
      && (probed && st.degraded ==> now >= st.degradedUntil)
      && (st.degraded && !st'.degraded ==> now >= st.degradedUntil)
      && (st.degraded && st'.degraded && !probed ==> st'.degradedUntil == st.degradedUntil)
  {
    if Recovers(cfg, st, estimate, budget, now) {
      RecoveryHolds(cfg, st, estimate, budget, now);
    }
  }

  lemma MarkSetsHold(cfg: Config, ws: seq<World>, acts: seq<Action>, k: nat)
    requires ValidConfig(cfg) && IsRun(cfg, ws, acts) && k < |acts|
    requires Marks(cfg, ws[k], acts[k], ws[k + 1])
    ensures ws[k + 1].st.degradedUntil == acts[k].now + cfg.recoveryHoldMs / 1000.0
  {
    InvAlways(cfg, ws, acts, k);
    assert StepsTo(cfg, ws[k], acts[k], ws[k + 1]);
    HoldStep(cfg, ws[k], acts[k]);
  }

  lemma HoldGrows(cfg: Config, ws: seq<World>, acts: seq<Action>, k: nat)
    requires ValidConfig(cfg) && IsRun(cfg, ws, acts) && k < |acts|
    requires ws[k].st.degraded && ws[k + 1].st.degraded
    ensures ws[k + 1].st.degradedUntil >= ws[k].st.degradedUntil
  {
    InvAlways(cfg, ws, acts, k);
    assert StepsTo(cfg, ws[k], acts[k], ws[k + 1]);
    HoldStep(cfg, ws[k], acts[k]);
  }

  lemma {:induction false} HoldLasts(ws: seq<World>, k: nat, l: nat)
    requires k <= l < |ws|
    requires forall m :: k <= m < l ==> ws[m].st.degradedUntil <= ws[m + 1].st.degradedUntil
    ensures ws[k].st.degradedUntil <= ws[l].st.degradedUntil
    decreases l
  {
    if k < l {
      HoldLasts(ws, k, l - 1);
    }
  }

  // Within one episode, every probe and the recovery sample a time at least the hold
  // after the episode's start and after each earlier probe.
  lemma HoldIsKept(cfg: Config, ws: seq<World>, acts: seq<Action>, k: nat, l: nat)
    requires ValidConfig(cfg) && IsRun(cfg, ws, acts) && k < l < |acts|
    requires Marks(cfg, ws[k], acts[k], ws[k + 1])
    requires forall m :: k < m <= l ==> ws[m].st.degraded
    requires Probed(cfg, ws[l], acts[l]) || Recovered(ws[l], ws[l + 1])
    ensures acts[l].SubmitTask? && acts[l].now >= acts[k].now + cfg.recoveryHoldMs / 1000.0
  {
    MarkSetsHold(cfg, ws, acts, k);
    forall m | k + 1 <= m < l ensures ws[m].st.degradedUntil <= ws[m + 1].st.degradedUntil {
      HoldGrows(cfg, ws, acts, m);
    }
    HoldLasts(ws, k + 1, l);
    InvAlways(cfg, ws, acts, l);
    assert StepsTo(cfg, ws[l], acts[l], ws[l + 1]);
    HoldStep(cfg, ws[l], acts[l]);
  }

  // ----- the object in a run

  // One action on the object: the tasks' own state is with the caller.
  method Perform(s: AdaptiveScheduler, tasks: seq<Task>, a: Action, ghost w: World) returns (after: seq<Task>)
    requires s.Valid() && s.Abs() == w.st && tasks == w.tasks
    requires Enabled(w, a) && forall i :: 0 <= i < |w.tasks| ==> w.tasks[i].units > 0.0
    modifies s
    ensures s.Valid() && s.Abs() == Step(s.config, w, a).st && after == Step(s.config, w, a).tasks
  {
    after := tasks;
    match a {
      case SubmitTask(codepoints, now, deadline) =>
        var units := Units(s.config, codepoints);
        var decision := s.Submit(units, now, deadline);
        if decision.Reserved? {
          after := tasks + [Task(decision.route, units, Admitted)];
        }
      case Accept(i) =>
        after := tasks[i := tasks[i].(phase := Queued)];
      case Reject(i) =>
        s.GiveBack(tasks[i].route, tasks[i].units);
        after := tasks[i := tasks[i].(phase := Gone)];
      case CancelTask(i) =>
        s.CancelledBeforeCompute();
        after := tasks[i := tasks[i].(phase := Cancelled)];
      case StartTask(i) =>
        s.Started(tasks[i].route);
        after := tasks[i := tasks[i].(phase := Running)];
      case CompleteTask(i, error) =>
        s.Completed(tasks[i].route, error);
        after := tasks[i := tasks[i].(phase := Ran)];
      case ReleaseTask(i, queuedMs, elapsedMs) =>
        s.Finished(tasks[i].route, tasks[i].units, tasks[i].phase != Cancelled, queuedMs, elapsedMs);
        after := tasks[i := tasks[i].(phase := Gone)];
      case CloseScheduler =>
        s.Close();
      case ShutPool(_) =>
      case Drain =>
    }
  }

  // Whatever is done to a new scheduler in whatever order, its fields stay within
  // their bounds and count exactly the tasks that are outstanding.
  method Drive(s: AdaptiveScheduler, script: seq<Action>, ghost ws: seq<World>) returns (tasks: seq<Task>)
    requires s.Valid() && s.Abs() == Initial(s.config) && IsRun(s.config, ws, script)
    modifies s
    ensures s.Valid() && s.Abs() == ws[|script|].st && tasks == ws[|script|].tasks
    ensures forall r: Route ::
      && 0 <= s.pools[r].running <= s.pools[r].pending <= Capacity(s.config, r)
      && s.pools[r].pending == CountHere(tasks, r) && s.pools[r].units == SumLoad(tasks, r)
  {
    tasks := [];
    for k := 0 to |script|
      invariant s.Valid() && s.Abs() == ws[k].st && tasks == ws[k].tasks
    {
      assert StepsTo(s.config, ws[k], script[k], ws[k + 1]);
      tasks := Perform(s, tasks, script[k], ws[k]);
    }
    forall r: Route
      ensures 0 <= s.pools[r].running <= s.pools[r].pending <= Capacity(s.config, r)
      ensures s.pools[r].pending == CountHere(tasks, r) && s.pools[r].units == SumLoad(tasks, r)
    {
      ReservationsAreConserved(s.config, ws, script, |script|, r);
    }
  }
}
