/** Callers, the queue and many collectors at the same time. */
module BatchingRuns {
  import opened Wrappers
  import opened Batching

  // A collector with its history: the jobs it accepted, and those that left it in a
  // batch, both in order.
  datatype Collector = Collector(pending: Option<Job>, phase: Phase, accepted: seq<Job>, gone: seq<Job>)

  // `entered` are the jobs ever queued; `answers` the jobs a
  // result was sent to, as often as one was.
  datatype World = World(queue: seq<Job>, collectors: seq<Collector>, entered: seq<Job>, answers: seq<Job>)

  datatype Action =
    | Enqueue(job: Job)
    | Collect(w: nat, choice: Choice)
    | Dispatch(w: nat)   // the batch is processed: every job of it gets its result

  datatype Config = Config(batch: BatchConfig, capacity: nat, workers: nat)

  function View(w: World, c: Collector): Local {
    Local(w.queue, c.pending, c.phase, [])
  }

  ghost predicate Enabled(cfg: Config, w: World, a: Action) {
    match a
    case Enqueue(job) => |w.queue| < cfg.capacity && Tally(w.entered, job.id) == 0
    case Collect(k, c) => k < |w.collectors| && CanStep(View(w, w.collectors[k]), c)
    case Dispatch(k) => k < |w.collectors| && w.collectors[k].phase.Full?
  }

  // The job the choice makes the collector accept, if any.
  function Taken(cfg: BatchConfig, s: Local, c: Choice): seq<Job>
    requires CanStep(s, c)
  {
    if !c.Next? then []
    else if s.phase.Seeking? && s.pending.Some? then []
    else if Refused(cfg, s.queue[0], c.cancelled) then []
    else [s.queue[0]]
  }

  // The jobs that leave it without going through a finished batch: refused out of
  // the pending slot, or failed with the whole batch.
  function Dropped(cfg: BatchConfig, s: Local, c: Choice): seq<Job>
    requires CanStep(s, c)
  {
    if c.Next? && s.phase.Seeking? && s.pending.Some? && Refused(cfg, s.pending.value, c.cancelled)
    then [s.pending.value]
    else if c.ContextEnds? && s.phase.Filling? then s.phase.batch
    else []
  }

  ghost function Step(cfg: Config, w: World, a: Action): World
    requires Enabled(cfg, w, a)
  {
    match a
    case Enqueue(job) => w.(queue := w.queue + [job], entered := w.entered + [job])
    case Collect(k, choice) =>
      var c := w.collectors[k];
      var s := View(w, c);
      var t := Batching.Step(cfg.batch, s, choice);
      World(t.queue,
            w.collectors[k := Collector(t.pending, t.phase, c.accepted + Taken(cfg.batch, s, choice),
                                        c.gone + Dropped(cfg.batch, s, choice))],
            w.entered, w.answers + t.sent)
    case Dispatch(k) =>
      var c := w.collectors[k];
      World(w.queue, w.collectors[k := c.(phase := Seeking, gone := c.gone + c.phase.batch)],
            w.entered, w.answers + c.phase.batch)
  }

  // ----- where jobs are

  function Slot(p: Option<Job>): seq<Job> {
    if p.Some? then [p.value] else []
  }

  function InHand(p: Phase): seq<Job> {
    match p
    case Filling(batch, _) => batch
    case Full(batch) => batch
    case _ => []
  }

  // The jobs a collector holds: its batch, then its pending slot.
  function Held(c: Collector): seq<Job> {
    InHand(c.phase) + Slot(c.pending)
  }

  // How often a job with this id is among `jobs`.
  function Tally(jobs: seq<Job>, id: nat): nat {
    if jobs == [] then 0
    else Tally(jobs[..|jobs| - 1], id) + (if jobs[|jobs| - 1].id == id then 1 else 0)
  }

  function TallyAll(held: seq<seq<Job>>, id: nat): nat {
    if held == [] then 0 else TallyAll(held[..|held| - 1], id) + Tally(held[|held| - 1], id)
  }

  function Holdings(cs: seq<Collector>): (held: seq<seq<Job>>)
    ensures |held| == |cs|
  {
    seq(|cs|, i requires 0 <= i < |cs| => Held(cs[i]))
  }

  function HeldTally(cs: seq<Collector>, id: nat): nat {
    TallyAll(Holdings(cs), id)
  }

  lemma {:induction false} TallyOfConcat(a: seq<Job>, b: seq<Job>, id: nat)
    ensures Tally(a + b, id) == Tally(a, id) + Tally(b, id)
  {
    if b == [] {
      assert a + b == a;
    } else {
      assert (a + b)[..|a + b| - 1] == a + b[..|b| - 1];
      TallyOfConcat(a, b[..|b| - 1], id);
    }
  }

  lemma TallyOfOne(job: Job, id: nat)
    ensures Tally([job], id) == if job.id == id then 1 else 0
  {
    assert [job][..0] == [];
  }

  lemma {:induction false} TallyAllOfUpdate(held: seq<seq<Job>>, k: nat, jobs: seq<Job>, id: nat)
    requires k < |held|
    ensures TallyAll(held[k := jobs], id) + Tally(held[k], id) == TallyAll(held, id) + Tally(jobs, id)
    decreases |held|
  {
    var n := |held| - 1;
    if k == n {
      assert held[k := jobs][..n] == held[..n];
    } else {
      assert held[k := jobs][..n] == held[..n][k := jobs];
      TallyAllOfUpdate(held[..n], k, jobs, id);
    }
  }

  lemma HeldTallyOfUpdate(cs: seq<Collector>, k: nat, c: Collector, id: nat)
    requires k < |cs|
    ensures HeldTally(cs[k := c], id) + Tally(Held(cs[k]), id) == HeldTally(cs, id) + Tally(Held(c), id)
  {
    assert Holdings(cs[k := c]) == Holdings(cs)[k := Held(c)];
    TallyAllOfUpdate(Holdings(cs), k, Held(c), id);
  }

  // The queue, split at the job taken from it.
  lemma TallyOfQueue(queue: seq<Job>, id: nat)
    requires queue != []
    ensures Tally(queue, id) == Tally([queue[0]], id) + Tally(queue[1..], id)
  {
    assert queue == [queue[0]] + queue[1..];
    TallyOfConcat([queue[0]], queue[1..], id);
  }

  function Places(s: Local, id: nat): nat {
    Tally(s.queue, id) + Tally(InHand(s.phase), id) + Tally(Slot(s.pending), id) + Tally(s.sent, id)
  }

  lemma TakePendingConserves(cfg: BatchConfig, s: Local, c: Choice, id: nat)
    requires CanStep(s, c) && s.phase.Seeking? && c.Next? && s.pending.Some?
    ensures Places(Batching.Step(cfg, s, c), id) == Places(s, id)
  {
    TallyOfConcat(s.sent, [s.pending.value], id);
  }

  lemma TakeQueuedConserves(cfg: BatchConfig, s: Local, c: Choice, id: nat)
    requires CanStep(s, c) && s.phase.Seeking? && c.Next? && s.pending.None?
    ensures Places(Batching.Step(cfg, s, c), id) == Places(s, id)
  {
    TallyOfQueue(s.queue, id);
    TallyOfConcat(s.sent, [s.queue[0]], id);
  }

  lemma FillConserves(cfg: BatchConfig, s: Local, c: Choice, id: nat)
    requires CanStep(s, c) && s.phase.Filling? && c.Next? && s.pending.None?
    ensures Places(Batching.Step(cfg, s, c), id) == Places(s, id)
  {
    TallyOfQueue(s.queue, id);
    if Refused(cfg, s.queue[0], c.cancelled) {
      TallyOfConcat(s.sent, [s.queue[0]], id);
    } else if s.phase.total + s.queue[0].size <= cfg.maxCodePoints {
      TallyOfConcat(s.phase.batch, [s.queue[0]], id);
    }
  }

  // One step of a collector neither loses nor doubles a job.
  lemma StepConserves(cfg: BatchConfig, s: Local, c: Choice, id: nat)
    requires CanStep(s, c) && (s.phase.Filling? ==> s.pending.None?)
    ensures Places(Batching.Step(cfg, s, c), id) == Places(s, id)
  {
    if c.Next? {
      if s.phase.Filling? {
        FillConserves(cfg, s, c, id);
      } else if s.pending.Some? {
        TakePendingConserves(cfg, s, c, id);
      } else {
        TakeQueuedConserves(cfg, s, c, id);
      }
    } else if c.ContextEnds? {
      TallyOfConcat(s.sent, InHand(s.phase), id);
    }
  }

  // A batch that is being filled or handed over is within the limits.
  ghost predicate PhaseFits(cfg: BatchConfig, pending: Option<Job>, phase: Phase) {
    match phase
    case Filling(batch, total) =>
      pending.None? && batch != [] && |batch| < cfg.maxItems && total == TotalSize(batch) < cfg.maxCodePoints
    case Full(batch) =>
      batch != [] && |batch| <= cfg.maxItems && TotalSize(batch) <= cfg.maxCodePoints
    case _ => true
  }

  ghost predicate PhaseOk(cfg: BatchConfig, c: Collector) {
    PhaseFits(cfg, c.pending, c.phase)
  }

  ghost predicate CollectorOk(cfg: BatchConfig, c: Collector) {
    && PhaseOk(cfg, c)
    && (c.pending.Some? ==> c.pending.value.size <= cfg.maxCodePoints)
    && c.accepted == c.gone + Held(c)
  }

  // `part` is what is left of `whole` when some elements are taken out.
  predicate Subsequence(part: seq<Job>, whole: seq<Job>)
    decreases |whole|
  {
    || part == []
    || (whole != []
        && (Subsequence(part, whole[..|whole| - 1])
            || (part[|part| - 1] == whole[|whole| - 1]
                && Subsequence(part[..|part| - 1], whole[..|whole| - 1]))))
  }

  // The jobs that have left the queue, in the order of their arrival.
  function LeftQueue(w: World): seq<Job>
    requires |w.queue| <= |w.entered|
  {
    w.entered[..|w.entered| - |w.queue|]
  }

  // The queue holds the latest arrivals, and every collector took its jobs in the
  // order in which they arrived.
  ghost predicate FirstInFirstOut(w: World) {
    && |w.queue| <= |w.entered|
    && w.entered == LeftQueue(w) + w.queue
    && forall k :: 0 <= k < |w.collectors| ==> Subsequence(w.collectors[k].accepted, LeftQueue(w))
  }

  ghost predicate Inv(cfg: Config, w: World) {
    && FirstInFirstOut(w)
    && (forall k :: 0 <= k < |w.collectors| ==> CollectorOk(cfg.batch, w.collectors[k]))
    && (forall id :: Tally(w.entered, id)
                      == Tally(w.queue, id) + HeldTally(w.collectors, id) + Tally(w.answers, id))
    && (forall id :: Tally(w.entered, id) <= 1)
    && |w.queue| <= cfg.capacity
  }

  // The phase and the slot stay within the limits.
  lemma CollectKeepsLimits(cfg: BatchConfig, s: Local, choice: Choice)
    requires ValidConfig(cfg) && PhaseFits(cfg, s.pending, s.phase) && CanStep(s, choice)
    requires s.pending.Some? ==> s.pending.value.size <= cfg.maxCodePoints
    ensures var t := Batching.Step(cfg, s, choice);
      && PhaseFits(cfg, t.pending, t.phase)
      && (t.pending.Some? ==> t.pending.value.size <= cfg.maxCodePoints)
  {
    if choice.Next? {
      if s.phase.Filling? {
        FillKeepsLimits(cfg, s, choice);
      } else {
        FirstKeepsLimits(cfg, s, choice);
      }
    }
  }

  lemma FillKeepsLimits(cfg: BatchConfig, s: Local, choice: Choice)
    requires ValidConfig(cfg) && PhaseFits(cfg, s.pending, s.phase) && CanStep(s, choice)
    requires choice.Next? && s.phase.Filling?
    ensures var t := Batching.Step(cfg, s, choice);
      && PhaseFits(cfg, t.pending, t.phase)
      && (t.pending.Some? ==> t.pending.value.size <= cfg.maxCodePoints)
  {
    SizeOfSnoc(s.phase.batch, s.queue[0]);
  }

  lemma FirstKeepsLimits(cfg: BatchConfig, s: Local, choice: Choice)
    requires ValidConfig(cfg) && CanStep(s, choice) && choice.Next? && s.phase.Seeking?
    ensures var t := Batching.Step(cfg, s, choice);
      PhaseFits(cfg, t.pending, t.phase) && t.pending.None?
  {
    var job := if s.pending.Some? then s.pending.value else s.queue[0];
    SizeOfOne(job);
  }

  // Jobs leave a collector in the order in which it took them.
  lemma CollectKeepsOrder(cfg: BatchConfig, c: Collector, s: Local, choice: Choice)
    requires c.accepted == c.gone + Held(c) && PhaseOk(cfg, c)
    requires s.pending == c.pending && s.phase == c.phase && CanStep(s, choice)
    ensures var t := Batching.Step(cfg, s, choice);
      c.accepted + Taken(cfg, s, choice) == (c.gone + Dropped(cfg, s, choice)) + (InHand(t.phase) + Slot(t.pending))
  {
    var t := Batching.Step(cfg, s, choice);
    HeldKeepsOrder(cfg, s, choice);
    assert c.accepted + Taken(cfg, s, choice)
        == c.gone + ((InHand(s.phase) + Slot(s.pending)) + Taken(cfg, s, choice));
    assert c.gone + (Dropped(cfg, s, choice) + (InHand(t.phase) + Slot(t.pending)))
        == (c.gone + Dropped(cfg, s, choice)) + (InHand(t.phase) + Slot(t.pending));
  }

  lemma HeldKeepsOrder(cfg: BatchConfig, s: Local, choice: Choice)
    requires CanStep(s, choice) && (s.phase.Filling? ==> s.pending.None?)
    ensures var t := Batching.Step(cfg, s, choice);
      (InHand(s.phase) + Slot(s.pending)) + Taken(cfg, s, choice)
        == Dropped(cfg, s, choice) + (InHand(t.phase) + Slot(t.pending))
  {
  }

  // ----- arrival order

  lemma SubsequenceSkips(part: seq<Job>, whole: seq<Job>, job: Job)
    requires Subsequence(part, whole)
    ensures Subsequence(part, whole + [job])
  {
    assert (whole + [job])[..|whole|] == whole;
  }

  lemma SubsequenceTakes(part: seq<Job>, whole: seq<Job>, job: Job)
    requires Subsequence(part, whole)
    ensures Subsequence(part + [job], whole + [job])
  {
    assert (whole + [job])[..|whole|] == whole && (part + [job])[..|part|] == part;
  }

  lemma {:induction false} SubsequenceOfPrefix(part: seq<Job>, more: seq<Job>, whole: seq<Job>)
    requires Subsequence(part + more, whole)
    ensures Subsequence(part, whole)
    decreases |whole|
  {
    if more == [] {
      assert part + more == part;
    } else if part != [] {
      var n := |whole| - 1;
      if Subsequence(part + more, whole[..n]) {
        SubsequenceOfPrefix(part, more, whole[..n]);
      } else {
        assert (part + more)[..|part + more| - 1] == part + more[..|more| - 1];
        SubsequenceOfPrefix(part, more[..|more| - 1], whole[..n]);
      }
    }
  }

  // What comes after is irrelevant.
  lemma {:induction false} SubsequenceExtends(part: seq<Job>, whole: seq<Job>, more: seq<Job>)
    requires Subsequence(part, whole)
    ensures Subsequence(part, whole + more)
    decreases |more|
  {
    if more == [] {
      assert whole + more == whole;
    } else {
      var n := |more| - 1;
      SubsequenceExtends(part, whole, more[..n]);
      SubsequenceSkips(part, whole + more[..n], more[n]);
      assert whole + more == whole + more[..n] + [more[n]];
    }
  }

  // Only the head of the queue can be accepted, and then it is the latest to leave it.
  lemma CollectKeepsArrivalOrder(cfg: Config, w: World, k: nat, choice: Choice)
    requires FirstInFirstOut(w) && Enabled(cfg, w, Collect(k, choice))
    ensures FirstInFirstOut(Step(cfg, w, Collect(k, choice)))
  {
    var w' := Step(cfg, w, Collect(k, choice));
    var c := w.collectors[k];
    TakesTheHead(cfg.batch, View(w, c), choice);
    if w'.queue == w.queue {
      assert w'.collectors[k].accepted == c.accepted + [] == c.accepted;
    } else {
      HeadLeaves(w, w');
      forall i | 0 <= i < |w'.collectors| ensures Subsequence(w'.collectors[i].accepted, LeftQueue(w')) {
        AcceptsAtMost(w.collectors[i].accepted, w'.collectors[i].accepted, LeftQueue(w), w.queue[0]);
      }
    }
  }

  lemma TakesTheHead(cfg: BatchConfig, s: Local, c: Choice)
    requires CanStep(s, c)
    ensures var t := Batching.Step(cfg, s, c);
      || (t.queue == s.queue && Taken(cfg, s, c) == [])
      || (s.queue != [] && t.queue == s.queue[1..] && (Taken(cfg, s, c) == [] || Taken(cfg, s, c) == [s.queue[0]]))
  {
  }

  lemma HeadLeaves(w: World, w': World)
    requires FirstInFirstOut(w) && w.queue != [] && w'.queue == w.queue[1..] && w'.entered == w.entered
    ensures |w'.queue| <= |w'.entered| && LeftQueue(w') == LeftQueue(w) + [w.queue[0]]
    ensures w'.entered == LeftQueue(w') + w'.queue
  {
    assert w.queue == [w.queue[0]] + w'.queue;
    assert w'.entered == (LeftQueue(w) + [w.queue[0]]) + w'.queue;
  }

  lemma AcceptsAtMost(accepted: seq<Job>, after: seq<Job>, left: seq<Job>, job: Job)
    requires Subsequence(accepted, left) && (after == accepted || after == accepted + [] || after == accepted + [job])
    ensures Subsequence(after, left + [job])
  {
    assert accepted + [] == accepted;
    SubsequenceSkips(accepted, left, job);
    SubsequenceTakes(accepted, left, job);
  }

  lemma CollectorStaysOk(cfg: Config, w: World, k: nat, choice: Choice)
    requires ValidConfig(cfg.batch) && Enabled(cfg, w, Collect(k, choice)) && CollectorOk(cfg.batch, w.collectors[k])
    ensures CollectorOk(cfg.batch, Step(cfg, w, Collect(k, choice)).collectors[k])
    ensures |Step(cfg, w, Collect(k, choice)).queue| <= |w.queue|
  {
    var c := w.collectors[k];
    CollectKeepsLimits(cfg.batch, View(w, c), choice);
    CollectKeepsOrder(cfg.batch, c, View(w, c), choice);
  }

  lemma CollectKeepsInv(cfg: Config, w: World, k: nat, choice: Choice)
    requires ValidConfig(cfg.batch) && Inv(cfg, w) && Enabled(cfg, w, Collect(k, choice))
    ensures Inv(cfg, Step(cfg, w, Collect(k, choice)))
  {
    var w' := Step(cfg, w, Collect(k, choice));
    CollectorStaysOk(cfg, w, k, choice);
    CollectKeepsArrivalOrder(cfg, w, k, choice);
    forall i | 0 <= i < |w'.collectors| ensures CollectorOk(cfg.batch, w'.collectors[i]) {
      assert i != k ==> w'.collectors[i] == w.collectors[i];
    }
    forall id ensures Tally(w'.entered, id)
                   == Tally(w'.queue, id) + HeldTally(w'.collectors, id) + Tally(w'.answers, id)
    {
      CollectConserves(cfg, w, k, choice, id);
    }
  }

  lemma CollectConserves(cfg: Config, w: World, k: nat, choice: Choice, id: nat)
    requires Enabled(cfg, w, Collect(k, choice)) && PhaseOk(cfg.batch, w.collectors[k])
    ensures var w' := Step(cfg, w, Collect(k, choice));
      Tally(w'.queue, id) + HeldTally(w'.collectors, id) + Tally(w'.answers, id)
        == Tally(w.queue, id) + HeldTally(w.collectors, id) + Tally(w.answers, id)
  {
    var w' := Step(cfg, w, Collect(k, choice));
    var c := w.collectors[k];
    var t := Batching.Step(cfg.batch, View(w, c), choice);
    StepConserves(cfg.batch, View(w, c), choice, id);
    HeldTallyOfUpdate(w.collectors, k, w'.collectors[k], id);
    TallyOfConcat(w.answers, t.sent, id);
    TallyOfConcat(InHand(c.phase), Slot(c.pending), id);
    TallyOfConcat(InHand(t.phase), Slot(t.pending), id);
  }

  lemma EnqueueKeepsInv(cfg: Config, w: World, job: Job)
    requires Inv(cfg, w) && Enabled(cfg, w, Enqueue(job))
    ensures Inv(cfg, Step(cfg, w, Enqueue(job)))
  {
    var w' := Step(cfg, w, Enqueue(job));
    assert LeftQueue(w') == LeftQueue(w);
    forall id ensures Tally(w'.entered, id) == Tally(w.entered, id) + Tally([job], id)
              ensures Tally(w'.queue, id) == Tally(w.queue, id) + Tally([job], id)
              ensures Tally(w'.entered, id) <= 1
    {
      TallyOfConcat(w.entered, [job], id);
      TallyOfConcat(w.queue, [job], id);
      TallyOfOne(job, id);
    }
  }

  lemma DispatchKeepsInv(cfg: Config, w: World, k: nat)
    requires Inv(cfg, w) && Enabled(cfg, w, Dispatch(k))
    ensures Inv(cfg, Step(cfg, w, Dispatch(k)))
  {
    var w' := Step(cfg, w, Dispatch(k));
    var c, c' := w.collectors[k], w'.collectors[k];
    assert CollectorOk(cfg.batch, c);
    assert Held(c') == Slot(c.pending);
    assert c'.accepted == c'.gone + Held(c');
    forall id ensures Tally(w'.entered, id)
                   == Tally(w'.queue, id) + HeldTally(w'.collectors, id) + Tally(w'.answers, id)
    {
      HeldTallyOfUpdate(w.collectors, k, c', id);
      TallyOfConcat(w.answers, c.phase.batch, id);
      TallyOfConcat(c.phase.batch, Slot(c.pending), id);
    }
  }

  lemma StepKeepsInv(cfg: Config, w: World, a: Action)
    requires ValidConfig(cfg.batch) && Inv(cfg, w) && Enabled(cfg, w, a)
    ensures Inv(cfg, Step(cfg, w, a))
  {
    match a {
      case Enqueue(job) => EnqueueKeepsInv(cfg, w, job);
      case Collect(k, choice) => CollectKeepsInv(cfg, w, k, choice);
      case Dispatch(k) => DispatchKeepsInv(cfg, w, k);
    }
  }

  // ----- over whole runs

  function Started(n: nat): seq<Collector> {
    seq(n, _ => Collector(None, Seeking, [], []))
  }

  function Start(cfg: Config): World {
    World([], Started(cfg.workers), [], [])
  }

  lemma {:induction false} StartHoldsNothing(n: nat, id: nat)
    ensures HeldTally(Started(n), id) == 0
  {
    if n > 0 {
      var held := Holdings(Started(n));
      assert held[..n - 1] == Holdings(Started(n - 1));
      assert held[n - 1] == [];
      StartHoldsNothing(n - 1, id);
    }
  }

  ghost predicate StepsTo(cfg: Config, w: World, a: Action, w': World) {
    Enabled(cfg, w, a) && w' == Step(cfg, w, a)
  }

  ghost predicate IsRun(cfg: Config, ws: seq<World>, acts: seq<Action>) {
    && |ws| == |acts| + 1 && ws[0] == Start(cfg)
    && forall k :: 0 <= k < |acts| ==> StepsTo(cfg, ws[k], acts[k], ws[k + 1])
  }

  lemma {:induction false} InvAlways(cfg: Config, ws: seq<World>, acts: seq<Action>, n: nat)
    requires ValidConfig(cfg.batch) && IsRun(cfg, ws, acts) && n < |ws|
    ensures Inv(cfg, ws[n])
  {
    if n == 0 {
      StartKeepsInv(cfg);
    } else {
      InvAlways(cfg, ws, acts, n - 1);
      assert StepsTo(cfg, ws[n - 1], acts[n - 1], ws[n]);
      StepKeepsInv(cfg, ws[n - 1], acts[n - 1]);
    }
  }

  lemma StartKeepsInv(cfg: Config)
    ensures Inv(cfg, Start(cfg))
  {
    var w := Start(cfg);
    forall id ensures HeldTally(w.collectors, id) == 0 {
      StartHoldsNothing(cfg.workers, id);
    }
    assert LeftQueue(w) == [];
  }

  // Every queued job is in exactly one place: waiting in the queue, held by one
  // collector in its batch or its pending slot, or answered. In particular none is
  // answered twice, so a result channel of capacity one never blocks.
  lemma JobsAreConserved(cfg: Config, ws: seq<World>, acts: seq<Action>, n: nat, id: nat)
    requires ValidConfig(cfg.batch) && IsRun(cfg, ws, acts) && n < |ws|
    ensures var w := ws[n];
      Tally(w.queue, id) + HeldTally(w.collectors, id) + Tally(w.answers, id) == Tally(w.entered, id) <= 1
  {
    InvAlways(cfg, ws, acts, n);
  }

  // A collector hands over batches that are not empty and within both limits, and
  // all that has left it, this batch last, left in the order of arrival in the queue.
  lemma BatchesAreOrderedAndBounded(cfg: Config, ws: seq<World>, acts: seq<Action>, n: nat, k: nat)
    requires ValidConfig(cfg.batch) && IsRun(cfg, ws, acts) && n < |acts|
    requires acts[n] == Dispatch(k)
    ensures k < |ws[n].collectors| && ws[n].collectors[k].phase.Full?
    ensures var c := ws[n].collectors[k];
      && 0 < |c.phase.batch| <= cfg.batch.maxItems
      && TotalSize(c.phase.batch) <= cfg.batch.maxCodePoints
      && Subsequence(c.gone + c.phase.batch, ws[n].entered)
  {
    InvAlways(cfg, ws, acts, n);
    assert StepsTo(cfg, ws[n], acts[n], ws[n + 1]);
    var w, c := ws[n], ws[n].collectors[k];
    assert CollectorOk(cfg.batch, c);
    assert c.accepted == (c.gone + c.phase.batch) + Slot(c.pending);
    SubsequenceOfPrefix(c.gone + c.phase.batch, Slot(c.pending), LeftQueue(w));
    SubsequenceExtends(c.gone + c.phase.batch, LeftQueue(w), w.queue);
  }
}
