/** What a collector does in a run, in terms of the queue, its slot and the limits
    alone. */
module Collecting {
  import opened Wrappers
  import opened Batching
  import opened BatchingRuns

  // The step of a collector that takes a job: the one in its slot, when it looks for a
  // first one, or else the head of the queue.
  lemma TakesWhatIsNext(cfg: Config, ws: seq<World>, acts: seq<Action>, n: nat, k: nat, cancelled: bool)
    returns (job: Job)
    requires ValidConfig(cfg.batch) && IsRun(cfg, ws, acts) && n < |acts|
    requires acts[n] == Collect(k, Next(cancelled))
    ensures k < |ws[n].collectors| && k < |ws[n + 1].collectors|
    ensures var c := ws[n].collectors[k];
      if c.phase.Seeking? && c.pending.Some? then
        c.pending == Some(job) && ws[n + 1].queue == ws[n].queue
      else
        [job] + ws[n + 1].queue == ws[n].queue
  {
    assert StepsTo(cfg, ws[n], acts[n], ws[n + 1]);
    var c := ws[n].collectors[k];
    job := if c.phase.Seeking? && c.pending.Some? then c.pending.value else ws[n].queue[0];
  }

  // A job that is no longer wanted, or too long for any batch, is answered at once and
  // leaves the batch as it was; no other job is.
  lemma RefusesExactly(cfg: Config, ws: seq<World>, acts: seq<Action>, n: nat, k: nat, cancelled: bool, job: Job)
    requires ValidConfig(cfg.batch) && IsRun(cfg, ws, acts) && n < |acts|
    requires acts[n] == Collect(k, Next(cancelled)) && k < |ws[n].collectors| && k < |ws[n + 1].collectors|
    requires var c := ws[n].collectors[k];
      if c.phase.Seeking? && c.pending.Some? then c.pending == Some(job)
      else ws[n].queue != [] && ws[n].queue[0] == job
    ensures var c, c' := ws[n].collectors[k], ws[n + 1].collectors[k];
      if cancelled || job.size > cfg.batch.maxCodePoints then
        ws[n + 1].answers == ws[n].answers + [job] && c'.phase == c.phase && c'.pending == None
      else
        ws[n + 1].answers == ws[n].answers && c'.phase != c.phase
  {
    InvAlways(cfg, ws, acts, n);
    assert StepsTo(cfg, ws[n], acts[n], ws[n + 1]);
    assert CollectorOk(cfg.batch, ws[n].collectors[k]);
  }

  // What a job that is not refused does to the batch: it joins, and the batch is handed
  // over once it has reached a limit; or it does not fit, and waits in the slot while
  // the batch is handed over without it.
  lemma JoinsOrWaits(cfg: Config, ws: seq<World>, acts: seq<Action>, n: nat, k: nat, cancelled: bool, job: Job)
    requires ValidConfig(cfg.batch) && IsRun(cfg, ws, acts) && n < |acts|
    requires acts[n] == Collect(k, Next(cancelled)) && k < |ws[n].collectors| && k < |ws[n + 1].collectors|
    requires var c := ws[n].collectors[k];
      if c.phase.Seeking? && c.pending.Some? then c.pending == Some(job)
      else ws[n].queue != [] && ws[n].queue[0] == job
    requires !cancelled && job.size <= cfg.batch.maxCodePoints
    ensures var batch, c' := InHand(ws[n].collectors[k].phase), ws[n + 1].collectors[k];
      var size := TotalSize(batch) + job.size;
      if size > cfg.batch.maxCodePoints then c'.phase == Full(batch) && c'.pending == Some(job)
      else
        && c'.pending == None
        && c'.phase == if |batch| + 1 == cfg.batch.maxItems || size == cfg.batch.maxCodePoints
                       then Full(batch + [job]) else Filling(batch + [job], size)
  {
    InvAlways(cfg, ws, acts, n);
    assert StepsTo(cfg, ws[n], acts[n], ws[n + 1]);
    assert CollectorOk(cfg.batch, ws[n].collectors[k]);
  }

  // The two other choices: the timer hands the batch over, the end of the context fails
  // every job of it; either way the queue stays.
  lemma TimerAndEnd(cfg: Config, ws: seq<World>, acts: seq<Action>, n: nat, k: nat, choice: Choice)
    requires ValidConfig(cfg.batch) && IsRun(cfg, ws, acts) && n < |acts|
    requires acts[n] == Collect(k, choice) && !choice.Next?
    ensures k < |ws[n].collectors| && k < |ws[n + 1].collectors| && ws[n + 1].queue == ws[n].queue
    ensures var batch, c := InHand(ws[n].collectors[k].phase), ws[n + 1].collectors[k];
      && c.pending == ws[n].collectors[k].pending
      && if choice.TimerFires? then c.phase == Full(batch) && batch != [] && ws[n + 1].answers == ws[n].answers
         else c.phase == Stopped && ws[n + 1].answers == ws[n].answers + batch
  {
    InvAlways(cfg, ws, acts, n);
    assert StepsTo(cfg, ws[n], acts[n], ws[n + 1]);
    assert CollectorOk(cfg.batch, ws[n].collectors[k]);
  }

  // A batch is handed over early only for a reason: it is as long or as large as it may
  // be, or the job in the slot does not fit in any more.
  lemma BatchIsFullForAReason(cfg: Config, ws: seq<World>, acts: seq<Action>, n: nat, k: nat)
    requires ValidConfig(cfg.batch) && IsRun(cfg, ws, acts) && n < |acts|
    requires k < |ws[n].collectors| && k < |ws[n + 1].collectors|
    requires !ws[n].collectors[k].phase.Full? && ws[n + 1].collectors[k].phase.Full?
    requires acts[n] != Collect(k, TimerFires)
    ensures var batch, slot := ws[n + 1].collectors[k].phase.batch, ws[n + 1].collectors[k].pending;
      || |batch| == cfg.batch.maxItems
      || TotalSize(batch) == cfg.batch.maxCodePoints
      || (slot.Some? && slot.value.size + TotalSize(batch) > cfg.batch.maxCodePoints)
  {
    assert StepsTo(cfg, ws[n], acts[n], ws[n + 1]);
    match acts[n] {
      case Enqueue(_) =>
      case Dispatch(_) =>
      case Collect(l, choice) =>
        assert l == k;
        if choice.Next? {
          var job := TakesWhatIsNext(cfg, ws, acts, n, k, choice.cancelled);
          RefusesExactly(cfg, ws, acts, n, k, choice.cancelled, job);
          SizeOfSnoc(InHand(ws[n].collectors[k].phase), job);
          if !choice.cancelled && job.size <= cfg.batch.maxCodePoints {
            JoinsOrWaits(cfg, ws, acts, n, k, choice.cancelled, job);
          }
        }
    }
  }
}
