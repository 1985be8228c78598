/** Collecting queued jobs into batches.

    A collector's work is a sequence of steps, one per choice of its environment: the
    next job is there, the timer fires, the context ends. The class at the end takes
    these steps in a loop over its fields; `BatchingRuns` interleaves many collectors. */
module Batching {
  import opened Wrappers

  // A queued job: who it is, and the code points of its text.
  datatype Job = Job(id: nat, size: nat)

  datatype BatchConfig = BatchConfig(maxItems: nat, maxCodePoints: nat)

  predicate ValidConfig(cfg: BatchConfig) {
    cfg.maxItems > 0 && cfg.maxCodePoints > 0
  }

  // Looking for a first job, filling a batch, having one to hand over, or stopped.
  datatype Phase = Seeking | Filling(batch: seq<Job>, total: nat) | Full(batch: seq<Job>) | Stopped

  // What one collector touches: the queue, its pending slot, its phase, and the jobs
  // it has sent a result to.
  datatype Local = Local(queue: seq<Job>, pending: Option<Job>, phase: Phase, sent: seq<Job>)

  datatype Choice =
    | Next(cancelled: bool)   // a job is taken; is its own context already done?
    | TimerFires
    | ContextEnds

  predicate CanStep(s: Local, c: Choice) {
    match s.phase
    case Seeking => c.ContextEnds? || (c.Next? && (s.pending.Some? || s.queue != []))
    case Filling(_, _) => c.TimerFires? || c.ContextEnds? || (c.Next? && s.queue != [])
    case _ => false
  }

  function TotalSize(jobs: seq<Job>): nat {
    if jobs == [] then 0 else TotalSize(jobs[..|jobs| - 1]) + jobs[|jobs| - 1].size
  }

  lemma SizeOfSnoc(batch: seq<Job>, job: Job)
    ensures TotalSize(batch + [job]) == TotalSize(batch) + job.size
  {
    assert (batch + [job])[..|batch|] == batch;
  }

  lemma SizeOfOne(job: Job)
    ensures TotalSize([job]) == job.size
  {
    assert [job][..0] == [];
    assert TotalSize([]) == 0;
  }

  // A batch that just got its last job, or not yet.
  function Grown(cfg: BatchConfig, batch: seq<Job>, total: nat): Phase {
    if total >= cfg.maxCodePoints || |batch| >= cfg.maxItems then Full(batch) else Filling(batch, total)
  }

  predicate Refused(cfg: BatchConfig, job: Job, cancelled: bool) {
    cancelled || job.size > cfg.maxCodePoints
  }

  function Step(cfg: BatchConfig, s: Local, c: Choice): Local
    requires CanStep(s, c)
  {
    match s.phase
    case Seeking =>
      if c.ContextEnds? then s.(phase := Stopped)
      else
        var job := if s.pending.Some? then s.pending.value else s.queue[0];
        var queue := if s.pending.Some? then s.queue else s.queue[1..];
        if Refused(cfg, job, c.cancelled) then Local(queue, None, Seeking, s.sent + [job])
        else Local(queue, None, Grown(cfg, [job], job.size), s.sent)
    case Filling(batch, total) =>
      if c.TimerFires? then s.(phase := Full(batch))
      else if c.ContextEnds? then s.(phase := Stopped, sent := s.sent + batch)
      else
        var job, queue := s.queue[0], s.queue[1..];
        if Refused(cfg, job, c.cancelled) then s.(queue := queue, sent := s.sent + [job])
        else if total + job.size > cfg.maxCodePoints then Local(queue, Some(job), Full(batch), s.sent)
        else s.(queue := queue, phase := Grown(cfg, batch + [job], total + job.size))
  }

  // `cs` are choices that can be made one after the other from `s`, and lead to `t`.
  predicate Leads(cfg: BatchConfig, s: Local, cs: seq<Choice>, t: Local)
    decreases |cs|
  {
    if cs == [] then s == t
    else CanStep(s, cs[0]) && Leads(cfg, Step(cfg, s, cs[0]), cs[1..], t)
  }

  lemma {:induction false} LeadsSnoc(cfg: BatchConfig, s: Local, cs: seq<Choice>, t: Local, c: Choice)
    requires Leads(cfg, s, cs, t) && CanStep(t, c)
    ensures Leads(cfg, s, cs + [c], Step(cfg, t, c))
    decreases |cs|
  {
    if cs == [] {
      assert (cs + [c])[1..] == [];
    } else {
      assert (cs + [c])[1..] == cs[1..] + [c];
      LeadsSnoc(cfg, Step(cfg, s, cs[0]), cs[1..], t, c);
    }
  }

  lemma LeadsNext(cfg: BatchConfig, s: Local, script: seq<Choice>, used: nat, t: Local)
    requires used < |script| && Leads(cfg, s, script[..used], t) && CanStep(t, script[used])
    ensures Leads(cfg, s, script[..used + 1], Step(cfg, t, script[used]))
  {
    LeadsSnoc(cfg, s, script[..used], t, script[used]);
    assert script[..used + 1] == script[..used] + [script[used]];
  }

  // ----- the queue and the collector

  datatype EnqueueOutcome = Queued | QueueFull | CallerGone

  datatype DequeueOutcome = Dequeued(job: Job) | ContextDone | StillWaiting

  // The bounded FIFO channel.
  class ItemQueue {
    const capacity: nat
    var ch: seq<Job>

    constructor (capacity: nat)
      requires capacity > 0
      ensures this.capacity == capacity && ch == []
    {
      this.capacity := capacity;
      ch := [];
    }

    // Never waits: a full queue refuses.
    method Enqueue(job: Job, ctxDone: bool) returns (outcome: EnqueueOutcome)
      modifies this
      ensures outcome == Queued <==> !ctxDone && |old(ch)| < capacity
      ensures outcome == CallerGone <==> ctxDone
      ensures ch == if outcome == Queued then old(ch) + [job] else old(ch)
      ensures |old(ch)| <= capacity ==> |ch| <= capacity
    {
      if ctxDone {
        return CallerGone;
      }
      if |ch| < capacity {
        ch := ch + [job];
        return Queued;
      }
      return QueueFull;
    }

    // Refuses when the context is done on entry. Otherwise waits for a job or for the
    // end of the context; if both are there, either may win.
    method Dequeue(ctxDone: bool, ctxEnds: bool, jobWins: bool) returns (outcome: DequeueOutcome)
      modifies this
      ensures outcome.Dequeued? <==> !ctxDone && old(ch) != [] && (ctxEnds ==> jobWins)
      ensures outcome.ContextDone? <==> ctxDone || (ctxEnds && (old(ch) == [] || !jobWins))
      ensures outcome.Dequeued? ==> [outcome.job] + ch == old(ch)
      ensures !outcome.Dequeued? ==> ch == old(ch)
    {
      if ctxDone {
        return ContextDone;
      }
      if |ch| > 0 && (!ctxEnds || jobWins) {
        outcome := Dequeued(ch[0]);
        ch := ch[1..];
      } else if ctxEnds {
        outcome := ContextDone;
      } else {
        outcome := StillWaiting;
      }
    }
  }

  datatype Outcome = Batch(jobs: seq<Job>) | Ended | Waiting

  class BatchCollector {
    const queue: ItemQueue
    const cfg: BatchConfig
    var pending: Option<Job>
    ghost var sent: seq<Job>

    ghost function View(phase: Phase): Local
      reads this, queue
    {
      Local(queue.ch, pending, phase, sent)
    }

    constructor (queue: ItemQueue, cfg: BatchConfig)
      requires ValidConfig(cfg)
      ensures this.queue == queue && this.cfg == cfg && pending == None && sent == []
    {
      this.queue := queue;
      this.cfg := cfg;
      pending := None;
      sent := [];
    }

    // Looks for a first job, in the pending slot and then in the queue.
    method FirstJob(script: seq<Choice>) returns (first: Option<Job>, ended: bool, used: nat)
      requires ValidConfig(cfg)
      modifies this, queue
      ensures used <= |script| && (first.Some? ==> !ended)
      ensures var phase := if first.Some? then Grown(cfg, [first.value], first.value.size)
                           else if ended then Stopped else Seeking;
        && Leads(cfg, old(View(Seeking)), script[..used], View(phase))
        && (phase == Seeking ==> used == |script| || !CanStep(View(phase), script[used]))
    {
      ghost var start := View(Seeking);
      used := 0;
      ended := false;
      first := None;
      while used < |script|
        invariant used <= |script|
        invariant Leads(cfg, start, script[..used], View(Seeking))
      {
        if script[used].TimerFires? {
          return;
        }
        if script[used].ContextEnds? {
          LeadsNext(cfg, start, script, used, View(Seeking));
          return None, true, used + 1;
        }
        if pending.None? && |queue.ch| == 0 {
          return;
        }
        LeadsNext(cfg, start, script, used, View(Seeking));
        var job: Job;
        if pending.Some? {
          job := pending.value;
          pending := None;
        } else {
          var taken := queue.Dequeue(false, false, true);
          job := taken.job;
        }
        if script[used].cancelled || job.size > cfg.maxCodePoints {
          sent := sent + [job];
          used := used + 1;
        } else {
          return Some(job), false, used + 1;
        }
      }
    }

    // The next job of the queue, and the batch it finds: it is refused, it joins, or it
    // does not fit and closes the batch.
    method Offer(cancelled: bool, batch: seq<Job>, total: nat) returns (grown: seq<Job>, size: nat, closed: bool)
      requires queue.ch != [] && total == TotalSize(batch)
      requires total < cfg.maxCodePoints && |batch| < cfg.maxItems
      modifies this, queue
      ensures View(if closed then Full(grown) else Grown(cfg, grown, size))
           == Step(cfg, old(View(Filling(batch, total))), Next(cancelled))
      ensures size == TotalSize(grown)
      ensures closed ==> pending.Some? && size + pending.value.size > cfg.maxCodePoints
    {
      grown, size, closed := batch, total, false;
      var taken := queue.Dequeue(false, false, true);
      var job := taken.job;
      if cancelled || job.size > cfg.maxCodePoints {
        sent := sent + [job];
      } else if total + job.size > cfg.maxCodePoints {
        pending := Some(job);
        closed := true;
      } else {
        SizeOfSnoc(batch, job);
        grown := batch + [job];
        size := total + job.size;
      }
    }

    // Fills the batch that begins with `first`, from choice `from` on.
    method Fill(script: seq<Choice>, from: nat, first: Job, ghost start: Local)
      returns (outcome: Outcome, used: nat, ghost phase: Phase)
      requires ValidConfig(cfg) && from <= |script|
      requires Leads(cfg, start, script[..from], View(Grown(cfg, [first], first.size)))
      modifies this, queue
      ensures used <= |script| && Leads(cfg, start, script[..used], View(phase))
      ensures outcome.Batch? ==> phase == Full(outcome.jobs)
      ensures outcome.Ended? ==> phase == Stopped
      ensures outcome.Waiting? ==> used == |script| || !CanStep(View(phase), script[used])
      ensures outcome.Batch? ==>
        || (from < used && script[used - 1].TimerFires?)
        || |outcome.jobs| >= cfg.maxItems || TotalSize(outcome.jobs) >= cfg.maxCodePoints
        || (pending.Some? && TotalSize(outcome.jobs) + pending.value.size > cfg.maxCodePoints)
    {
      SizeOfOne(first);
      used := from;
      var batch: seq<Job>, total: nat := [first], first.size;
      phase := Grown(cfg, batch, total);
      while total < cfg.maxCodePoints && |batch| < cfg.maxItems
        invariant from <= used <= |script|
        invariant total == TotalSize(batch) && phase == Grown(cfg, batch, total)
        invariant Leads(cfg, start, script[..used], View(phase))
        decreases |script| - used
      {
        if used == |script| {
          return Waiting, used, phase;
        }
        if script[used].Next? && |queue.ch| == 0 {
          return Waiting, used, phase;
        }
        LeadsNext(cfg, start, script, used, View(phase));
        match script[used] {
          case TimerFires =>
            return Batch(batch), used + 1, Full(batch);
          case ContextEnds =>
            FailBatch(batch);
            return Ended, used + 1, Stopped;
          case Next(cancelled) =>
            var closed: bool;
            batch, total, closed := Offer(cancelled, batch, total);
            if closed {
              return Batch(batch), used + 1, Full(batch);
            }
            phase := Grown(cfg, batch, total);
        }
        used := used + 1;
      }
      return Batch(batch), used, phase;
    }

    // Runs until it has a batch, its context ends, or the environment has made no
    // further choice yet; then `used` choices have been consumed, and everything the
    // collector touches is where those choices lead.
    method NextBatch(script: seq<Choice>) returns (outcome: Outcome, used: nat, ghost phase: Phase)
      requires ValidConfig(cfg)
      modifies this, queue
      ensures used <= |script|
      ensures Leads(cfg, old(View(Seeking)), script[..used], View(phase))
      ensures outcome.Batch? ==> phase == Full(outcome.jobs)
      ensures outcome.Ended? ==> phase == Stopped
      ensures outcome.Waiting? ==> used == |script| || !CanStep(View(phase), script[used])
      ensures outcome.Batch? ==>
        || (used > 0 && script[used - 1].TimerFires?)
        || |outcome.jobs| >= cfg.maxItems || TotalSize(outcome.jobs) >= cfg.maxCodePoints
        || (pending.Some? && TotalSize(outcome.jobs) + pending.value.size > cfg.maxCodePoints)
    {
      ghost var start := View(Seeking);
      var first, ended, from := FirstJob(script);
      if ended {
        return Ended, from, Stopped;
      }
      if first.None? {
        return Waiting, from, Seeking;
      }
      outcome, used, phase := Fill(script, from, first.value, start);
    }

    // Tells every job of the batch that its context has ended.
    method FailBatch(batch: seq<Job>)
      modifies `sent
      ensures sent == old(sent) + batch
    {
      for i := 0 to |batch|
        invariant sent == old(sent) + batch[..i]
      {
        sent := sent + [batch[i]];
      }
      assert batch[..|batch|] == batch;
    }
  }
}
