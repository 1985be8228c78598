/** From a queued job to its one answer: the runs of the batching pipeline with the
    texts of the jobs and the replies of the remote side put in. */
module OwnAnswers {
  import opened Wrappers
  import opened Pii
  import opened Tokens
  import opened Masking
  import opened Transport
  import opened Delivery
  import opened Runs = BatchingRuns
  import Collecting = Batching
  import Utf8

  // What the callers submitted, by the ids of their jobs, and what the remote side
  // does with a batch.
  datatype Setting = Setting(item: nat -> Item, remote: (string, seq<Item>) -> Reply)

  function Submitted(s: Setting, jobs: seq<Collecting.Job>): (items: seq<Item>)
    ensures |items| == |jobs|
  {
    seq(|jobs|, i requires 0 <= i < |jobs| => s.item(jobs[i].id))
  }

  // The number of a batch dispatched by action `n`: the batches before it, and itself.
  function Number(acts: seq<Action>, n: nat): nat
    requires n <= |acts|
  {
    if n == 0 then 1 else Number(acts, n - 1) + if acts[n - 1].Dispatch? then 1 else 0
  }

  lemma {:induction false} NumberGrows(acts: seq<Action>, m: nat, n: nat)
    requires m < n <= |acts| && acts[m].Dispatch?
    ensures Number(acts, m) < Number(acts, n)
    decreases n
  {
    if m < n - 1 {
      NumberGrows(acts, m, n - 1);
    }
  }

  // No two batches go by one id.
  lemma BatchIDsDiffer(acts: seq<Action>, m: nat, n: nat)
    requires m < n < |acts| && acts[m].Dispatch?
    ensures BatchID(Number(acts, m)) != BatchID(Number(acts, n))
  {
    NumberGrows(acts, m, n);
    var a, b := Number(acts, m), Number(acts, n);
    if BatchID(a) == BatchID(b) {
      assert Decimal(a) == BatchID(a)[6..] == BatchID(b)[6..] == Decimal(b);
      DecimalInjective(a, b);
    }
  }

  // The reply to the batch `jobs`, sent as `batchID`.
  function ReplyTo(s: Setting, batchID: string, jobs: seq<Collecting.Job>): Reply {
    s.remote(batchID, Sent(batchID, Submitted(s, jobs)))
  }

  // What the collector tells a job it gives up: its context or its own has ended, or
  // it is too large.
  function Refusal(c: Collecting.Choice): JobResult {
    if c.Next? && !c.cancelled then Err(PayloadTooLarge) else Err(Cancelled)
  }

  // The job in place `i` of a dispatched batch gets `d`.
  ghost predicate Hands(s: Setting, batchID: string, jobs: seq<Collecting.Job>, i: nat, id: nat, d: JobResult) {
    && i < |jobs| && jobs[i].id == id
    && Delivers(batchID, Submitted(s, jobs), ReplyTo(s, batchID, jobs), i, d)
  }

  // Action `n` of a run sends `d` to the job `id`.
  ghost predicate Sends(cfg: Config, s: Setting, ws: seq<World>, acts: seq<Action>, n: nat, id: nat, d: JobResult)
    requires IsRun(cfg, ws, acts) && n < |acts|
  {
    match acts[n]
    case Enqueue(_) => false
    case Collect(k, c) =>
      && StepsTo(cfg, ws[n], acts[n], ws[n + 1])
      && d == Refusal(c)
      && Tally(Collecting.Step(cfg.batch, View(ws[n], ws[n].collectors[k]), c).sent, id) > 0
    case Dispatch(k) =>
      && StepsTo(cfg, ws[n], acts[n], ws[n + 1])
      && exists i: nat :: Hands(s, BatchID(Number(acts, n)), ws[n].collectors[k].phase.batch, i, id, d)
  }

  // ----- one answer

  lemma {:induction false} TallyOfMember(jobs: seq<Collecting.Job>, i: nat, id: nat)
    requires i < |jobs| && jobs[i].id == id
    ensures Tally(jobs, id) >= 1
  {
    if i < |jobs| - 1 {
      TallyOfMember(jobs[..|jobs| - 1], i, id);
    }
  }

  lemma {:induction false} TallyOfTwo(jobs: seq<Collecting.Job>, i: nat, j: nat, id: nat)
    requires i < j < |jobs| && jobs[i].id == jobs[j].id == id
    ensures Tally(jobs, id) >= 2
  {
    var n := |jobs| - 1;
    if j < n {
      TallyOfTwo(jobs[..n], i, j, id);
    } else {
      TallyOfMember(jobs[..n], i, id);
    }
  }

  lemma {:induction false} MemberOfTally(jobs: seq<Collecting.Job>, id: nat) returns (i: nat)
    requires Tally(jobs, id) > 0
    ensures i < |jobs| && jobs[i].id == id
  {
    i := |jobs| - 1;
    if jobs[i].id != id {
      i := MemberOfTally(jobs[..i], id);
    }
  }

  // What the answers grow by in action `n`.
  function News(cfg: Config, w: World, a: Action): seq<Collecting.Job>
    requires Enabled(cfg, w, a)
  {
    match a
    case Enqueue(_) => []
    case Collect(k, c) => Collecting.Step(cfg.batch, View(w, w.collectors[k]), c).sent
    case Dispatch(k) => w.collectors[k].phase.batch
  }

  lemma AnswersGrow(cfg: Config, ws: seq<World>, acts: seq<Action>, n: nat, id: nat)
    requires IsRun(cfg, ws, acts) && n < |acts|
    ensures StepsTo(cfg, ws[n], acts[n], ws[n + 1])
    ensures Tally(ws[n + 1].answers, id) == Tally(ws[n].answers, id) + Tally(News(cfg, ws[n], acts[n]), id)
  {
    assert StepsTo(cfg, ws[n], acts[n], ws[n + 1]);
    TallyOfConcat(ws[n].answers, News(cfg, ws[n], acts[n]), id);
  }

  lemma {:induction false} AnswersStay(cfg: Config, ws: seq<World>, acts: seq<Action>, m: nat, n: nat, id: nat)
    requires IsRun(cfg, ws, acts) && m <= n < |ws|
    ensures Tally(ws[m].answers, id) <= Tally(ws[n].answers, id)
    decreases n
  {
    if m < n {
      AnswersStay(cfg, ws, acts, m, n - 1, id);
      AnswersGrow(cfg, ws, acts, n - 1, id);
    }
  }

  lemma SentIsNew(cfg: Config, s: Setting, ws: seq<World>, acts: seq<Action>, n: nat, id: nat, d: JobResult)
    requires IsRun(cfg, ws, acts) && n < |acts| && Sends(cfg, s, ws, acts, n, id, d)
    ensures Enabled(cfg, ws[n], acts[n]) && Tally(News(cfg, ws[n], acts[n]), id) > 0
  {
    if acts[n].Dispatch? {
      var jobs := ws[n].collectors[acts[n].w].phase.batch;
      var i: nat :| Hands(s, BatchID(Number(acts, n)), jobs, i, id, d);
      TallyOfMember(jobs, i, id);
    }
  }

  lemma OneActionAnswers(cfg: Config, s: Setting, ws: seq<World>, acts: seq<Action>, m: nat, n: nat, id: nat,
                         d: JobResult, e: JobResult)
    requires Collecting.ValidConfig(cfg.batch) && IsRun(cfg, ws, acts) && m < |acts| && n < |acts|
    requires Sends(cfg, s, ws, acts, m, id, d) && Sends(cfg, s, ws, acts, n, id, e)
    ensures m == n
  {
    if m > n {
      OneActionAnswers(cfg, s, ws, acts, n, m, id, e, d);
    } else if m < n {
      SentIsNew(cfg, s, ws, acts, m, id, d);
      SentIsNew(cfg, s, ws, acts, n, id, e);
      AnswersGrow(cfg, ws, acts, m, id);
      AnswersStay(cfg, ws, acts, m + 1, n, id);
      AnswersGrow(cfg, ws, acts, n, id);
      JobsAreConserved(cfg, ws, acts, n + 1, id);
    }
  }

  lemma OnePlaceInBatch(cfg: Config, ws: seq<World>, acts: seq<Action>, n: nat, id: nat, i: nat, j: nat)
    requires Collecting.ValidConfig(cfg.batch) && IsRun(cfg, ws, acts) && n < |acts| && acts[n].Dispatch?
    requires Enabled(cfg, ws[n], acts[n])
    requires var jobs := News(cfg, ws[n], acts[n]);
      i < |jobs| && j < |jobs| && jobs[i].id == jobs[j].id == id
    ensures i == j
  {
    var jobs := News(cfg, ws[n], acts[n]);
    AnswersGrow(cfg, ws, acts, n, id);
    JobsAreConserved(cfg, ws, acts, n + 1, id);
    if i < j {
      TallyOfTwo(jobs, i, j, id);
    }
    if j < i {
      TallyOfTwo(jobs, j, i, id);
    }
  }

  // In every run a job gets at most one answer: sent by one action, and determined.
  lemma OneAnswer(cfg: Config, s: Setting, ws: seq<World>, acts: seq<Action>, m: nat, n: nat, id: nat,
                  d: JobResult, e: JobResult)
    requires Collecting.ValidConfig(cfg.batch) && IsRun(cfg, ws, acts) && m < |acts| && n < |acts|
    requires Sends(cfg, s, ws, acts, m, id, d) && Sends(cfg, s, ws, acts, n, id, e)
    ensures m == n && d == e
  {
    OneActionAnswers(cfg, s, ws, acts, m, n, id, d, e);
    if acts[n].Dispatch? {
      var batchID, jobs := BatchID(Number(acts, n)), ws[n].collectors[acts[n].w].phase.batch;
      var i: nat :| Hands(s, batchID, jobs, i, id, d);
      var j: nat :| Hands(s, batchID, jobs, j, id, e);
      OnePlaceInBatch(cfg, ws, acts, n, id, i, j);
      OneResultIsDue(batchID, Submitted(s, jobs), ReplyTo(s, batchID, jobs), i, d, e);
    }
  }

  // ----- an answer for every job that leaves the pipeline

  lemma SomethingIsDue(batchID: string, batch: seq<Item>, reply: Reply, i: nat) returns (d: JobResult)
    requires i < |batch|
    ensures Delivers(batchID, batch, reply, i, d)
  {
    match reply {
      case Err(e) =>
        d := Err(e);
      case Ok(resp) =>
        if Acceptable(batchID, Sent(batchID, batch), resp) {
          var k := EachIsAnswered(batchID, batch, resp, i);
          CheckedIsOwn(batchID, batch, resp.value.results, i, k);
          d := Told(batch[i], ToResult(Lengths(Sent(batchID, batch)), resp.value.results[k]));
        } else {
          d := Err(InvalidMLResponse);
        }
    }
  }

  // A job counted as answered was sent an answer.
  lemma {:induction false} AnsweredWasSent(cfg: Config, s: Setting, ws: seq<World>, acts: seq<Action>, n: nat, id: nat)
    returns (m: nat, d: JobResult)
    requires IsRun(cfg, ws, acts) && n < |ws| && Tally(ws[n].answers, id) > 0
    ensures m < n && Sends(cfg, s, ws, acts, m, id, d)
  {
    AnswersGrow(cfg, ws, acts, n - 1, id);
    if Tally(ws[n - 1].answers, id) > 0 {
      m, d := AnsweredWasSent(cfg, s, ws, acts, n - 1, id);
    } else {
      m := n - 1;
      d := NewIsSent(cfg, s, ws, acts, m, id);
    }
  }

  lemma NewIsSent(cfg: Config, s: Setting, ws: seq<World>, acts: seq<Action>, n: nat, id: nat)
    returns (d: JobResult)
    requires IsRun(cfg, ws, acts) && n < |acts| && StepsTo(cfg, ws[n], acts[n], ws[n + 1])
    requires Tally(News(cfg, ws[n], acts[n]), id) > 0
    ensures Sends(cfg, s, ws, acts, n, id, d)
  {
    match acts[n] {
      case Enqueue(_) =>
      case Collect(k, c) =>
        d := Refusal(c);
      case Dispatch(k) =>
        var batchID, jobs := BatchID(Number(acts, n)), ws[n].collectors[k].phase.batch;
        var i := MemberOfTally(jobs, id);
        d := SomethingIsDue(batchID, Submitted(s, jobs), ReplyTo(s, batchID, jobs), i);
        assert Hands(s, batchID, jobs, i, id, d);
    }
  }

  // ----- whose answer it is

  // The result that answers the text `text` in the reply to the batch `jobs`.
  ghost predicate AnswersText(s: Setting, batchID: string, jobs: seq<Collecting.Job>, item: Item, d: JobResult) {
    var reply := ReplyTo(s, batchID, jobs);
    && reply.Ok? && reply.value.Some?
    && exists i: nat, k: nat ::
         && i < |jobs| && OwnAnswer(batchID, Submitted(s, jobs), reply.value.value.results, i, k, d)
         && Sent(batchID, Submitted(s, jobs))[i].text == item.text && Submitted(s, jobs)[i] == item
  }

  // A result that a job is sent is the remote side's answer to the job's own text: it
  // bears the caller's own id and, when that text is valid, only entities that the
  // extractor accepts for it.
  lemma AnswerIsOwn(cfg: Config, s: Setting, ws: seq<World>, acts: seq<Action>, n: nat, id: nat, d: JobResult)
    requires IsRun(cfg, ws, acts) && n < |acts| && Sends(cfg, s, ws, acts, n, id, d) && d.Ok?
    ensures acts[n].Dispatch? && Enabled(cfg, ws[n], acts[n])
    ensures AnswersText(s, BatchID(Number(acts, n)), News(cfg, ws[n], acts[n]), s.item(id), d)
    ensures d.value.chunkID == s.item(id).chunkID
    ensures Utf8.Valid(s.item(id).text) ==> AllInRange(|Utf8.Chars(s.item(id).text)|, d.value.entities)
  {
    var batchID, jobs := BatchID(Number(acts, n)), ws[n].collectors[acts[n].w].phase.batch;
    var i: nat :| Hands(s, batchID, jobs, i, id, d);
    HandedIsOwn(s, batchID, jobs, i, id, d);
  }

  lemma HandedIsOwn(s: Setting, batchID: string, jobs: seq<Collecting.Job>, i: nat, id: nat, d: JobResult)
    requires Hands(s, batchID, jobs, i, id, d) && d.Ok?
    ensures AnswersText(s, batchID, jobs, s.item(id), d)
    ensures d.value.chunkID == s.item(id).chunkID
    ensures Utf8.Valid(s.item(id).text) ==> AllInRange(|Utf8.Chars(s.item(id).text)|, d.value.entities)
  {
    var batch, reply := Submitted(s, jobs), ReplyTo(s, batchID, jobs);
    var k: nat :| k < |batch| && OwnAnswer(batchID, batch, reply.value.value.results, i, k, d);
    assert batch[i] == s.item(id) && Sent(batchID, batch)[i].text == batch[i].text;
    if Utf8.Valid(batch[i].text) {
      DeliveredIsDetectable(batchID, batch, reply, i, d);
    }
  }
}
