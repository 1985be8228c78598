/** The session protocol: requests on one `payload_id` that run at the same time.

    A request reads the store, claims its id, masks, and stores the outcome. Every
    store access is one step; steps of different requests interleave freely, and the
    masker answers as it likes. */
module Processor {
  import opened Wrappers
  import opened Pii
  import opened Apply
  import opened Store
  import opened Requests

  // ----- one request, step by step

  datatype Phase =
    | Arrived
    | Missed                                            // the store had no session
    | Prepared(draft: Session)                          // the clock is read, the session built
    | Claimed(own: Session, since: int)                 // inserted at `since`; the masker runs
    | Masking(own: Session, since: int, outcome: Result<Masked, Error>)
    | Winner(own: Session, since: int, response: Result<string, Error>)  // `own` as last stored
    | Answered(response: Result<string, Error>)         // answered without ever claiming

  datatype Thread = Thread(req: Request, pol: Policy, phase: Phase)

  datatype World = World(store: State, clock: int, threads: seq<Thread>)

  datatype Config = Config(ttl: int, max: int)

  datatype Action =
    | Arrive(req: Request, pol: Policy)
    | Look(i: nat, at: int)
    | Prepare(i: nat, at: int, kinds: seq<string>)
    | Claim(i: nat, at: int)
    | Mask(i: nat, masked: Result<Masked, Error>)
    | Finish(i: nat, at: int)
    | Abandon(i: nat)                                   // the request's context ends

  function NewSession(req: Request, cfg: Config, now: int, kinds: seq<string>): Session {
    Session(req.payloadID, Digest(req.payload), [], Processing, now, Some(now + cfg.ttl),
            req.maskKindsSet, kinds)
  }

  // The session stored when the masker is done.
  function Stored(own: Session, outcome: Result<Masked, Error>): Session {
    match outcome
    case Ok(m) => own.(mappings := m.mappings, status := Ready)
    case Err(_) => own.(status := Failed)
  }

  ghost predicate HasPhase(w: World, i: nat) {
    i < |w.threads|
  }

  // The masker is nondeterministic; all that is known is that a masked text comes
  // from applying some plan to the payload.
  ghost predicate MaskerMay(payload: string, outcome: Result<Masked, Error>) {
    outcome.Ok? ==> exists plan :: ApplySpec(payload, plan, outcome)
  }

  ghost predicate Enabled(w: World, a: Action) {
    match a
    case Arrive(_, _) => true
    case Look(i, at) => HasPhase(w, i) && w.threads[i].phase.Arrived? && w.clock <= at
    case Prepare(i, at, kinds) =>
      && HasPhase(w, i) && w.threads[i].phase.Missed? && w.clock <= at
      && IsCanonical(w.threads[i].req.maskKinds, kinds)
    case Claim(i, at) => HasPhase(w, i) && w.threads[i].phase.Prepared? && w.clock <= at
    case Mask(i, masked) =>
      HasPhase(w, i) && w.threads[i].phase.Claimed? && MaskerMay(w.threads[i].req.payload, masked)
    case Finish(i, at) => HasPhase(w, i) && w.threads[i].phase.Masking? && w.clock <= at
    case Abandon(i) => HasPhase(w, i) && !w.threads[i].phase.Answered? && !w.threads[i].phase.Winner?
  }

  function SetPhase(w: World, i: nat, p: Phase): World
    requires i < |w.threads|
  {
    w.(threads := w.threads[i := w.threads[i].(phase := p)])
  }

  function Respond(outcome: Outcome, m: Result<Masked, Error>): Result<string, Error> {
    match m
    case Err(e) => Err(e)
    case Ok(masked) => if outcome.Failure? then Err(outcome.error) else Ok(masked.text)
  }

  ghost function Step(cfg: Config, w: World, a: Action): World
    requires Enabled(w, a)
  {
    match a
    case Arrive(req, pol) => w.(threads := w.threads + [Thread(req, pol, Arrived)])
    case Look(i, at) =>
      var t := w.threads[i];
      var (store, outcome) := Lazy(w.store, cfg.max, GetOp(t.req.payloadID), at);
      SetPhase(w.(store := store, clock := at), i,
               if outcome.Found? then Answered(Handled(t.req, outcome.session, t.pol)) else Missed)
    case Prepare(i, at, kinds) =>
      SetPhase(w.(clock := at), i, Prepared(NewSession(w.threads[i].req, cfg, at, kinds)))
    case Claim(i, at) =>
      var draft := w.threads[i].phase.draft;
      var (store, outcome) := Lazy(w.store, cfg.max, PutOp(Some(draft)), at);
      SetPhase(w.(store := store, clock := at), i,
               if outcome == Added(true) then Claimed(draft, at)
               else if outcome == Added(false) then Answered(Err(ProcessingInProgress))
               else Answered(Err(StoreUnavailable)))
    case Mask(i, masked) =>
      var p := w.threads[i].phase;
      SetPhase(w, i, Masking(p.own, p.since, masked))
    case Finish(i, at) =>
      var p := w.threads[i].phase;
      var session := Stored(p.own, p.outcome);
      var (store, outcome) := Lazy(w.store, cfg.max, UpdateOp(Some(session)), at);
      SetPhase(w.(store := store, clock := at), i,
               Winner(if outcome.Failure? then p.own else session, p.since, Respond(outcome, p.outcome)))
    case Abandon(i) =>
      var p := w.threads[i].phase;
      SetPhase(w, i, if p.Claimed? || p.Masking? then Winner(p.own, p.since, Err(Cancelled))
                     else Answered(Err(Cancelled)))
  }

  // A masking run that outlived its session ends while the id is alive again.
  ghost predicate Late(w: World, a: Action)
    requires Enabled(w, a)
  {
    && a.Finish? && IsExpired(w.threads[a.i].phase.own, a.at)
    && w.threads[a.i].req.payloadID in Live(w.store.sessions, a.at)
  }

  // ----- what holds at every moment

  predicate Claims(p: Phase) {
    p.Claimed? || p.Masking? || p.Winner?
  }

  predicate Alive(s: Session, t: int) {
    !IsExpired(s, t)
  }

  ghost predicate OwnMatches(t: Thread)
    requires Claims(t.phase)
  {
    && t.phase.own.payloadID == t.req.payloadID
    && t.phase.own.payloadHash == Digest(t.req.payload)
    && t.phase.own.maskKindsSet == t.req.maskKindsSet
    && IsCanonical(t.req.maskKinds, t.phase.own.maskKinds)
    && t.phase.own.expiresAt.Some?
  }

  // A thread's own record is what its request says, and is ready only with the
  // response given.
  ghost predicate ThreadOk(t: Thread)
    requires Claims(t.phase)
  {
    && OwnMatches(t)
    && t.phase.own.status != OtherStatus
    && (t.phase.own.status == Ready ==>
          && t.phase.Winner? && t.phase.response.Ok?
          && MaskerMay(t.req.payload, Ok(Masked(t.phase.response.value, t.phase.own.mappings))))
    && (t.phase.Winner? && t.phase.response.Ok? ==> t.phase.own.status == Ready)
    && (t.phase.Masking? ==> MaskerMay(t.req.payload, t.phase.outcome))
  }

  ghost predicate PreparedOk(t: Thread) {
    t.phase.Prepared? ==>
      && t.phase.draft.payloadID == t.req.payloadID
      && t.phase.draft.payloadHash == Digest(t.req.payload)
      && t.phase.draft.maskKindsSet == t.req.maskKindsSet
      && IsCanonical(t.req.maskKinds, t.phase.draft.maskKinds)
      && t.phase.draft.expiresAt.Some? && t.phase.draft.status == Processing
  }

  // What a thread claimed is in the store until it expires.
  ghost predicate Keeps(w: World, i: nat)
    requires i < |w.threads|
  {
    var t := w.threads[i];
    Claims(t.phase) ==>
      && ThreadOk(t) && t.phase.since <= w.clock
      && (Alive(t.phase.own, w.clock) ==>
            t.req.payloadID in w.store.sessions && w.store.sessions[t.req.payloadID] == t.phase.own)
  }

  // Lifetimes `[since, expiresAt)` of one id do not overlap.
  ghost predicate Apart(w: World, i: nat, j: nat)
    requires i < |w.threads| && j < |w.threads|
  {
    var s, t := w.threads[i], w.threads[j];
    Claims(s.phase) && Claims(t.phase) && s.req.payloadID == t.req.payloadID && i != j ==>
      IsExpired(s.phase.own, t.phase.since) || IsExpired(t.phase.own, s.phase.since)
  }

  // Every live session belongs to a thread.
  ghost predicate Owned(w: World, id: string) {
    id in w.store.sessions && Alive(w.store.sessions[id], w.clock) ==>
      exists i :: OwnedBy(w, id, i)
  }

  ghost predicate OwnedBy(w: World, id: string, i: int)
    requires id in w.store.sessions
  {
    && 0 <= i < |w.threads| && Claims(w.threads[i].phase)
    && w.threads[i].req.payloadID == id && w.threads[i].phase.own == w.store.sessions[id]
  }

  ghost predicate Inv(w: World) {
    && (forall i :: 0 <= i < |w.threads| ==> PreparedOk(w.threads[i]) && Keeps(w, i))
    && (forall i, j :: 0 <= i < |w.threads| && 0 <= j < |w.threads| ==> Apart(w, i, j))
    && (forall id :: Owned(w, id))
  }

  const START := World(Store.EMPTY, 0, [])

  // ----- one store operation, id by id

  predicate Writes(op: Op, outcome: Outcome, id: string) {
    || (op.PutOp? && op.session.Some? && op.session.value.payloadID == id && outcome == Added(true))
    || (op.UpdateOp? && op.session.Some? && op.session.value.payloadID == id && outcome == Done)
  }

  // Apart from the id it writes, an operation only ever drops expired sessions.
  ghost predicate OnlyDrops(before: map<string, Session>, after: map<string, Session>, op: Op,
                            outcome: Outcome, now: int) {
    && (forall id :: id in after && !Writes(op, outcome, id) ==> id in before && after[id] == before[id])
    && (forall id :: id in before && Alive(before[id], now) && !Writes(op, outcome, id) ==>
          id in after && after[id] == before[id])
  }

  lemma LazyOnlyDrops(st: State, max: int, op: Op, now: int)
    requires !op.DeleteOp?
    ensures var (st', outcome) := Lazy(st, max, op, now); OnlyDrops(st.sessions, st'.sessions, op, outcome, now)
  {
    match op {
      case GetOp(id) => GetOnlyDrops(st, max, id, now);
      case PutOp(None) =>
      case PutOp(Some(s)) => PutOnlyDrops(st, max, s, now);
      case UpdateOp(None) =>
      case UpdateOp(Some(s)) => UpdateOnlyDrops(st, max, s, now);
    }
  }

  lemma GetOnlyDrops(st: State, max: int, id: string, now: int)
    ensures var (st', outcome) := Lazy(st, max, GetOp(id), now);
      OnlyDrops(st.sessions, st'.sessions, GetOp(id), outcome, now)
  {
  }

  lemma UpdateOnlyDrops(st: State, max: int, s: Session, now: int)
    ensures var (st', outcome) := Lazy(st, max, UpdateOp(Some(s)), now);
      OnlyDrops(st.sessions, st'.sessions, UpdateOp(Some(s)), outcome, now)
  {
  }

  // The sweep drops expired sessions and nothing else.
  lemma SweepOnlyDrops(st: State, max: int, now: int)
    ensures forall id :: id in Swept(st, max, now).sessions ==>
      id in st.sessions && Swept(st, max, now).sessions[id] == st.sessions[id]
    ensures forall id :: id in st.sessions && Alive(st.sessions[id], now) ==> id in Swept(st, max, now).sessions
  {
  }

  lemma PutOnlyDrops(st: State, max: int, s: Session, now: int)
    ensures var (st', outcome) := Lazy(st, max, PutOp(Some(s)), now);
      OnlyDrops(st.sessions, st'.sessions, PutOp(Some(s)), outcome, now)
  {
    SweepOnlyDrops(st.(sessions := st.sessions - {s.payloadID}), max, now);
  }

  lemma ClaimTakesFreeId(st: State, max: int, s: Session, now: int)
    ensures var (st', outcome) := Lazy(st, max, PutOp(Some(s)), now);
      outcome == Added(true) ==>
        && (s.payloadID in st.sessions ==> IsExpired(st.sessions[s.payloadID], now))
        && s.payloadID in st'.sessions && st'.sessions[s.payloadID] == s
  {
  }

  lemma UpdateNeedsLiveSession(st: State, max: int, s: Session, now: int)
    ensures var (st', outcome) := Lazy(st, max, UpdateOp(Some(s)), now);
      && (outcome == Done <==> s.payloadID in st.sessions && Alive(st.sessions[s.payloadID], now))
      && (outcome == Done || outcome == Failure(SessionNotFound))
      && (outcome == Done ==> s.payloadID in st'.sessions && st'.sessions[s.payloadID] == s)
  {
  }

  // ----- every step keeps the invariant

  ghost predicate SameClaim(t: Thread, t': Thread) {
    && t.req == t'.req && Claims(t.phase) == Claims(t'.phase)
    && (Claims(t.phase) ==> t.phase.own == t'.phase.own && t.phase.since == t'.phase.since)
  }

  ghost predicate SameClaims(w: World, w': World) {
    && |w.threads| == |w'.threads| && w.clock <= w'.clock
    && (forall i :: 0 <= i < |w.threads| ==> SameClaim(w.threads[i], w'.threads[i]))
    && (forall id :: id in w'.store.sessions ==>
          id in w.store.sessions && w'.store.sessions[id] == w.store.sessions[id])
    && (forall id :: id in w.store.sessions && Alive(w.store.sessions[id], w'.clock) ==> id in w'.store.sessions)
  }

  // A step that neither claims nor stores keeps the invariant.
  lemma QuietStep(w: World, w': World)
    requires Inv(w) && SameClaims(w, w')
    requires forall i :: 0 <= i < |w'.threads| ==>
      PreparedOk(w'.threads[i]) && (Claims(w'.threads[i].phase) ==> ThreadOk(w'.threads[i]))
    ensures Inv(w')
  {
    forall i | 0 <= i < |w'.threads| ensures Keeps(w', i) {
      assert Keeps(w, i) && SameClaim(w.threads[i], w'.threads[i]);
    }
    forall i, j | 0 <= i < |w'.threads| && 0 <= j < |w'.threads| ensures Apart(w', i, j) {
      assert Apart(w, i, j) && SameClaim(w.threads[i], w'.threads[i]) && SameClaim(w.threads[j], w'.threads[j]);
    }
    forall id ensures Owned(w', id) {
      if id in w'.store.sessions && Alive(w'.store.sessions[id], w'.clock) {
        assert Owned(w, id);
        var i :| OwnedBy(w, id, i);
        assert SameClaim(w.threads[i], w'.threads[i]) && OwnedBy(w', id, i);
      }
    }
  }

  lemma ArriveKeepsInv(cfg: Config, w: World, a: Action)
    requires Inv(w) && a.Arrive?
    ensures Inv(Step(cfg, w, a))
  {
    var w' := Step(cfg, w, a);
    forall i | 0 <= i < |w'.threads| ensures PreparedOk(w'.threads[i]) && Keeps(w', i) {
      if i < |w.threads| {
        assert PreparedOk(w.threads[i]) && Keeps(w, i);
      }
    }
    forall i, j | 0 <= i < |w'.threads| && 0 <= j < |w'.threads| ensures Apart(w', i, j) {
      if i < |w.threads| && j < |w.threads| {
        assert Apart(w, i, j);
      }
    }
    forall id ensures Owned(w', id) {
      assert Owned(w, id);
      if id in w.store.sessions && Alive(w.store.sessions[id], w.clock) {
        var i :| OwnedBy(w, id, i);
        assert OwnedBy(w', id, i);
      }
    }
  }

  lemma QuietActionKeepsInv(cfg: Config, w: World, a: Action)
    requires Inv(w) && Enabled(w, a)
    requires a.Look? || a.Prepare? || a.Mask? || a.Abandon?
    ensures Inv(Step(cfg, w, a))
  {
    var w' := Step(cfg, w, a);
    if a.Look? {
      LazyOnlyDrops(w.store, cfg.max, GetOp(w.threads[a.i].req.payloadID), a.at);
    }
    forall k | 0 <= k < |w'.threads|
      ensures PreparedOk(w'.threads[k]) && (Claims(w'.threads[k].phase) ==> ThreadOk(w'.threads[k]))
    {
      assert PreparedOk(w.threads[k]) && Keeps(w, k);
    }
    QuietStep(w, w');
  }

  lemma ClaimKeepsInv(cfg: Config, w: World, a: Action)
    requires Inv(w) && Enabled(w, a) && a.Claim?
    ensures Inv(Step(cfg, w, a))
  {
    if Lazy(w.store, cfg.max, PutOp(Some(w.threads[a.i].phase.draft)), a.at).1 == Added(true) {
      AddedKeepsInv(cfg, w, a);
    } else {
      RefusedClaimKeepsInv(cfg, w, a);
    }
  }

  lemma RefusedClaimKeepsInv(cfg: Config, w: World, a: Action)
    requires Inv(w) && Enabled(w, a) && a.Claim?
    requires Lazy(w.store, cfg.max, PutOp(Some(w.threads[a.i].phase.draft)), a.at).1 != Added(true)
    ensures Inv(Step(cfg, w, a))
  {
    var w' := Step(cfg, w, a);
    LazyOnlyDrops(w.store, cfg.max, PutOp(Some(w.threads[a.i].phase.draft)), a.at);
    forall k | 0 <= k < |w'.threads|
      ensures PreparedOk(w'.threads[k]) && (Claims(w'.threads[k].phase) ==> ThreadOk(w'.threads[k]))
    {
      assert PreparedOk(w.threads[k]) && Keeps(w, k);
    }
    QuietStep(w, w');
  }

  lemma AddedKeepsInv(cfg: Config, w: World, a: Action)
    requires Inv(w) && Enabled(w, a) && a.Claim?
    requires Lazy(w.store, cfg.max, PutOp(Some(w.threads[a.i].phase.draft)), a.at).1 == Added(true)
    ensures Inv(Step(cfg, w, a))
  {
    var draft := w.threads[a.i].phase.draft;
    assert PreparedOk(w.threads[a.i]);
    LazyOnlyDrops(w.store, cfg.max, PutOp(Some(draft)), a.at);
    ClaimTakesFreeId(w.store, cfg.max, draft, a.at);
    StoredKeepsInv(w, Step(cfg, w, a), a.i, PutOp(Some(draft)), Added(true));
  }

  // The common part of a claim and of a final update: thread `i` now owns what its
  // id holds, and nobody else's session was alive there.
  lemma StoredKeepsInv(w: World, w': World, i: nat, op: Op, outcome: Outcome)
    requires Inv(w) && w.clock <= w'.clock && |w'.threads| == |w.threads| && i < |w.threads|
    requires forall k :: 0 <= k < |w.threads| && k != i ==> w'.threads[k] == w.threads[k]
    requires w'.threads[i].req == w.threads[i].req
    requires Claims(w'.threads[i].phase) && ThreadOk(w'.threads[i]) && w'.threads[i].phase.since <= w'.clock
    requires var id := w.threads[i].req.payloadID;
      && id in w'.store.sessions && w'.store.sessions[id] == w'.threads[i].phase.own
      && (forall other :: Writes(op, outcome, other) ==> other == id)
    requires OnlyDrops(w.store.sessions, w'.store.sessions, op, outcome, w'.clock)
    requires forall k :: 0 <= k < |w.threads| && k != i && Claims(w.threads[k].phase)
                         && w.threads[k].req.payloadID == w.threads[i].req.payloadID ==>
               && IsExpired(w.threads[k].phase.own, w'.clock)
               && (IsExpired(w.threads[k].phase.own, w'.threads[i].phase.since)
                   || IsExpired(w'.threads[i].phase.own, w.threads[k].phase.since))
    ensures Inv(w')
  {
    forall k | 0 <= k < |w'.threads| ensures PreparedOk(w'.threads[k]) && Keeps(w', k) {
      assert PreparedOk(w.threads[k]) && Keeps(w, k);
    }
    forall j, k | 0 <= j < |w'.threads| && 0 <= k < |w'.threads| ensures Apart(w', j, k) {
      assert Apart(w, j, k);
    }
    forall id ensures Owned(w', id) {
      assert Owned(w, id);
      if id == w.threads[i].req.payloadID {
        assert OwnedBy(w', id, i);
      } else if id in w'.store.sessions && Alive(w'.store.sessions[id], w'.clock) {
        var k :| OwnedBy(w, id, k);
        assert OwnedBy(w', id, k);
      }
    }
  }

  // A final update within the lifetime of the session.
  lemma PromptFinishKeepsInv(cfg: Config, w: World, a: Action)
    requires Inv(w) && Enabled(w, a) && a.Finish? && Alive(w.threads[a.i].phase.own, a.at)
    ensures Inv(Step(cfg, w, a))
  {
    var w' := Step(cfg, w, a);
    var t := w.threads[a.i];
    var session := Stored(t.phase.own, t.phase.outcome);
    assert Keeps(w, a.i);
    LazyOnlyDrops(w.store, cfg.max, UpdateOp(Some(session)), a.at);
    UpdateNeedsLiveSession(w.store, cfg.max, session, a.at);
    var outcome := Lazy(w.store, cfg.max, UpdateOp(Some(session)), a.at).1;
    assert outcome == Done;
    assert ThreadOk(w'.threads[a.i]);
    forall k | 0 <= k < |w.threads| && k != a.i && Claims(w.threads[k].phase)
               && w.threads[k].req.payloadID == t.req.payloadID
      ensures IsExpired(w.threads[k].phase.own, w'.clock)
      ensures IsExpired(w.threads[k].phase.own, t.phase.since) || IsExpired(t.phase.own, w.threads[k].phase.since)
    {
      assert Apart(w, k, a.i) && Keeps(w, k);
    }
    StoredKeepsInv(w, w', a.i, UpdateOp(Some(session)), outcome);
  }

  // A final update after it, with nothing alive under the id: it is refused.
  lemma RefusedFinishKeepsInv(cfg: Config, w: World, a: Action)
    requires Inv(w) && Enabled(w, a) && a.Finish? && IsExpired(w.threads[a.i].phase.own, a.at) && !Late(w, a)
    ensures Inv(Step(cfg, w, a))
  {
    var w' := Step(cfg, w, a);
    var t := w.threads[a.i];
    var session := Stored(t.phase.own, t.phase.outcome);
    assert Keeps(w, a.i);
    LazyOnlyDrops(w.store, cfg.max, UpdateOp(Some(session)), a.at);
    UpdateNeedsLiveSession(w.store, cfg.max, session, a.at);
    forall k | 0 <= k < |w'.threads|
      ensures PreparedOk(w'.threads[k]) && (Claims(w'.threads[k].phase) ==> ThreadOk(w'.threads[k]))
    {
      assert PreparedOk(w.threads[k]) && Keeps(w, k);
    }
    QuietStep(w, w');
  }

  lemma StepKeepsInv(cfg: Config, w: World, a: Action)
    requires Inv(w) && Enabled(w, a) && !Late(w, a)
    ensures Inv(Step(cfg, w, a))
  {
    match a {
      case Arrive(_, _) => ArriveKeepsInv(cfg, w, a);
      case Claim(_, _) => ClaimKeepsInv(cfg, w, a);
      case Finish(_, _) =>
        if Alive(w.threads[a.i].phase.own, a.at) {
          PromptFinishKeepsInv(cfg, w, a);
        } else {
          RefusedFinishKeepsInv(cfg, w, a);
        }
      case _ => QuietActionKeepsInv(cfg, w, a);
    }
  }

  // ----- over whole runs

  // `ws` are the worlds passed through, `acts` the steps between them; none is late.
  ghost predicate IsRun(cfg: Config, ws: seq<World>, acts: seq<Action>) {
    && |ws| == |acts| + 1 && ws[0] == START
    && forall k :: 0 <= k < |acts| ==> StepsTo(cfg, ws[k], acts[k], ws[k + 1])
  }

  ghost predicate StepsTo(cfg: Config, w: World, a: Action, w': World) {
    Enabled(w, a) && !Late(w, a) && w' == Step(cfg, w, a)
  }

  lemma {:induction false} InvAlways(cfg: Config, ws: seq<World>, acts: seq<Action>, k: nat)
    requires IsRun(cfg, ws, acts) && k < |ws|
    ensures Inv(ws[k])
  {
    if k > 0 {
      InvAlways(cfg, ws, acts, k - 1);
      assert StepsTo(cfg, ws[k - 1], acts[k - 1], ws[k]);
      StepKeepsInv(cfg, ws[k - 1], acts[k - 1]);
    }
  }

  // Whoever has won stays as it is; the clock and the list of requests only grow.
  ghost predicate Settled(w: World, w': World) {
    && w.clock <= w'.clock && |w.threads| <= |w'.threads|
    && forall i :: 0 <= i < |w.threads| && w.threads[i].phase.Winner? ==> w'.threads[i] == w.threads[i]
  }

  lemma {:induction false} WinnersStay(cfg: Config, ws: seq<World>, acts: seq<Action>, k: nat, l: nat)
    requires IsRun(cfg, ws, acts) && k <= l < |ws|
    ensures Settled(ws[k], ws[l])
    decreases l
  {
    if k < l {
      WinnersStay(cfg, ws, acts, k, l - 1);
      assert StepsTo(cfg, ws[l - 1], acts[l - 1], ws[l]);
    }
  }

  // At most one masking winner per session lifetime, in every interleaving: two
  // claims of one id never live at the same time.
  lemma AtMostOneWinner(cfg: Config, ws: seq<World>, acts: seq<Action>, k: nat, i: nat, j: nat)
    requires IsRun(cfg, ws, acts) && k < |ws|
    requires i < |ws[k].threads| && j < |ws[k].threads| && i != j
    requires Claims(ws[k].threads[i].phase) && Claims(ws[k].threads[j].phase)
    requires ws[k].threads[i].req.payloadID == ws[k].threads[j].req.payloadID
    ensures var p, q := ws[k].threads[i].phase, ws[k].threads[j].phase;
      IsExpired(p.own, q.since) || IsExpired(q.own, p.since)
  {
    InvAlways(cfg, ws, acts, k);
    assert Apart(ws[k], i, j);
  }

  // A READY session stays exactly as it is until it expires.
  lemma ReadyIsFinal(cfg: Config, ws: seq<World>, acts: seq<Action>, k: nat, l: nat, id: string)
    requires IsRun(cfg, ws, acts) && k <= l < |ws|
    requires id in ws[k].store.sessions && ws[k].store.sessions[id].status == Ready
    requires Alive(ws[k].store.sessions[id], ws[l].clock)
    ensures id in ws[l].store.sessions && ws[l].store.sessions[id] == ws[k].store.sessions[id]
  {
    InvAlways(cfg, ws, acts, k);
    InvAlways(cfg, ws, acts, l);
    WinnersStay(cfg, ws, acts, k, l);
    assert Owned(ws[k], id);
    var i :| OwnedBy(ws[k], id, i);
    assert Keeps(ws[k], i);
    assert Keeps(ws[l], i);
  }

  // A look at a live session finds it as its winner left it.
  lemma LookFindsWinner(cfg: Config, ws: seq<World>, acts: seq<Action>, k: nat, i: nat, l: nat)
    requires IsRun(cfg, ws, acts) && k <= l < |acts|
    requires i < |ws[k].threads| && ws[k].threads[i].phase.Winner? && ws[k].threads[i].phase.response.Ok?
    requires acts[l].Look? && acts[l].i < |ws[l].threads|
    requires ws[l].threads[acts[l].i].req.payloadID == ws[k].threads[i].req.payloadID
    requires Alive(ws[k].threads[i].phase.own, acts[l].at)
    ensures var own, t := ws[k].threads[i].phase.own, ws[l].threads[acts[l].i];
      && ThreadOk(ws[k].threads[i]) && own.status == Ready
      && ws[l + 1].threads[acts[l].i].phase == Answered(Handled(t.req, own, t.pol))
  {
    InvAlways(cfg, ws, acts, l);
    InvAlways(cfg, ws, acts, k);
    WinnersStay(cfg, ws, acts, k, l);
    assert StepsTo(cfg, ws[l], acts[l], ws[l + 1]);
    assert Keeps(ws[l], i) && Keeps(ws[k], i);
  }

  // A retry of the winner's request while its session lives, by whatever interleaving:
  // the first response again if it selects the same set of kinds, a conflict if not.
  lemma RetryGivesFirstResponse(cfg: Config, ws: seq<World>, acts: seq<Action>, k: nat, i: nat, l: nat)
    requires IsRun(cfg, ws, acts) && k <= l < |acts|
    requires i < |ws[k].threads| && ws[k].threads[i].phase.Winner? && ws[k].threads[i].phase.response.Ok?
    requires acts[l].Look? && acts[l].i < |ws[l].threads|
    requires var first, retry := ws[k].threads[i], ws[l].threads[acts[l].i];
      && retry.req.payloadID == first.req.payloadID && retry.req.payload == first.req.payload
      && Alive(first.phase.own, acts[l].at)
    ensures var first, retry := ws[k].threads[i], ws[l + 1].threads[acts[l].i];
      retry.phase == Answered(
        if SameKinds(first.req, retry.req) then Ok(first.phase.response.value) else Err(PayloadIDConflict))
  {
    var first := ws[k].threads[i];
    var own := first.phase.own;
    LookFindsWinner(cfg, ws, acts, k, i, l);
    var retry := ws[l].threads[acts[l].i];
    SelectionIsBySet(first.req, own, retry.req);
    var m := Masked(first.phase.response.value, own.mappings);
    var plan :| ApplySpec(first.req.payload, plan, Ok(m));
    RetryReproduces(first.req.payload, plan, m);
  }

  // Both requests leave the field out, or both name the same kinds, in any order
  // and any number of times.
  ghost predicate SameKinds(a: Request, b: Request) {
    && a.maskKindsSet == b.maskKindsSet
    && (a.maskKindsSet ==> forall k :: k in a.maskKinds <==> k in b.maskKinds)
  }

  lemma SelectionIsBySet(req: Request, own: Session, retry: Request)
    requires own.maskKindsSet == req.maskKindsSet && IsCanonical(req.maskKinds, own.maskKinds)
    ensures SameSelection(own, retry) <==> SameKinds(req, retry)
  {
  }
}
