/** What the session protocol promises its clients, in plain terms: how long a session
    lives, and what each later request under its id is answered. */
module Sessions {
  import opened Wrappers
  import opened Ordering
  import opened Pii
  import opened Tokens
  import opened Apply
  import opened Detokenizer
  import opened Merge
  import opened Plan
  import opened RoundTrip
  import opened Pipeline
  import opened MaskedText
  import opened Store
  import opened Requests
  import opened Processor
  import opened Demasking

  // ----- lifetimes

  // A session made at `at`, and what is known of it on the way to its answer.
  ghost predicate Dated(p: Phase, at: int, ttl: int) {
    match p
    case Arrived => false
    case Missed => false
    case Prepared(draft) => DatedSession(draft, at, ttl) && draft.status == Processing && draft.mappings == []
    case Claimed(own, _) => DatedSession(own, at, ttl) && own.status == Processing && own.mappings == []
    case Masking(own, _, _) => DatedSession(own, at, ttl) && own.status == Processing && own.mappings == []
    case Winner(own, _, response) =>
      && DatedSession(own, at, ttl) && (response.Ok? <==> own.status == Ready)
      && (response.Err? ==> own.status == Processing || own.status == Failed)
    case Answered(_) => true
  }

  predicate DatedSession(s: Session, at: int, ttl: int) {
    s.createdAt == at && s.expiresAt == Some(at + ttl)
  }

  lemma StepKeepsDates(cfg: Config, w: World, a: Action, i: nat, at: int)
    requires Enabled(w, a) && i < |w.threads| && Dated(w.threads[i].phase, at, cfg.ttl)
    ensures i < |Step(cfg, w, a).threads| && Dated(Step(cfg, w, a).threads[i].phase, at, cfg.ttl)
  {
    if a.Finish? && a.i == i {
      var p := w.threads[i].phase;
      UpdateNeedsLiveSession(w.store, cfg.max, Stored(p.own, p.outcome), a.at);
    }
  }

  lemma {:induction false} DatesStay(cfg: Config, ws: seq<World>, acts: seq<Action>, j: nat, k: nat, i: nat)
    requires IsRun(cfg, ws, acts) && j < k < |ws|
    requires acts[j].Prepare? && acts[j].i == i
    ensures i < |ws[k].threads| && Dated(ws[k].threads[i].phase, acts[j].at, cfg.ttl)
    decreases k
  {
    assert StepsTo(cfg, ws[k - 1], acts[k - 1], ws[k]);
    if j < k - 1 {
      DatesStay(cfg, ws, acts, j, k - 1, i);
      StepKeepsDates(cfg, ws[k - 1], acts[k - 1], i, acts[j].at);
    }
  }

  // Whoever claims has read the clock for it.
  lemma {:induction false} PreparedBefore(cfg: Config, ws: seq<World>, acts: seq<Action>, k: nat, i: nat)
    returns (j: nat)
    requires IsRun(cfg, ws, acts) && k < |ws| && i < |ws[k].threads|
    requires ws[k].threads[i].phase.Prepared? || Claims(ws[k].threads[i].phase)
    ensures j < k && acts[j].Prepare? && acts[j].i == i
  {
    assert StepsTo(cfg, ws[k - 1], acts[k - 1], ws[k]);
    if acts[k - 1].Prepare? && acts[k - 1].i == i {
      j := k - 1;
    } else {
      j := PreparedBefore(cfg, ws, acts, k - 1, i);
    }
  }

  // ----- looking at a session

  lemma LookFindsOwner(cfg: Config, ws: seq<World>, acts: seq<Action>, l: nat, i: nat)
    requires IsRun(cfg, ws, acts) && l < |acts|
    requires acts[l].Look? && acts[l].i < |ws[l].threads|
    requires i < |ws[l].threads| && Claims(ws[l].threads[i].phase)
    requires ws[l].threads[acts[l].i].req.payloadID == ws[l].threads[i].req.payloadID
    requires Alive(ws[l].threads[i].phase.own, acts[l].at)
    ensures var own, t := ws[l].threads[i].phase.own, ws[l].threads[acts[l].i];
      ws[l + 1].threads[acts[l].i].phase == Answered(Handled(t.req, own, t.pol))
  {
    InvAlways(cfg, ws, acts, l);
    assert StepsTo(cfg, ws[l], acts[l], ws[l + 1]);
    assert Keeps(ws[l], i);
  }

  // While the owner is at work a look is told so; a failed masking is remembered, and
  // one whose end was lost still counts as under way. `j` is where the owner read the clock.
  lemma LookAtUnready(cfg: Config, ws: seq<World>, acts: seq<Action>, j: nat, l: nat, i: nat)
    requires IsRun(cfg, ws, acts) && j < l < |acts|
    requires acts[j].Prepare? && acts[j].i == i
    requires acts[l].Look? && acts[l].i < |ws[l].threads|
    requires i < |ws[l].threads| && Claims(ws[l].threads[i].phase)
    requires ws[l].threads[acts[l].i].req.payloadID == ws[l].threads[i].req.payloadID
    requires acts[l].at < acts[j].at + cfg.ttl
    ensures var p, p' := ws[l].threads[i].phase, ws[l + 1].threads[acts[l].i].phase;
      && (p.Claimed? || p.Masking? ==> p' == Answered(Err(ProcessingInProgress)))
      && (p.Winner? && p.response.Err? ==>
            p' == Answered(Err(if p.own.status == Failed then DetectorUnavailable else ProcessingInProgress)))
  {
    DatesStay(cfg, ws, acts, j, l, i);
    LookFindsOwner(cfg, ws, acts, l, i);
  }

  // With no owner alive under its id, a look finds nothing.
  lemma LookAtNothing(cfg: Config, ws: seq<World>, acts: seq<Action>, l: nat)
    requires IsRun(cfg, ws, acts) && l < |acts|
    requires acts[l].Look? && acts[l].i < |ws[l].threads|
    requires forall i :: 0 <= i < |ws[l].threads| && Claims(ws[l].threads[i].phase)
                         && ws[l].threads[i].req.payloadID == ws[l].threads[acts[l].i].req.payloadID ==>
               ws[l].threads[i].phase.own.expiresAt.Some? && ws[l].threads[i].phase.own.expiresAt.value <= acts[l].at
    ensures ws[l + 1].threads[acts[l].i].phase == Missed
  {
    InvAlways(cfg, ws, acts, l);
    assert StepsTo(cfg, ws[l], acts[l], ws[l + 1]);
    LivingAreStored(ws[l], acts[l].at);
    var id := ws[l].threads[acts[l].i].req.payloadID;
    assert id !in LivingIds(ws[l], acts[l].at);
    assert id !in Live(ws[l].store.sessions, acts[l].at);
  }

  // A retry of the winner's request, within the time to live of the session: the first
  // response again if it selects the same set of kinds, a conflict if not.
  lemma RetryWithinLifetime(cfg: Config, ws: seq<World>, acts: seq<Action>, j: nat, k: nat, i: nat, l: nat)
    requires IsRun(cfg, ws, acts) && j < k <= l < |acts|
    requires acts[j].Prepare? && acts[j].i == i
    requires i < |ws[k].threads| && ws[k].threads[i].phase.Winner? && ws[k].threads[i].phase.response.Ok?
    requires acts[l].Look? && acts[l].i < |ws[l].threads|
    requires var first, retry := ws[k].threads[i].req, ws[l].threads[acts[l].i].req;
      retry.payloadID == first.payloadID && retry.payload == first.payload
    requires acts[l].at < acts[j].at + cfg.ttl
    ensures var first, retry := ws[k].threads[i], ws[l + 1].threads[acts[l].i];
      retry.phase == Answered(
        if SameKinds(first.req, retry.req) then Ok(first.phase.response.value) else Err(PayloadIDConflict))
  {
    DatesStay(cfg, ws, acts, j, k, i);
    RetryGivesFirstResponse(cfg, ws, acts, k, i, l);
  }

  // ----- another payload under the id of a session

  lemma AnswerToForeign(req: Request, s: Session, pol: Policy)
    requires s.status == Ready && s.payloadHash != Digest(req.payload)
    requires MappingsAgree(s.mappings)
    ensures
      var a := Handled(req, s, pol);
      var refused := !pol.detokenizationAllowed
                     && exists x :: x in s.mappings && x.token != "" && Occurs(req.payload, x.token);
      && a != Ok(req.payload)
      && (refused ==> a == Err(DemaskingDisabled))
      && (!refused ==> a == match DetokenizeSpec(req.payload, s.mappings)
                            case Err(e) => Err(e)
                            case Ok(text) => if text == req.payload then Err(PayloadIDConflict) else Ok(text))
      && (!refused && (forall i, j :: !TokenAt(req.payload, i, j)) ==> a == Err(PayloadIDConflict))
  {
    KnownAsMember(req.payload, s.mappings);
    if forall i, j :: !TokenAt(req.payload, i, j) {
      PlainTextStays(req.payload, Known(s.mappings));
    }
  }

  lemma KnownAsMember(payload: string, ms: seq<TokenMapping>)
    ensures HoldsKnownToken(payload, ms) <==> exists x :: x in ms && x.token != "" && Occurs(payload, x.token)
  {
    if x :| x in ms && x.token != "" && Occurs(payload, x.token) {
      var i :| 0 <= i < |ms| && ms[i] == x;
      assert ms[i].token != "" && Occurs(payload, ms[i].token);
    }
    if i :| 0 <= i < |ms| && ms[i].token != "" && Occurs(payload, ms[i].token) {
      assert ms[i] in ms;
    }
  }

  lemma AppliedMappingsAgree(text: string, plan: seq<Replacement>, m: Masked)
    requires ApplySpec(text, plan, Ok(m))
    ensures MappingsAgree(m.mappings)
  {
    var sorted: seq<Replacement> :| Permutation(sorted, plan) && Applicable(text, sorted) && Fits(text, 0, sorted)
                  && m == Masked(Splice(text, 0, sorted), MappingsOf(sorted));
    MappingsKnowTokens(sorted, Known(MappingsOf(sorted)));
  }

  // Another payload under the id of a ready session, in any run: it is never handed
  // back as it came. What it says is taken for masked text, and text in which no token
  // was replaced is a conflict.
  lemma ForeignPayloadIsNoRetry(cfg: Config, ws: seq<World>, acts: seq<Action>, j: nat, k: nat, i: nat, l: nat)
    requires IsRun(cfg, ws, acts) && j < k <= l < |acts|
    requires acts[j].Prepare? && acts[j].i == i
    requires i < |ws[k].threads| && ws[k].threads[i].phase.Winner? && ws[k].threads[i].phase.response.Ok?
    requires acts[l].Look? && acts[l].i < |ws[l].threads|
    requires var first, other := ws[k].threads[i].req, ws[l].threads[acts[l].i].req;
      other.payloadID == first.payloadID && other.payload != first.payload
    requires acts[l].at < acts[j].at + cfg.ttl
    ensures
      var ms, other := ws[k].threads[i].phase.own.mappings, ws[l].threads[acts[l].i];
      var p := ws[l + 1].threads[acts[l].i].phase;
      var payload := other.req.payload;
      var refused := !other.pol.detokenizationAllowed
                     && exists x :: x in ms && x.token != "" && Occurs(payload, x.token);
      && p.Answered? && p.response != Ok(payload)
      && (refused ==> p.response == Err(DemaskingDisabled))
      && (!refused ==> p.response == match DetokenizeSpec(payload, ms)
                                     case Err(e) => Err(e)
                                     case Ok(text) => if text == payload then Err(PayloadIDConflict) else Ok(text))
      && (!refused && (forall a, b :: !TokenAt(payload, a, b)) ==> p.response == Err(PayloadIDConflict))
  {
    DatesStay(cfg, ws, acts, j, k, i);
    LookFindsWinner(cfg, ws, acts, k, i, l);
    var first, own := ws[k].threads[i], ws[k].threads[i].phase.own;
    var m := Masked(first.phase.response.value, own.mappings);
    var plan :| ApplySpec(first.req.payload, plan, Ok(m));
    AppliedMappingsAgree(first.req.payload, plan, m);
    AnswerToForeign(ws[l].threads[acts[l].i].req, own, ws[l].threads[acts[l].i].pol);
  }

  lemma MaskerTokensAreShaped(payload: string, ml: seq<Entity>, backend: seq<Entity>, policy: Policy, m: Masked)
    requires MaskedFrom(payload, ml, backend, policy, m)
    ensures forall x :: x in m.mappings ==> TokenShaped(x.token)
  {
    var mlPlan, backendPlan, combined :|
      && BuildSpec(payload, ml, policy, Ok(mlPlan)) && BuildSpec(payload, backend, policy, Ok(backendPlan))
      && CombineSpec(payload, mlPlan + backendPlan, policy, Ok(combined))
      && ApplySpec(payload, combined, Ok(m));
    PlansTogether(payload, ml, backend, policy, mlPlan, backendPlan);
    var accepted := Accepted(policy, mlPlan + backendPlan);
    assert KnownKinds(ml + backend);
    AcceptedCoverage(payload, ml + backend, policy, accepted);
    CombinedPlanIsApplicable(payload, accepted, combined);
    MappingsArePieces(payload, combined, m);
  }

  lemma NothingShapedNothingKnown(payload: string, ms: seq<TokenMapping>)
    requires forall x :: x in ms ==> TokenShaped(x.token)
    requires forall a, b :: !TokenAt(payload, a, b)
    ensures forall x :: x in ms ==> !Occurs(payload, x.token)
  {
    forall x | x in ms ensures !Occurs(payload, x.token) {
      forall a | 0 <= a <= |payload| ensures !OccursAt(payload, x.token, a) {
        assert !TokenAt(payload, a, a + |x.token|);
      }
    }
  }

  // When the session comes from the masker, a payload that holds nothing token-shaped
  // is a conflict, whatever the policy says.
  lemma PlainPayloadConflicts(cfg: Config, ws: seq<World>, acts: seq<Action>, j: nat, k: nat, i: nat, l: nat,
                              ml: seq<Entity>, backend: seq<Entity>, policy: Policy)
    requires IsRun(cfg, ws, acts) && j < k <= l < |acts|
    requires acts[j].Prepare? && acts[j].i == i
    requires i < |ws[k].threads| && ws[k].threads[i].phase.Winner? && ws[k].threads[i].phase.response.Ok?
    requires var p := ws[k].threads[i].phase;
      MaskedFrom(ws[k].threads[i].req.payload, ml, backend, policy, Masked(p.response.value, p.own.mappings))
    requires acts[l].Look? && acts[l].i < |ws[l].threads|
    requires var first, other := ws[k].threads[i].req, ws[l].threads[acts[l].i].req;
      && other.payloadID == first.payloadID && other.payload != first.payload
      && forall a, b :: !TokenAt(other.payload, a, b)
    requires acts[l].at < acts[j].at + cfg.ttl
    ensures ws[l + 1].threads[acts[l].i].phase == Answered(Err(PayloadIDConflict))
  {
    var p, payload := ws[k].threads[i].phase, ws[l].threads[acts[l].i].req.payload;
    MaskerTokensAreShaped(ws[k].threads[i].req.payload, ml, backend, policy,
                          Masked(p.response.value, p.own.mappings));
    NothingShapedNothingKnown(payload, p.own.mappings);
    ForeignPayloadIsNoRetry(cfg, ws, acts, j, k, i, l);
  }

  // ----- making a session

  // The end of a masking run that is within its lifetime stores and answers what the
  // masker said; one that outlived it leaves the session as it was.
  lemma FinishSettles(cfg: Config, ws: seq<World>, acts: seq<Action>, j: nat, l: nat)
    requires IsRun(cfg, ws, acts) && j < l < |acts|
    requires acts[l].Finish? && acts[j].Prepare? && acts[j].i == acts[l].i
    ensures acts[l].i < |ws[l].threads| && ws[l].threads[acts[l].i].phase.Masking?
    ensures
      var p, p', id := ws[l].threads[acts[l].i].phase, ws[l + 1].threads[acts[l].i].phase,
                       ws[l].threads[acts[l].i].req.payloadID;
      if acts[l].at < acts[j].at + cfg.ttl then
        && p' == (match p.outcome
                  case Ok(m) => Winner(p.own.(mappings := m.mappings, status := Ready), p.since, Ok(m.text))
                  case Err(e) => Winner(p.own.(status := Failed), p.since, Err(e)))
        && id in ws[l + 1].store.sessions && ws[l + 1].store.sessions[id] == p'.own
      else
        p' == Winner(p.own, p.since, Err(if p.outcome.Err? then p.outcome.error else SessionNotFound))
  {
    DatesStay(cfg, ws, acts, j, l, acts[l].i);
    InvAlways(cfg, ws, acts, l);
    assert StepsTo(cfg, ws[l], acts[l], ws[l + 1]);
    assert Keeps(ws[l], acts[l].i);
    var p := ws[l].threads[acts[l].i].phase;
    UpdateNeedsLiveSession(ws[l].store, cfg.max, Stored(p.own, p.outcome), acts[l].at);
  }

  // The ids that have an owner alive at `at`.
  ghost function LivingIds(w: World, at: int): set<string> {
    set i | 0 <= i < |w.threads| && Claims(w.threads[i].phase) && w.threads[i].phase.own.expiresAt.Some?
            && at < w.threads[i].phase.own.expiresAt.value :: w.threads[i].req.payloadID
  }

  lemma LivingAreStored(w: World, at: int)
    requires Inv(w) && w.clock <= at
    ensures LivingIds(w, at) == Live(w.store.sessions, at).Keys
  {
    forall id | id in LivingIds(w, at) ensures id in Live(w.store.sessions, at) {
      var i :| 0 <= i < |w.threads| && Claims(w.threads[i].phase) && w.threads[i].phase.own.expiresAt.Some?
               && at < w.threads[i].phase.own.expiresAt.value && w.threads[i].req.payloadID == id;
      assert Keeps(w, i);
    }
    forall id | id in Live(w.store.sessions, at) ensures id in LivingIds(w, at) {
      assert Owned(w, id);
      var i :| OwnedBy(w, id, i);
      assert Keeps(w, i);
    }
  }

  // A claim succeeds exactly when nobody alive owns the id and there are fewer living
  // owners than the store may hold.
  lemma ClaimIsAnswered(cfg: Config, ws: seq<World>, acts: seq<Action>, l: nat)
    requires IsRun(cfg, ws, acts) && l < |acts| && acts[l].Claim?
    ensures acts[l].i < |ws[l].threads| && ws[l].threads[acts[l].i].phase.Prepared?
    ensures
      var t, p', living := ws[l].threads[acts[l].i], ws[l + 1].threads[acts[l].i].phase, LivingIds(ws[l], acts[l].at);
      p' == if t.req.payloadID in living then Answered(Err(ProcessingInProgress))
            else if |living| >= cfg.max then Answered(Err(StoreUnavailable))
            else Claimed(t.phase.draft, acts[l].at)
  {
    InvAlways(cfg, ws, acts, l);
    assert StepsTo(cfg, ws[l], acts[l], ws[l + 1]);
    LivingAreStored(ws[l], acts[l].at);
    var draft := ws[l].threads[acts[l].i].phase.draft;
    assert PreparedOk(ws[l].threads[acts[l].i]);
    LazyStepIsEager(ws[l].store, cfg.max, PutOp(Some(draft)), acts[l].at);
    var live := Live(ws[l].store.sessions, acts[l].at);
    assert |live| == |live.Keys|;
  }
}
