/** One request run through the processor from end to end, with nothing in between. */
module Service {
  import opened Wrappers
  import opened Pii
  import opened Apply
  import opened Store
  import opened Requests
  import opened Processor
  import opened Merge
  import opened Plan
  import opened Resolution
  import opened Pipeline
  import opened MaskedText

  // What a lone request does to the store and answers: the steps of the protocol,
  // one after the other.
  ghost predicate ProcessSpec(cfg: Config, before: State, req: Request, pol: Policy, at: seq<int>,
                              outcome: Result<Masked, Error>, after: State, response: Result<string, Error>)
    requires |at| == 4
  {
    var (st1, looked) := Lazy(before, cfg.max, GetOp(req.payloadID), at[0]);
    if looked.Found? then
      after == st1 && response == Handled(req, looked.session, pol)
    else
      exists kinds :: IsCanonical(req.maskKinds, kinds) && ClaimSpec(cfg, st1, req, kinds, at, outcome, after, response)
  }

  ghost predicate ClaimSpec(cfg: Config, st1: State, req: Request, kinds: seq<string>, at: seq<int>,
                            outcome: Result<Masked, Error>, after: State, response: Result<string, Error>)
    requires |at| == 4
  {
    var draft := NewSession(req, cfg, at[1], kinds);
    var (st2, claimed) := Lazy(st1, cfg.max, PutOp(Some(draft)), at[2]);
    if claimed == Added(true) then
      var (st3, stored) := Lazy(st2, cfg.max, UpdateOp(Some(Stored(draft, outcome))), at[3]);
      after == st3 && response == Respond(stored, outcome)
    else
      && after == st2
      && response == Err(if claimed == Added(false) then ProcessingInProgress else StoreUnavailable)
  }

  // The part of `Process` behind the policy. `at` are the readings of the clock, and
  // `outcome` is what the masker says if it is asked.
  method Serve(store: MemoryStore, cfg: Config, req: Request, pol: Policy, at: seq<int>,
                 outcome: Result<Masked, Error>)
    returns (response: Result<string, Error>)
    requires |at| == 4 && store.maxSessions == cfg.max
    modifies store
    ensures ProcessSpec(cfg, old(store.Abs()), req, pol, at, outcome, store.Abs(), response)
  {
    var looked := store.Get(req.payloadID, at[0]);
    if looked.Found? {
      response := HandleExisting(req, looked.session, pol);
      return;
    }
    var kinds := CanonicalMaskKinds(req.maskKinds);
    ghost var st1 := store.Abs();
    var draft := NewSession(req, cfg, at[1], kinds);
    var claimed := store.PutIfAbsent(Some(draft), at[2]);
    if claimed.Failure? {
      assert ClaimSpec(cfg, st1, req, kinds, at, outcome, store.Abs(), Err(claimed.error));
      return Err(claimed.error);
    }
    if !claimed.added {
      assert ClaimSpec(cfg, st1, req, kinds, at, outcome, store.Abs(), Err(ProcessingInProgress));
      return Err(ProcessingInProgress);
    }
    if outcome.Err? {
      var failed := draft.(status := Failed);
      var ignored := store.Update(Some(failed), at[3]);
      assert ClaimSpec(cfg, st1, req, kinds, at, outcome, store.Abs(), Err(outcome.error));
      return Err(outcome.error);
    }
    var ready := draft.(mappings := outcome.value.mappings, status := Ready);
    var stored := store.Update(Some(ready), at[3]);
    response := if stored.Failure? then Err(stored.error) else Ok(outcome.value.text);
    assert ClaimSpec(cfg, st1, req, kinds, at, outcome, store.Abs(), response);
  }

  // The policy a request is served under: the request may narrow it to its kinds.
  function Narrowed(pol: Policy, req: Request): Policy {
    if req.maskKindsSet then pol.(allowedKinds := set k | k in req.maskKinds) else pol
  }

  // A request that gets no further than its policy.
  ghost predicate TurnedAway(policy: Result<Policy, Error>, req: Request, response: Result<string, Error>) {
    && response.Err?
    && match policy
       case Err(e) => response.error == e
       case Ok(pol) =>
         req.maskKindsSet && exists i :: 0 <= i < |req.maskKinds| && FirstRefused(pol, req.maskKinds, i, response.error)
  }

  // `policy` is what the provider says for the consumer; `masker` is asked with the
  // narrowed policy.
  method Process(store: MemoryStore, cfg: Config, req: Request, policy: Result<Policy, Error>, at: seq<int>,
                 masker: (string, Policy) -> Result<Masked, Error>)
    returns (response: Result<string, Error>)
    requires |at| == 4 && store.maxSessions == cfg.max
    modifies store
    ensures policy.Ok? && (req.maskKindsSet ==> Grantable(policy.value, req.maskKinds)) ==>
      var pol := Narrowed(policy.value, req);
      ProcessSpec(cfg, old(store.Abs()), req, pol, at, masker(req.payload, pol), store.Abs(), response)
    ensures !(policy.Ok? && (req.maskKindsSet ==> Grantable(policy.value, req.maskKinds))) ==>
      TurnedAway(policy, req, response) && store.Abs() == old(store.Abs())
  {
    if policy.Err? {
      return Err(policy.error);
    }
    var pol := policy.value;
    if req.maskKindsSet {
      var narrowed := ApplyMaskKinds(pol, req.maskKinds);
      if narrowed.Err? {
        return Err(narrowed.error);
      }
      pol := narrowed.value;
      assert pol.allowedKinds == Narrowed(policy.value, req).allowedKinds;
    }
    response := Serve(store, cfg, req, pol, at, masker(req.payload, pol));
  }

  // `acts` lead from `w` to a world whose first thread has its answer.
  ghost predicate Leads(cfg: Config, w: World, acts: seq<Action>, after: State, response: Result<string, Error>)
    decreases |acts|
  {
    if acts == [] then
      && w.store == after && |w.threads| == 1
      && ((w.threads[0].phase.Answered? && w.threads[0].phase.response == response)
          || (w.threads[0].phase.Winner? && w.threads[0].phase.response == response))
    else
      Enabled(w, acts[0]) && Leads(cfg, Step(cfg, w, acts[0]), acts[1..], after, response)
  }

  lemma LeadsFrom(cfg: Config, w: World, a: Action, acts: seq<Action>, after: State, response: Result<string, Error>)
    requires Enabled(w, a) && Leads(cfg, Step(cfg, w, a), acts, after, response)
    ensures Leads(cfg, w, [a] + acts, after, response)
  {
    assert ([a] + acts)[1..] == acts;
  }

  // From the inserted session on.
  lemma ClaimedRun(cfg: Config, w: World, at: int, outcome: Result<Masked, Error>,
                   after: State, response: Result<string, Error>) returns (acts: seq<Action>)
    requires |w.threads| == 1 && w.threads[0].phase.Claimed? && w.clock <= at
    requires MaskerMay(w.threads[0].req.payload, outcome)
    requires var (st, stored) := Lazy(w.store, cfg.max, UpdateOp(Some(Stored(w.threads[0].phase.own, outcome))), at);
      after == st && response == Respond(stored, outcome)
    ensures Leads(cfg, w, acts, after, response)
  {
    var mask, finish := Mask(0, outcome), Finish(0, at);
    var w1 := Step(cfg, w, mask);
    var w2 := Step(cfg, w1, finish);
    assert Leads(cfg, w2, [], after, response);
    LeadsFrom(cfg, w1, finish, [], after, response);
    LeadsFrom(cfg, w, mask, [finish] + [], after, response);
    acts := [mask] + ([finish] + []);
  }

  // From the miss on.
  lemma MissedRun(cfg: Config, w: World, kinds: seq<string>, at: seq<int>, outcome: Result<Masked, Error>,
                  after: State, response: Result<string, Error>) returns (acts: seq<Action>)
    requires |w.threads| == 1 && w.threads[0].phase.Missed? && |at| == 4
    requires w.clock <= at[1] <= at[2] <= at[3]
    requires MaskerMay(w.threads[0].req.payload, outcome) && IsCanonical(w.threads[0].req.maskKinds, kinds)
    requires ClaimSpec(cfg, w.store, w.threads[0].req, kinds, at, outcome, after, response)
    ensures Leads(cfg, w, acts, after, response)
  {
    var prepare, claim := Prepare(0, at[1], kinds), Claim(0, at[2]);
    var w1 := Step(cfg, w, prepare);
    var w2 := Step(cfg, w1, claim);
    var rest: seq<Action> := [];
    if w2.threads[0].phase.Claimed? {
      rest := ClaimedRun(cfg, w2, at[3], outcome, after, response);
    }
    LeadsFrom(cfg, w1, claim, rest, after, response);
    LeadsFrom(cfg, w, prepare, [claim] + rest, after, response);
    acts := [prepare] + ([claim] + rest);
  }

  // The same steps, taken in the protocol by the one thread of a world that
  // otherwise stands still, end in the same store and the same answer.
  lemma ProcessIsProtocolRun(cfg: Config, before: State, req: Request, pol: Policy, at: seq<int>,
                             outcome: Result<Masked, Error>, after: State, response: Result<string, Error>)
    requires |at| == 4 && 0 <= at[0] <= at[1] <= at[2] <= at[3]
    requires MaskerMay(req.payload, outcome)
    requires ProcessSpec(cfg, before, req, pol, at, outcome, after, response)
    ensures exists acts :: Leads(cfg, World(before, 0, [Thread(req, pol, Arrived)]), acts, after, response)
  {
    var w := World(before, 0, [Thread(req, pol, Arrived)]);
    var look := Look(0, at[0]);
    var w1 := Step(cfg, w, look);
    var rest: seq<Action> := [];
    if w1.threads[0].phase.Missed? {
      var kinds :| IsCanonical(req.maskKinds, kinds)
                   && ClaimSpec(cfg, w1.store, req, kinds, at, outcome, after, response);
      rest := MissedRun(cfg, w1, kinds, at, outcome, after, response);
    }
    LeadsFrom(cfg, w, look, rest, after, response);
  }

  // What the kinds of a request do to the text: with the field left out, every kind of
  // the consumer's policy is hidden; with the field given, only what it names is, and
  // all of it.
  lemma OnlyRequestedKindsAreHidden(req: Request, policy: Policy, text: string, ml: seq<Entity>, backend: seq<Entity>,
                                    m: Masked, p: int)
    requires req.maskKindsSet ==> Grantable(policy, req.maskKinds)
    requires MaskSpec(text, ml, backend, Narrowed(policy, req), m)
    ensures (exists x :: x in m.mappings && x.start <= p < x.end)
      <==> (exists e :: e in ml + backend && e.kind in policy.allowedKinds
                        && (req.maskKindsSet ==> e.kind in req.maskKinds)
                        && e.confidence >= policy.minConfidence && e.start <= p < e.end)
  {
    HiddenExactly(text, ml, backend, Narrowed(policy, req), m, p);
  }
}
