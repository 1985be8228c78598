/** What the service is for, end to end: mask once, unmask later. */
module Demasking {
  import opened Wrappers
  import opened Ordering
  import opened Pii
  import opened Tokens
  import opened Resolution
  import opened Tokenising
  import opened Merge
  import opened Plan
  import opened Apply
  import opened Detokenizer
  import opened Pipeline
  import opened Requests
  import opened Processor

  lemma SpliceHoldsFirstToken(text: string, pos: nat, rs: seq<Replacement>)
    requires Fits(text, pos, rs)
    ensures rs == [] ==> Splice(text, pos, rs) == text[pos..]
    ensures rs != [] ==> Occurs(Splice(text, pos, rs), rs[0].token)
  {
    if rs != [] {
      FitsTail(text, pos, rs);
      var t, head := rs[0].token, text[pos..rs[0].start];
      var s := Splice(text, pos, rs);
      assert s == head + t + Splice(text, rs[0].end, rs[1..]);
      assert OccursAt(s, t, |head|);
    }
  }

  // A masked text that differs from its original holds a token of its mappings.
  lemma MaskedTextHoldsToken(text: string, plan: seq<Replacement>, m: Masked)
    requires ApplySpec(text, plan, Ok(m)) && m.text != text
    ensures HoldsKnownToken(m.text, m.mappings)
  {
    var sorted: seq<Replacement> :| Permutation(sorted, plan) && Applicable(text, sorted) && Fits(text, 0, sorted)
                  && m == Masked(Splice(text, 0, sorted), MappingsOf(sorted));
    SpliceHoldsFirstToken(text, 0, sorted);
    assert text[0..] == text;
    assert m.mappings[0] == MappingOf(sorted[0]);
  }

  // The masker's part: what it says of the first request comes from some entities.
  ghost predicate MaskedFrom(payload: string, ml: seq<Entity>, backend: seq<Entity>, policy: Policy, m: Masked) {
    KnownKinds(ml) && KnownKinds(backend) && MaskSpec(payload, ml, backend, policy, m)
  }

  // The answer to the masked text `m.text` from the session it was stored in.
  ghost function Restored(payload: string, es: seq<Entity>, policy: Policy, allowed: bool): Result<string, Error> {
    if !allowed then Err(DemaskingDisabled)
    else if StrayInText(payload, es, policy) then Err(UnknownToken)
    else Ok(payload)
  }

  lemma DemaskedIsPayload(payload: string, ml: seq<Entity>, backend: seq<Entity>, policy: Policy, m: Masked,
                          allowed: bool)
    requires MaskedFrom(payload, ml, backend, policy, m) && m.text != payload
    ensures Demasked(m.text, m.mappings, allowed) == Restored(payload, ml + backend, policy, allowed)
  {
    var mlPlan, backendPlan, combined :|
      && BuildSpec(payload, ml, policy, Ok(mlPlan)) && BuildSpec(payload, backend, policy, Ok(backendPlan))
      && CombineSpec(payload, mlPlan + backendPlan, policy, Ok(combined))
      && ApplySpec(payload, combined, Ok(m));
    MaskedTextHoldsToken(payload, combined, m);
    MaskingIsReversible(payload, ml, backend, policy, m);
  }

  // In any run: when the masked text that the winner got comes back while the session
  // lives, by whatever interleaving, the answer is the winner's payload, or an unknown
  // token exactly when the payload itself held something token-shaped in a stretch
  // left unmasked, or a refusal when the policy forbids it. A masked text in which
  // nothing was masked is the payload, and so a retry.
  lemma MaskedTextComesBack(cfg: Config, ws: seq<World>, acts: seq<Action>, k: nat, i: nat, l: nat,
                            ml: seq<Entity>, backend: seq<Entity>, policy: Policy)
    requires IsRun(cfg, ws, acts) && k <= l < |acts|
    requires i < |ws[k].threads| && ws[k].threads[i].phase.Winner? && ws[k].threads[i].phase.response.Ok?
    requires acts[l].Look? && acts[l].i < |ws[l].threads|
    requires var first, back := ws[k].threads[i], ws[l].threads[acts[l].i];
      && MaskedFrom(first.req.payload, ml, backend, policy,
                    Masked(first.phase.response.value, first.phase.own.mappings))
      && back.req.payloadID == first.req.payloadID && back.req.payload == first.phase.response.value
      && Alive(first.phase.own, acts[l].at)
    ensures var first, back := ws[k].threads[i], ws[l].threads[acts[l].i];
      ws[l + 1].threads[acts[l].i].phase == Answered(
        if back.req.payload == first.req.payload then
          if SameKinds(first.req, back.req) then Ok(first.req.payload) else Err(PayloadIDConflict)
        else
          Restored(first.req.payload, ml + backend, policy, back.pol.detokenizationAllowed))
  {
    var first, back := ws[k].threads[i], ws[l].threads[acts[l].i];
    if back.req.payload == first.req.payload {
      RetryGivesFirstResponse(cfg, ws, acts, k, i, l);
    } else {
      LookFindsWinner(cfg, ws, acts, k, i, l);
      DemaskedIsPayload(first.req.payload, ml, backend, policy,
                        Masked(first.phase.response.value, first.phase.own.mappings),
                        back.pol.detokenizationAllowed);
    }
  }

  // ----- foreign tokens

  const FOREIGN := "<PHONE_1>"

  lemma ForeignIsToken()
    ensures TokenAt(FOREIGN, 0, |FOREIGN|)
  {
    assert FOREIGN[0..|FOREIGN|] == FOREIGN;
    var body := FOREIGN[1..|FOREIGN| - 1];
    assert |body| == 7 && forall i :: 0 <= i < 7 ==> body[i] == FOREIGN[i + 1];
    assert body[5] == '_' && body[6] == '1';
    assert AllKindChars(body[..5]) && AllDigits(body[6..]);
  }

  // A text that is itself a token, and in which nothing is found, masks to itself and
  // cannot be detokenized.
  lemma ForeignTokenIsRefused(policy: Policy) returns (m: Masked)
    ensures MaskedFrom(FOREIGN, [], [], policy, m) && m == Masked(FOREIGN, [])
    ensures DetokenizeSpec(m.text, m.mappings) == Err(UnknownToken)
  {
    m := Masked(FOREIGN, []);
    NothingToMask(FOREIGN, policy);
    ForeignIsToken();
    MaskingIsReversible(FOREIGN, [], [], policy, m);
    var nobody: seq<Entity> := [];
    assert forall p :: !AcceptedOver(nobody + nobody, policy, p);
    assert StrayInText(FOREIGN, nobody + nobody, policy);
  }

  lemma NothingToMask(text: string, policy: Policy)
    ensures MaskSpec(text, [], [], policy, Masked(text, []))
  {
    var none: seq<Replacement> := [];
    var nobody: seq<Entity> := [];
    assert Tokenised(text, none) == none && UntokenedAll(text, nobody) == none;
    assert BuildSpec(text, nobody, policy, Ok(none)) by {
      assert multiset(nobody) == multiset(nobody) && AcceptedEntities(policy, nobody) == [];
      assert none == Tokenised(text, UntokenedAll(text, AcceptedEntities(policy, nobody)));
    }
    assert CombineSpec(text, none + none, policy, Ok(none)) by {
      assert none + none == none && Accepted(policy, none) == none;
      assert Resolves(text, none, none) && InTextOrder(none);
    }
    assert ApplySpec(text, none, Ok(Masked(text, []))) by {
      assert Applicable(text, none) && Fits(text, 0, none) && MappingsOf(none) == [] && text[0..] == text;
      AppliesItself(text, none);
    }
  }
}
