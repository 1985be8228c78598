/** One detector's replacement plan. */
module Plan {
  import opened Wrappers
  import opened Ordering
  import opened Pii
  import opened Allocation
  import opened Resolution
  import opened Tokenising
  import opened Merge
  import opened TokenBlind

  predicate EntityLess(a: Entity, b: Entity) {
    if a.start != b.start then a.start < b.start else a.end > b.end
  }

  ghost predicate AllValid(text: string, es: seq<Entity>) {
    forall e :: e in es ==> ValidSpan(text, e.start, e.end)
  }

  // The entities the policy lets through, in order.
  function AcceptedEntities(policy: Policy, es: seq<Entity>): (a: seq<Entity>)
    ensures forall e :: e in a <==> e in es && Accepts(policy, e.kind, e.confidence)
  {
    if es == [] then []
    else
      var init, e := es[..|es| - 1], es[|es| - 1];
      assert es == init + [e];
      if Accepts(policy, e.kind, e.confidence) then AcceptedEntities(policy, init) + [e]
      else AcceptedEntities(policy, init)
  }

  // What an entity asks for, before it has a token.
  function Untokened(text: string, e: Entity): Replacement {
    var original := if 0 <= e.start <= e.end <= |text| then text[e.start..e.end] else "";
    Replacement(e.start, e.end, "", original, e.kind, e.source, e.confidence)
  }

  function UntokenedAll(text: string, es: seq<Entity>): (rs: seq<Replacement>)
    ensures |rs| == |es|
  {
    seq(|es|, i requires 0 <= i < |es| => Untokened(text, es[i]))
  }

  ghost predicate BuildSpec(text: string, entities: seq<Entity>, policy: Policy,
                            result: Result<seq<Replacement>, Error>)
  {
    match result
    case Ok(plan) =>
      && AllValid(text, entities)
      && exists sorted :: && Permutation(sorted, entities) && Sorted(sorted, EntityLess)
                          && plan == Tokenised(text, UntokenedAll(text, AcceptedEntities(policy, sorted)))
    case Err(error) => !AllValid(text, entities) && error == InvalidSpan
  }

  lemma {:induction false} StateAfterPrefix(text: string, xs: seq<Replacement>, ys: seq<Replacement>, k: nat)
    requires k <= |xs|
    ensures StateAfter(text, xs + ys, k) == StateAfter(text, xs, k)
  {
    if k > 0 {
      StateAfterPrefix(text, xs, ys, k - 1);
    }
  }

  lemma TokenisedSnoc(text: string, xs: seq<Replacement>, x: Replacement)
    ensures StateAfter(text, xs + [x], |xs| + 1) == Allocated(text, StateAfter(text, xs, |xs|), x.kind, x.original)
    ensures Tokenised(text, xs + [x])
         == Tokenised(text, xs) + [x.(token := Lookup(StateAfter(text, xs + [x], |xs| + 1), x.kind, x.original))]
  {
    StateAfterPrefix(text, xs, [x], |xs|);
    forall i | 0 <= i < |xs| ensures Tokenised(text, xs + [x])[i] == Tokenised(text, xs)[i] {
      StateAfterPrefix(text, xs, [x], i + 1);
    }
  }

  // The plan and the allocator once the entities `es` are dealt with.
  ghost predicate PlannedFor(text: string, es: seq<Entity>, plan: seq<Replacement>, st: State) {
    var asked := UntokenedAll(text, es);
    plan == Tokenised(text, asked) && st == StateAfter(text, asked, |asked|)
  }

  lemma PlanNext(text: string, es: seq<Entity>, e: Entity, plan: seq<Replacement>, st: State)
    requires PlannedFor(text, es, plan, st) && ValidSpan(text, e.start, e.end)
    ensures var original := text[e.start..e.end];
      var st' := Allocated(text, st, e.kind, original);
      var r := Replacement(e.start, e.end, Lookup(st', e.kind, original), original, e.kind, e.source, e.confidence);
      PlannedFor(text, es + [e], plan + [r], st')
  {
    var asked := UntokenedAll(text, es);
    assert UntokenedAll(text, es + [e]) == asked + [Untokened(text, e)];
    TokenisedSnoc(text, asked, Untokened(text, e));
  }

  method BuildReplacementPlan(text: string, entities: seq<Entity>, policy: Policy)
    returns (result: Result<seq<Replacement>, Error>)
    ensures BuildSpec(text, entities, policy, result)
    ensures result.Ok? ==> forall r :: r in result.value ==>
      r.kind in policy.allowedKinds && r.confidence >= policy.minConfidence
  {
    var sorted := SortSlice(entities, EntityLess);
    PermutationMembers(sorted, entities);
    var allocator := new Allocator(text);
    var plan: seq<Replacement> := [];
    for i := 0 to |sorted|
      invariant allocator.text == text && fresh(allocator)
      invariant forall j :: 0 <= j < i ==> ValidSpan(text, sorted[j].start, sorted[j].end)
      invariant PlannedFor(text, AcceptedEntities(policy, sorted[..i]), plan, allocator.Abs())
    {
      var entity := sorted[i];
      if !ValidSpan(text, entity.start, entity.end) {
        assert entity in sorted;
        return Err(InvalidSpan);
      }
      AcceptedSnoc(policy, sorted, i);
      if entity.kind !in policy.allowedKinds {
        continue;
      }
      if entity.confidence < policy.minConfidence {
        continue;
      }
      var original := text[entity.start..entity.end];
      ghost var st, before := allocator.Abs(), AcceptedEntities(policy, sorted[..i]);
      var token := allocator.Allocate(entity.kind, original);
      PlanNext(text, before, entity, plan, st);
      plan := plan + [Replacement(entity.start, entity.end, token, original,
                                  entity.kind, entity.source, entity.confidence)];
      assert PlannedFor(text, before + [entity], plan, allocator.Abs());
    }
    assert sorted[..|sorted|] == sorted;
    PlanIsExplicit(text, entities, policy, plan);
    return Ok(plan);
  }

  lemma AcceptedSnoc(policy: Policy, es: seq<Entity>, i: nat)
    requires i < |es|
    ensures var before := AcceptedEntities(policy, es[..i]);
      AcceptedEntities(policy, es[..i + 1]) ==
        if Accepts(policy, es[i].kind, es[i].confidence) then before + [es[i]] else before
  {
    assert es[..i + 1][..i] == es[..i];
  }

  // ----- what the plan holds

  // `r` is what `e` asks for, up to the token.
  predicate Asks(text: string, e: Entity, r: Replacement) {
    Erase(r) == Untokened(text, e)
  }

  // Entry by entry, the plan is what the accepted entities ask for.
  lemma PlanEntry(text: string, accepted: seq<Entity>, i: nat)
    requires i < |accepted|
    ensures Asks(text, accepted[i], Tokenised(text, UntokenedAll(text, accepted))[i])
  {
  }

  lemma PlanIsSound(text: string, accepted: seq<Entity>)
    requires AllValid(text, accepted)
    ensures AllSound(text, Tokenised(text, UntokenedAll(text, accepted)))
  {
    var plan := Tokenised(text, UntokenedAll(text, accepted));
    forall r | r in plan ensures Sound(text, r) {
      var i :| 0 <= i < |plan| && plan[i] == r;
      PlanEntry(text, accepted, i);
      assert accepted[i] in accepted;
    }
  }

  // Up to tokens, `plan` holds exactly what the accepted ones of `entities` ask for.
  ghost predicate HoldsExactly(text: string, entities: seq<Entity>, policy: Policy, plan: seq<Replacement>) {
    forall u :: u in EraseAll(plan) <==>
      exists e :: e in entities && Accepts(policy, e.kind, e.confidence) && Untokened(text, e) == u
  }

  // The plan holds exactly what the accepted entities ask for, and passes the entry checks.
  lemma PlanHoldsAccepted(text: string, entities: seq<Entity>, policy: Policy, plan: seq<Replacement>)
    requires BuildSpec(text, entities, policy, Ok(plan))
    ensures AllSound(text, plan) && HoldsExactly(text, entities, policy, plan)
  {
    var sorted :| Permutation(sorted, entities) && Sorted(sorted, EntityLess)
                  && plan == Tokenised(text, UntokenedAll(text, AcceptedEntities(policy, sorted)));
    PermutationMembers(sorted, entities);
    var accepted := AcceptedEntities(policy, sorted);
    PlanIsSound(text, accepted);
    forall u | u in EraseAll(plan)
      ensures exists e :: e in entities && Accepts(policy, e.kind, e.confidence) && Untokened(text, e) == u
    {
      var i :| 0 <= i < |plan| && EraseAll(plan)[i] == u;
      PlanEntry(text, accepted, i);
      assert accepted[i] in accepted;
    }
    forall e | e in entities && Accepts(policy, e.kind, e.confidence) ensures Untokened(text, e) in EraseAll(plan) {
      assert e in accepted;
      var i :| 0 <= i < |accepted| && accepted[i] == e;
      PlanEntry(text, accepted, i);
      assert EraseAll(plan)[i] == Untokened(text, e);
    }
  }

  lemma {:induction false} AcceptedStaySorted(policy: Policy, es: seq<Entity>)
    requires Sorted(es, EntityLess)
    ensures Sorted(AcceptedEntities(policy, es), EntityLess)
  {
    if es != [] {
      var n := |es| - 1;
      AcceptedStaySorted(policy, es[..n]);
      forall e | e in AcceptedEntities(policy, es[..n]) ensures !EntityLess(es[n], e) {
        assert e in es[..n];
      }
    }
  }

  // The plan in terms of the policy's own fields: an entry for every detection of an
  // allowed kind that is confident enough and for nothing else, by start, and of two
  // that start together the longer first.
  lemma PlanIsExplicit(text: string, entities: seq<Entity>, policy: Policy, plan: seq<Replacement>)
    requires BuildSpec(text, entities, policy, Ok(plan))
    ensures forall i, j :: 0 <= i < j < |plan| ==>
      plan[i].start < plan[j].start || (plan[i].start == plan[j].start && plan[i].end >= plan[j].end)
    ensures forall r :: r in plan ==> exists e :: e in entities && Entered(text, e, policy, r)
    ensures forall e :: e in entities && e.kind in policy.allowedKinds && e.confidence >= policy.minConfidence ==>
      exists r :: r in plan && Entered(text, e, policy, r)
  {
    var sorted :| Permutation(sorted, entities) && Sorted(sorted, EntityLess)
                  && plan == Tokenised(text, UntokenedAll(text, AcceptedEntities(policy, sorted)));
    PermutationMembers(sorted, entities);
    var accepted := AcceptedEntities(policy, sorted);
    AcceptedStaySorted(policy, sorted);
    forall i | 0 <= i < |plan| ensures accepted[i] in entities && Entered(text, accepted[i], policy, plan[i]) {
      PlanEntry(text, accepted, i);
      assert accepted[i] in accepted;
    }
    forall i, j | 0 <= i < j < |plan|
      ensures plan[i].start < plan[j].start || (plan[i].start == plan[j].start && plan[i].end >= plan[j].end)
    {
      assert !EntityLess(accepted[j], accepted[i]);
      assert Entered(text, accepted[i], policy, plan[i]) && Entered(text, accepted[j], policy, plan[j]);
    }
    forall e | e in entities && e.kind in policy.allowedKinds && e.confidence >= policy.minConfidence
      ensures exists r :: r in plan && Entered(text, e, policy, r)
    {
      assert e in accepted;
      var i :| 0 <= i < |accepted| && accepted[i] == e;
      assert plan[i] in plan && Entered(text, e, policy, plan[i]);
    }
  }

  // `r` hides `e`, which is wanted.
  predicate Entered(text: string, e: Entity, policy: Policy, r: Replacement) {
    && e.kind in policy.allowedKinds && e.confidence >= policy.minConfidence
    && 0 <= e.start < e.end <= |text|
    && r == Replacement(e.start, e.end, r.token, text[e.start..e.end], e.kind, e.source, e.confidence)
  }
}
