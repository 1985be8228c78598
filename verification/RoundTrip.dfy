/** Masking a text and taking the tokens out again. */
module RoundTrip {
  import opened Wrappers
  import opened Ordering
  import opened Pii
  import opened Sequences
  import opened Tokens
  import opened Resolution
  import opened Tokenising
  import opened Merge
  import opened Apply
  import opened Detokenizer

  // A token-shaped part of `text[pos..]` that no replacement touches.
  ghost predicate StrayAt(text: string, pos: nat, rs: seq<Replacement>, i: int, j: int) {
    && pos <= i && TokenAt(text, i, j)
    && forall r :: r in rs ==> j <= r.start || r.end <= i
  }

  ghost predicate HasStray(text: string, pos: nat, rs: seq<Replacement>) {
    exists i, j :: StrayAt(text, pos, rs, i, j)
  }

  ghost predicate TokenWithin(text: string, a: int, b: int) {
    exists i, j :: a <= i && j <= b && TokenAt(text, i, j)
  }

  // The tokens of a plan for `text`: well shaped, absent from the text, each known
  // for what it hides.
  ghost predicate SafeTokens(text: string, rs: seq<Replacement>, known: map<string, string>) {
    && (forall t :: t in known ==> !Occurs(text, t))
    && (forall r :: r in rs ==> TokenShaped(r.token) && r.token in known && known[r.token] == r.original)
  }

  // A stretch left unmasked comes back as it is, unless it holds something token-shaped.
  lemma StretchStays(text: string, a: nat, b: nat, known: map<string, string>)
    requires a <= b <= |text|
    requires forall t :: t in known ==> !Occurs(text, t)
    ensures Restore(text[a..b], known) ==
      if TokenWithin(text, a, b) then Err(UnknownToken) else Ok(text[a..b])
  {
    var s := text[a..b];
    forall i, j | TokenAt(s, i, j) ensures s[i..j] !in known && TokenAt(text, a + i, a + j) {
      SliceOfSlice(text, a, b, i, j);
      assert OccursAt(text, s[i..j], a + i);
    }
    FailsOnUnknown(s, known);
    if i, j :| a <= i && j <= b && TokenAt(text, i, j) {
      SliceOfSlice(text, a, b, i - a, j - a);
      assert TokenAt(s, i - a, j - a);
    } else {
      forall i, j ensures !TokenAt(s, i, j) {
        assert TokenAt(s, i, j) ==> TokenAt(text, a + i, a + j);
      }
      PlainTextStays(s, known);
    }
  }

  lemma StrayStep(text: string, pos: nat, rs: seq<Replacement>)
    requires Fits(text, pos, rs) && rs != []
    requires rs[0] in rs && Fits(text, rs[0].end, rs[1..])
    ensures HasStray(text, pos, rs) <==>
              || TokenWithin(text, pos, rs[0].start)
              || HasStray(text, rs[0].end, rs[1..])
  {
    forall i, j | StrayAt(text, pos, rs, i, j)
      ensures j <= rs[0].start || StrayAt(text, rs[0].end, rs[1..], i, j)
    {
      assert forall r :: r in rs[1..] ==> r in rs;
    }
    forall i, j | pos <= i && j <= rs[0].start && TokenAt(text, i, j) ensures StrayAt(text, pos, rs, i, j) {
      assert forall r :: r in rs ==> r == rs[0] || r in rs[1..];
    }
    forall i, j | StrayAt(text, rs[0].end, rs[1..], i, j) ensures StrayAt(text, pos, rs, i, j) {
      assert forall r :: r in rs ==> r == rs[0] || r in rs[1..];
    }
  }

  // One step from the back: the text behind the first token is restored already.
  lemma RestoreHead(text: string, pos: nat, r: Replacement, rest: string, stray: bool, known: map<string, string>)
    requires pos <= r.start <= r.end <= |text|
    requires forall t :: t in known ==> !Occurs(text, t)
    requires TokenShaped(r.token) && r.token in known && known[r.token] == text[r.start..r.end]
    requires Restore(rest, known) == if stray then Err(UnknownToken) else Ok(text[r.end..])
    ensures Restore(text[pos..r.start] + r.token + rest, known) ==
      if stray || TokenWithin(text, pos, r.start) then Err(UnknownToken) else Ok(text[pos..])
  {
    StretchStays(text, pos, r.start, known);
    RestoreAroundToken(text[pos..r.start], r.token, rest, known);
    WholeFromParts(text, pos, r.start, r.end);
  }

  lemma WholeFromParts(text: string, a: nat, b: nat, c: nat)
    requires a <= b <= c <= |text|
    ensures text[a..] == text[a..b] + (text[b..c] + text[c..])
  {
  }

  // Taking the tokens out of a masked text gives the text back, or fails on a
  // token-shaped part the masking left alone; it never gives another text.
  lemma {:induction false} RestoreUndoesSplice(text: string, pos: nat, rs: seq<Replacement>, known: map<string, string>)
    requires Fits(text, pos, rs) && SafeTokens(text, rs, known)
    requires forall r :: r in rs ==> r.original == text[r.start..r.end]
    ensures Restore(Splice(text, pos, rs), known) ==
      if HasStray(text, pos, rs) then Err(UnknownToken) else Ok(text[pos..])
    decreases |rs|
  {
    if rs == [] {
      StretchStays(text, pos, |text|, known);
      assert text[pos..|text|] == text[pos..];
      NoneTouched(text, pos);
    } else {
      FitsTail(text, pos, rs);
      RestoreUndoesSplice(text, rs[0].end, rs[1..], known);
      RestoreHead(text, pos, rs[0], Splice(text, rs[0].end, rs[1..]), HasStray(text, rs[0].end, rs[1..]), known);
      StrayStep(text, pos, rs);
    }
  }

  lemma NoneTouched(text: string, pos: nat)
    ensures HasStray(text, pos, []) <==> TokenWithin(text, pos, |text|)
  {
    forall i, j ensures StrayAt(text, pos, [], i, j) <==> pos <= i && j <= |text| && TokenAt(text, i, j) {
    }
  }

  // ----- the whole plan

  lemma MappingsKnowTokens(rs: seq<Replacement>, known: map<string, string>)
    requires TokensAgree(rs) && known == Known(MappingsOf(rs))
    ensures MappingsAgree(MappingsOf(rs))
    ensures forall t :: t in known ==> exists i :: 0 <= i < |rs| && rs[i].token == t
    ensures forall i :: 0 <= i < |rs| ==> rs[i].token in known && known[rs[i].token] == rs[i].original
  {
    var ms := MappingsOf(rs);
    KnownTokens(ms);
    forall t | t in known ensures exists i :: 0 <= i < |rs| && rs[i].token == t && rs[i].original == known[t] {
      var m :| m in ms && m.token == t && m.original == known[t];
      var i :| 0 <= i < |ms| && ms[i] == m;
      assert rs[i].token == t;
    }
    forall i | 0 <= i < |rs| ensures rs[i].token in known && known[rs[i].token] == rs[i].original {
      assert ms[i] == MappingOf(rs[i]) && ms[i].token in known;
      var k :| 0 <= k < |rs| && rs[k].token == rs[i].token && rs[k].original == known[rs[i].token];
    }
  }

  ghost predicate WellFormedKinds(rs: seq<Replacement>) {
    forall r :: r in rs ==> WellFormedKind(r.kind)
  }

  // What is in place `i` of a combined plan.
  lemma PlannedPiece(text: string, accepted: seq<Replacement>, pieces: seq<Replacement>, i: nat)
    requires AllSound(text, accepted) && WellFormedKinds(accepted)
    requires Resolves(text, accepted, pieces) && i < |pieces|
    ensures var r := Tokenised(text, pieces)[i];
      && r == pieces[i].(token := r.token) && WellFormedKind(r.kind)
      && TokenShaped(r.token) && !Occurs(text, r.token)
  {
    assert pieces[i] in pieces && IsPiece(text, accepted, pieces[i]);
    TokensAreFresh(text, pieces, i);
    var n: nat :| Tokenised(text, pieces)[i].token == Token(pieces[i].kind, n);
    TokenIsShaped(pieces[i].kind, n);
  }

  lemma PlannedTokensAgree(text: string, accepted: seq<Replacement>, pieces: seq<Replacement>)
    requires AllSound(text, accepted) && WellFormedKinds(accepted)
    requires Resolves(text, accepted, pieces)
    ensures TokensAgree(Tokenised(text, pieces)) && WellFormedKinds(Tokenised(text, pieces))
    ensures forall r :: r in Tokenised(text, pieces) ==> TokenShaped(r.token) && !Occurs(text, r.token)
  {
    var plan := Tokenised(text, pieces);
    forall i | 0 <= i < |plan|
      ensures plan[i] == pieces[i].(token := plan[i].token) && WellFormedKind(plan[i].kind)
      ensures TokenShaped(plan[i].token) && !Occurs(text, plan[i].token)
    {
      PlannedPiece(text, accepted, pieces, i);
    }
    forall i, j | 0 <= i < j < |plan| && plan[i].token == plan[j].token
      ensures plan[i].original == plan[j].original && plan[i].kind == plan[j].kind
    {
      TokensMatchValues(text, pieces, i, j);
    }
  }

  lemma ShapedIsValid(text: string, plan: seq<Replacement>)
    requires InTextOrder(plan) && AllSound(text, plan)
    requires forall r :: r in plan ==> TokenShaped(r.token)
    ensures Sorted(plan, StartsBefore) && ValidPlan(text, plan)
  {
    forall i, j | 0 <= i < j < |plan| ensures plan[i].start < plan[j].start {
      assert Sound(text, plan[i]);
    }
  }

  // A combined plan can always be applied: nothing in it is rejected.
  lemma CombinedPlanIsApplicable(text: string, accepted: seq<Replacement>, plan: seq<Replacement>)
    requires AllSound(text, accepted) && WellFormedKinds(accepted)
    requires IsCombinedPlan(text, accepted, plan)
    ensures Applicable(text, plan) && WellFormedKinds(plan)
    ensures forall r :: r in plan ==> TokenShaped(r.token) && !Occurs(text, r.token)
  {
    PlanShape(text, accepted, plan);
    var pieces: seq<Replacement> :|
      Resolves(text, accepted, pieces) && InTextOrder(pieces) && plan == Tokenised(text, pieces);
    PlannedTokensAgree(text, accepted, pieces);
    ShapedIsValid(text, plan);
  }

  // A token-shaped part of the text that no accepted span touches.
  ghost predicate StrayToken(text: string, accepted: seq<Replacement>) {
    exists i, j :: TokenAt(text, i, j) && forall p :: i <= p < j ==> !Covered(accepted, p)
  }

  lemma StrayMeansUncovered(text: string, accepted: seq<Replacement>, plan: seq<Replacement>)
    requires AllSound(text, accepted) && AllSound(text, plan)
    requires forall p :: Covered(accepted, p) <==> Covered(plan, p)
    ensures StrayToken(text, accepted) <==> HasStray(text, 0, plan)
  {
    forall i, j | TokenAt(text, i, j)
      ensures StrayAt(text, 0, plan, i, j) <==> forall p :: i <= p < j ==> !Covered(accepted, p)
    {
      if StrayAt(text, 0, plan, i, j) {
        forall p | i <= p < j ensures !Covered(plan, p) {
        }
      }
      if forall p :: i <= p < j ==> !Covered(accepted, p) {
        forall r | r in plan ensures j <= r.start || r.end <= i {
          var m := if i < r.start then r.start else i;
          assert Sound(text, r);
          assert Covers(r, m) ==> Covered(plan, m);
        }
      }
    }
  }

  // Mask with the combined plan, then detokenize with the mappings returned: the
  // original text, or an unknown-token error exactly when the text itself holds
  // something token-shaped that no accepted span touches.
  lemma MaskThenDetokenize(text: string, accepted: seq<Replacement>, plan: seq<Replacement>,
                           result: Result<Masked, Error>)
    requires AllSound(text, accepted) && WellFormedKinds(accepted)
    requires IsCombinedPlan(text, accepted, plan) && ApplySpec(text, plan, result)
    ensures result.Ok?
    ensures DetokenizeSpec(result.value.text, result.value.mappings) ==
      if StrayToken(text, accepted) then Err(UnknownToken) else Ok(text)
  {
    CombinedPlanIsApplicable(text, accepted, plan);
    AppliedPlan(text, plan, result);
    PlanShape(text, accepted, plan);
    ApplicableFits(text, plan);
    RestoreUndoesPlan(text, plan);
    forall p ensures Covered(accepted, p) <==> Covered(plan, p) {
      PlanIsPointwiseCorrect(text, accepted, plan, p);
    }
    StrayMeansUncovered(text, accepted, plan);
  }

  // A plan that is applicable as it stands is what gets applied.
  lemma AppliedPlan(text: string, plan: seq<Replacement>, result: Result<Masked, Error>)
    requires Applicable(text, plan) && ApplySpec(text, plan, result)
    ensures Fits(text, 0, plan)
    ensures result == Ok(Masked(Splice(text, 0, plan), MappingsOf(plan)))
  {
    assert Permutation(plan, plan);
    ApplicableFits(text, plan);
    assert ApplySpec(text, plan, Ok(Masked(Splice(text, 0, plan), MappingsOf(plan))));
    ApplyIsDeterministic(text, plan, result, Ok(Masked(Splice(text, 0, plan), MappingsOf(plan))));
  }

  lemma RestoreUndoesPlan(text: string, plan: seq<Replacement>)
    requires Applicable(text, plan) && Fits(text, 0, plan)
    requires forall r :: r in plan ==> TokenShaped(r.token) && !Occurs(text, r.token)
    ensures DetokenizeSpec(Splice(text, 0, plan), MappingsOf(plan)) ==
      if HasStray(text, 0, plan) then Err(UnknownToken) else Ok(text)
  {
    var known := Known(MappingsOf(plan));
    MappingsKnowTokens(plan, known);
    forall t | t in known ensures !Occurs(text, t) {
      var i :| 0 <= i < |plan| && plan[i].token == t;
      assert plan[i] in plan;
    }
    forall r | r in plan
      ensures r.original == text[r.start..r.end] && r.token in known && known[r.token] == r.original
    {
      var i :| 0 <= i < |plan| && plan[i] == r;
      assert Sound(text, plan[i]);
    }
    RestoreUndoesSplice(text, 0, plan, known);
    assert text[0..] == text;
  }
}
