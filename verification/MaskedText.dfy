/** What a masked text looks like, in terms of the text, the detections and the policy
    alone: what is hidden, what hides it, and where everything stands. */
module MaskedText {
  import opened Wrappers
  import opened Ordering
  import opened Pii
  import opened Tokens
  import opened CandidateOrder
  import opened Resolution
  import opened Allocation
  import opened Tokenising
  import opened Merge
  import opened TokenBlind
  import opened Plan
  import opened Apply
  import opened RoundTrip
  import opened Pipeline
  import Utf8

  // ----- what is hidden, in terms of the detections alone

  // The mappings of a masked text are the pieces of the combined plan.
  lemma MappingsArePieces(text: string, combined: seq<Replacement>, m: Masked)
    requires ApplySpec(text, combined, Ok(m))
    ensures forall x :: x in m.mappings ==> exists r :: r in combined && x == MappingOf(r)
    ensures forall r :: r in combined ==> MappingOf(r) in m.mappings
  {
    var sorted :| Permutation(sorted, combined) && Applicable(text, sorted) && Fits(text, 0, sorted)
                  && m == Masked(Splice(text, 0, sorted), MappingsOf(sorted));
    PermutationMembers(sorted, combined);
    MembersOfMappings(sorted);
  }

  lemma MembersOfMappings(rs: seq<Replacement>)
    ensures forall x :: x in MappingsOf(rs) ==> exists r :: r in rs && x == MappingOf(r)
    ensures forall r :: r in rs ==> MappingOf(r) in MappingsOf(rs)
  {
    forall x | x in MappingsOf(rs) ensures exists r :: r in rs && x == MappingOf(r) {
      var i :| 0 <= i < |rs| && MappingsOf(rs)[i] == x;
      assert rs[i] in rs && x == MappingOf(rs[i]);
    }
    forall r | r in rs ensures MappingOf(r) in MappingsOf(rs) {
      var i :| 0 <= i < |rs| && rs[i] == r;
      assert MappingsOf(rs)[i] == MappingOf(r);
    }
  }

  // A byte is hidden exactly when some detection covers it whose kind the policy allows
  // and whose confidence is not below its limit.
  lemma HiddenExactly(text: string, ml: seq<Entity>, backend: seq<Entity>, policy: Policy, m: Masked, p: int)
    requires MaskSpec(text, ml, backend, policy, m)
    ensures (exists x :: x in m.mappings && x.start <= p < x.end)
      <==> (exists e :: e in ml + backend && e.kind in policy.allowedKinds
                        && e.confidence >= policy.minConfidence && e.start <= p < e.end)
  {
    var mlPlan, backendPlan, combined :|
      && BuildSpec(text, ml, policy, Ok(mlPlan)) && BuildSpec(text, backend, policy, Ok(backendPlan))
      && CombineSpec(text, mlPlan + backendPlan, policy, Ok(combined))
      && ApplySpec(text, combined, Ok(m));
    PlansTogether(text, ml, backend, policy, mlPlan, backendPlan);
    var accepted := Accepted(policy, mlPlan + backendPlan);
    AcceptedCoverage(text, ml + backend, policy, accepted);
    PlanIsPointwiseCorrect(text, accepted, combined, p);
    MappingsArePieces(text, combined, m);
    if x :| x in m.mappings && x.start <= p < x.end {
      var r :| r in combined && x == MappingOf(r);
      assert Covers(r, p) && Covered(combined, p);
      var e :| e in ml + backend && AcceptedAt(policy, e, p);
    }
    if e :| e in ml + backend && e.kind in policy.allowedKinds
            && e.confidence >= policy.minConfidence && e.start <= p < e.end
    {
      assert AcceptedAt(policy, e, p) && AcceptedOver(ml + backend, policy, p);
      var r :| r in combined && Covers(r, p);
      assert MappingOf(r) in m.mappings;
    }
  }

  lemma ReplacementFor(text: string, es: seq<Entity>, policy: Policy, accepted: seq<Replacement>, a: Entity, p: int)
    returns (s: Replacement)
    requires HoldsExactly(text, es, policy, accepted) && a in es && AcceptedAt(policy, a, p)
    ensures s in accepted && Erase(s) == Untokened(text, a) && Covers(s, p)
  {
    assert Untokened(text, a) in EraseAll(accepted);
    EraseMembers(accepted);
    s :| s in accepted && Erase(s) == Untokened(text, a);
  }

  lemma EntityBehind(text: string, es: seq<Entity>, policy: Policy, accepted: seq<Replacement>, w: Replacement)
    returns (e: Entity)
    requires HoldsExactly(text, es, policy, accepted) && w in accepted
    ensures e in es && Accepts(policy, e.kind, e.confidence) && Untokened(text, e) == Erase(w)
  {
    EraseMembers(accepted);
    e :| e in es && Accepts(policy, e.kind, e.confidence) && Untokened(text, e) == Erase(w);
  }

  lemma DetectionBehind(text: string, ml: seq<Entity>, backend: seq<Entity>, policy: Policy, m: Masked, p: int,
                        x: TokenMapping, a: Entity)
    returns (e: Entity)
    requires MaskSpec(text, ml, backend, policy, m)
    requires x in m.mappings && x.start <= p < x.end
    requires a in ml + backend && AcceptedAt(policy, a, p)
    ensures e in ml + backend && AcceptedAt(policy, e, p)
    ensures x.kind == e.kind && x.source == e.source && e.start <= x.start < x.end <= e.end
    ensures !CandidateLess(Untokened(text, a), Untokened(text, e))
  {
    var mlPlan, backendPlan, combined :|
      && BuildSpec(text, ml, policy, Ok(mlPlan)) && BuildSpec(text, backend, policy, Ok(backendPlan))
      && CombineSpec(text, mlPlan + backendPlan, policy, Ok(combined))
      && ApplySpec(text, combined, Ok(m));
    PlansTogether(text, ml, backend, policy, mlPlan, backendPlan);
    var accepted := Accepted(policy, mlPlan + backendPlan);
    MappingsArePieces(text, combined, m);
    var r :| r in combined && x == MappingOf(r);
    var s := ReplacementFor(text, ml + backend, policy, accepted, a, p);
    var w := PieceFromWinner(text, accepted, combined, p, r, s);
    ErasedLess(s, w);
    e := EntityBehind(text, ml + backend, policy, accepted, w);
  }

  // And the mapping that hides a byte is cut from the first of the detections that
  // the policy lets through there.
  lemma FirstDetectionHides(text: string, ml: seq<Entity>, backend: seq<Entity>, policy: Policy, m: Masked, p: int,
                            x: TokenMapping, a: Entity)
    returns (e: Entity)
    requires MaskSpec(text, ml, backend, policy, m)
    requires x in m.mappings && x.start <= p < x.end
    requires a in ml + backend && a.kind in policy.allowedKinds
    requires a.confidence >= policy.minConfidence && a.start <= p < a.end
    ensures e in ml + backend && e.kind in policy.allowedKinds && e.confidence >= policy.minConfidence
    ensures x.kind == e.kind && x.source == e.source && e.start <= x.start < x.end <= e.end
    ensures a.kind in CHECKED_KINDS || a.kind in WHOLE_KINDS ==> e.kind in CHECKED_KINDS || e.kind in WHOLE_KINDS
    ensures a.kind in PART_KINDS ==> e.kind in CHECKED_KINDS || e.kind in WHOLE_KINDS || e.kind in PART_KINDS
    ensures
      var sameRank := ((e.kind in CHECKED_KINDS || e.kind in WHOLE_KINDS)
                       == (a.kind in CHECKED_KINDS || a.kind in WHOLE_KINDS))
                      && (e.kind in PART_KINDS) == (a.kind in PART_KINDS);
      var ePrimary := e.source == if e.kind in CHECKED_KINDS then "regex" else "ml";
      var aPrimary := a.source == if a.kind in CHECKED_KINDS then "regex" else "ml";
      sameRank ==>
        && (aPrimary ==> ePrimary)
        && (aPrimary == ePrimary ==>
              && e.confidence >= a.confidence
              && (e.confidence == a.confidence ==>
                    && e.end - e.start >= a.end - a.start
                    && (e.end - e.start == a.end - a.start ==>
                          && e.start <= a.start
                          && (e.start == a.start ==>
                                && !StringLess(a.kind, e.kind)
                                && (e.kind == a.kind ==>
                                      !StringLess(a.source, e.source))))))
  {
    e := DetectionBehind(text, ml, backend, policy, m, p, x, a);
    PreferenceIsLexicographic(Untokened(text, e), Untokened(text, a));
  }

  // ----- which numbers the tokens bear

  // The token of piece `j` in the plan.
  ghost function TokenOf(text: string, pieces: seq<Replacement>, j: nat): string
    requires j < |pieces|
  {
    Tokenised(text, pieces)[j].token
  }

  // A number that is not free: the text holds its token, or an earlier piece took it.
  ghost predicate Taken(text: string, pieces: seq<Replacement>, k: nat, kind: string, m: nat)
    requires k <= |pieces|
  {
    || Occurs(text, Token(kind, m))
    || exists j :: 0 <= j < k && pieces[j].kind == kind && TokenOf(text, pieces, j) == Token(kind, m)
  }

  ghost predicate CountersOk(text: string, pieces: seq<Replacement>, k: nat)
    requires k <= |pieces|
  {
    var st := StateAfter(text, pieces, k);
    && (forall kind, m: nat :: 1 <= m <= Counter(st, kind) ==> Taken(text, pieces, k, kind, m))
    && (forall kind, value :: Has(st, kind, value) ==>
          exists n: nat :: 1 <= n <= Counter(st, kind) && Lookup(st, kind, value) == Token(kind, n))
  }

  lemma {:induction false} CountersStayOk(text: string, pieces: seq<Replacement>, k: nat)
    requires k <= |pieces|
    ensures CountersOk(text, pieces, k)
  {
    if k > 0 {
      CountersStayOk(text, pieces, k - 1);
      var st, kind, value := StateAfter(text, pieces, k - 1), pieces[k - 1].kind, pieces[k - 1].original;
      var st' := StateAfter(text, pieces, k);
      forall l, m: nat | 1 <= m <= Counter(st', l) ensures Taken(text, pieces, k, l, m) {
        if m <= Counter(st, l) {
          assert Taken(text, pieces, k - 1, l, m);
        } else {
          NewNumber(text, pieces, k, m);
        }
      }
      forall l, v | Has(st', l, v)
        ensures exists n: nat :: 1 <= n <= Counter(st', l) && Lookup(st', l, v) == Token(l, n)
      {
        if Has(st, l, v) {
          var n: nat :| 1 <= n <= Counter(st, l) && Lookup(st, l, v) == Token(l, n);
        } else {
          assert Lookup(st', l, v) == Token(l, FirstFree(text, kind, Counter(st, kind)));
        }
      }
    }
  }

  lemma NewNumber(text: string, pieces: seq<Replacement>, k: nat, m: nat)
    requires 0 < k <= |pieces|
    requires Counter(StateAfter(text, pieces, k - 1), pieces[k - 1].kind) < m
    requires m <= Counter(StateAfter(text, pieces, k), pieces[k - 1].kind)
    ensures Taken(text, pieces, k, pieces[k - 1].kind, m)
  {
    var st, kind := StateAfter(text, pieces, k - 1), pieces[k - 1].kind;
    var n := FirstFree(text, kind, Counter(st, kind));
    if m == n {
      assert TokenOf(text, pieces, k - 1) == Token(kind, n);
    }
  }

  // The number of a piece is the first from 1 that is free: every smaller one is in the
  // text already, or borne by an earlier piece of the kind.
  lemma NumbersAreFirstFree(text: string, pieces: seq<Replacement>, i: nat) returns (n: nat)
    requires i < |pieces|
    ensures n >= 1 && Tokenised(text, pieces)[i].token == Token(pieces[i].kind, n)
    ensures forall m: nat :: 1 <= m < n ==> Taken(text, pieces, i, pieces[i].kind, m)
  {
    var kind, st := pieces[i].kind, StateAfter(text, pieces, i + 1);
    CountersStayOk(text, pieces, i + 1);
    assert Has(st, kind, pieces[i].original);
    n :| 1 <= n <= Counter(st, kind) && Lookup(st, kind, pieces[i].original) == Token(kind, n);
    forall m: nat | 1 <= m < n ensures Taken(text, pieces, i, kind, m) {
      assert Taken(text, pieces, i + 1, kind, m);
      if TokenOf(text, pieces, i) == Token(kind, m) {
        SameKindTokens(kind, m, n);
      }
    }
  }

  // What the mappings of a masked text are: the pieces, from left to right, each with
  // the part of the text it hides; no token is in the text, and two are the same
  // exactly when they hide the same value of the same kind.
  lemma MappingsAreExact(text: string, ml: seq<Entity>, backend: seq<Entity>, policy: Policy, m: Masked,
                         i: nat, j: nat)
    requires KnownKinds(ml) && KnownKinds(backend) && MaskSpec(text, ml, backend, policy, m)
    requires i <= j < |m.mappings|
    ensures var x, y := m.mappings[i], m.mappings[j];
      && 0 <= y.start < y.end <= |text| && Utf8.Valid(y.original) && y.original == text[y.start..y.end]
      && !Occurs(text, y.token)
      && (i < j ==> x.end <= y.start)
      && (x.token == y.token <==> x.kind == y.kind && x.original == y.original)
  {
    var accepted, pieces := PiecesOf(text, ml, backend, policy, m);
    var plan := Tokenised(text, pieces);
    PlanShape(text, accepted, plan);
    TokensAreFresh(text, pieces, j);
    TokensMatchValues(text, pieces, i, j);
    assert plan[j] in plan;
    assert plan[i] == pieces[i].(token := plan[i].token) && plan[j] == pieces[j].(token := plan[j].token);
  }

  lemma PlanOf(text: string, ml: seq<Entity>, backend: seq<Entity>, policy: Policy, m: Masked)
    returns (accepted: seq<Replacement>, plan: seq<Replacement>)
    requires KnownKinds(ml) && KnownKinds(backend) && MaskSpec(text, ml, backend, policy, m)
    ensures AllSound(text, accepted) && WellFormedKinds(accepted) && IsCombinedPlan(text, accepted, plan)
    ensures ApplySpec(text, plan, Ok(m))
  {
    var mlPlan, backendPlan;
    mlPlan, backendPlan, plan :|
      && BuildSpec(text, ml, policy, Ok(mlPlan)) && BuildSpec(text, backend, policy, Ok(backendPlan))
      && CombineSpec(text, mlPlan + backendPlan, policy, Ok(plan))
      && ApplySpec(text, plan, Ok(m));
    PlansTogether(text, ml, backend, policy, mlPlan, backendPlan);
    accepted := Accepted(policy, mlPlan + backendPlan);
    assert KnownKinds(ml + backend);
    AcceptedCoverage(text, ml + backend, policy, accepted);
  }

  lemma PlanIsMappings(text: string, accepted: seq<Replacement>, plan: seq<Replacement>, m: Masked)
    requires AllSound(text, accepted) && WellFormedKinds(accepted) && IsCombinedPlan(text, accepted, plan)
    requires ApplySpec(text, plan, Ok(m))
    ensures WellFormedKinds(plan) && Fits(text, 0, plan)
    ensures m == Masked(Splice(text, 0, plan), MappingsOf(plan))
  {
    CombinedPlanIsApplicable(text, accepted, plan);
    AppliedPlan(text, plan, Ok(m));
  }

  lemma PiecesOf(text: string, ml: seq<Entity>, backend: seq<Entity>, policy: Policy, m: Masked)
    returns (accepted: seq<Replacement>, pieces: seq<Replacement>)
    requires KnownKinds(ml) && KnownKinds(backend) && MaskSpec(text, ml, backend, policy, m)
    ensures AllSound(text, accepted) && IsCombinedPlan(text, accepted, Tokenised(text, pieces))
    ensures forall i :: 0 <= i < |pieces| ==> WellFormedKind(pieces[i].kind)
    ensures Fits(text, 0, Tokenised(text, pieces))
    ensures m == Masked(Splice(text, 0, Tokenised(text, pieces)), MappingsOf(Tokenised(text, pieces)))
  {
    var plan;
    accepted, plan := PlanOf(text, ml, backend, policy, m);
    PlanIsMappings(text, accepted, plan, m);
    pieces :| Resolves(text, accepted, pieces) && InTextOrder(pieces) && plan == Tokenised(text, pieces);
    forall i | 0 <= i < |pieces| ensures WellFormedKind(pieces[i].kind) {
      assert plan[i].kind == pieces[i].kind && plan[i] in plan;
    }
  }

  lemma TakenByMapping(text: string, pieces: seq<Replacement>, ms: seq<TokenMapping>, i: nat, kind: string, k: nat)
    requires i <= |pieces| && ms == MappingsOf(Tokenised(text, pieces)) && Taken(text, pieces, i, kind, k)
    ensures || Occurs(text, Token(kind, k))
            || exists j :: 0 <= j < i && ms[j].kind == kind && ms[j].token == Token(kind, k)
  {
    if !Occurs(text, Token(kind, k)) {
      var j :| 0 <= j < i && pieces[j].kind == kind && TokenOf(text, pieces, j) == Token(kind, k);
      assert ms[j].kind == kind && ms[j].token == Token(kind, k);
    }
  }

  // The number in a mapping's token is the first, from 1, that is free.
  lemma MappingsAreNumbered(text: string, ml: seq<Entity>, backend: seq<Entity>, policy: Policy, m: Masked, i: nat)
    returns (n: nat)
    requires KnownKinds(ml) && KnownKinds(backend) && MaskSpec(text, ml, backend, policy, m)
    requires i < |m.mappings|
    ensures var kind := m.mappings[i].kind;
      && n >= 1 && m.mappings[i].token == Token(kind, n)
      && forall k: nat :: 1 <= k < n ==>
           || Occurs(text, Token(kind, k))
           || exists j :: 0 <= j < i && m.mappings[j].kind == kind && m.mappings[j].token == Token(kind, k)
  {
    var accepted, pieces := PiecesOf(text, ml, backend, policy, m);
    n := NumbersAreFirstFree(text, pieces, i);
    var kind := pieces[i].kind;
    forall k: nat | 1 <= k < n
      ensures || Occurs(text, Token(kind, k))
              || exists j :: 0 <= j < i && m.mappings[j].kind == kind && m.mappings[j].token == Token(kind, k)
    {
      TakenByMapping(text, pieces, m.mappings, i, kind, k);
    }
  }

  // ----- where everything stands

  // How far the first `i` mappings move what stands behind them.
  function Shift(ms: seq<TokenMapping>, i: nat): int
    requires i <= |ms|
  {
    if i == 0 then 0
    else Shift(ms, i - 1) + |ms[i - 1].token| - (ms[i - 1].end - ms[i - 1].start)
  }

  // From left to right, within the text.
  ghost predicate InOrder(text: string, ms: seq<TokenMapping>) {
    && (forall i :: 0 <= i < |ms| ==> 0 <= ms[i].start < ms[i].end <= |text|)
    && (forall i, j :: 0 <= i < j < |ms| ==> ms[i].end <= ms[j].start)
  }

  // Where the text goes on behind the first `i` mappings.
  function EndOf(ms: seq<TokenMapping>, i: nat): int
    requires i <= |ms|
  {
    if i == 0 then 0 else ms[i - 1].end
  }

  // What becomes of the text from there on.
  function Rendered(text: string, ms: seq<TokenMapping>, i: nat): (s: string)
    requires i <= |ms|
    ensures |s| == RenderedLength(text, ms, i)
    decreases |ms| - i
  {
    if i == |ms| then Part(text, EndOf(ms, i), |text|)
    else Part(text, EndOf(ms, i), ms[i].start) + ms[i].token + Rendered(text, ms, i + 1)
  }

  function RenderedLength(text: string, ms: seq<TokenMapping>, i: nat): nat
    requires i <= |ms|
    decreases |ms| - i
  {
    if i == |ms| then PartLength(text, EndOf(ms, i), |text|)
    else PartLength(text, EndOf(ms, i), ms[i].start) + |ms[i].token| + RenderedLength(text, ms, i + 1)
  }

  function PartLength(text: string, a: int, b: int): nat {
    if 0 <= a <= b <= |text| then b - a else 0
  }

  function Part(text: string, a: int, b: int): (s: string)
    ensures |s| == PartLength(text, a, b)
  {
    if 0 <= a <= b <= |text| then text[a..b] else ""
  }

  lemma SpliceIsRendered(text: string, rs: seq<Replacement>)
    requires Fits(text, 0, rs)
    ensures InOrder(text, MappingsOf(rs)) && Splice(text, 0, rs) == Rendered(text, MappingsOf(rs), 0)
  {
    var ms := MappingsOf(rs);
    forall i | 0 <= i < |ms| ensures 0 <= ms[i].start < ms[i].end <= |text| {
      assert rs[i] in rs;
    }
    assert rs[0..] == rs;
    RestIsRendered(text, rs, ms, 0);
  }

  lemma {:induction false} RestIsRendered(text: string, rs: seq<Replacement>, ms: seq<TokenMapping>, i: nat)
    requires i <= |rs| && ms == MappingsOf(rs) && InOrder(text, ms)
    requires Fits(text, EndOf(ms, i), rs[i..])
    ensures Splice(text, EndOf(ms, i), rs[i..]) == Rendered(text, ms, i)
    decreases |rs| - i
  {
    if i < |rs| {
      FitsTail(text, EndOf(ms, i), rs[i..]);
      assert rs[i..][1..] == rs[i + 1..] && rs[i..][0] == rs[i];
      RestIsRendered(text, rs, ms, i + 1);
    }
  }

  lemma JoinedAt(a: string, t: string, b: string, k: nat)
    requires k < |a| + |t| + |b|
    ensures |a + t + b| == |a| + |t| + |b|
    ensures (a + t + b)[k]
         == if k < |a| then a[k] else if k < |a| + |t| then t[k - |a|] else b[k - |a| - |t|]
  {
  }

  function TextAt(text: string, p: int): char {
    if 0 <= p < |text| then text[p] else ' '
  }

  // Byte `at` of what is rendered.
  function RenderedByte(text: string, ms: seq<TokenMapping>, i: nat, at: int): char
    requires i <= |ms| && at >= 0
    decreases |ms| - i
  {
    if i == |ms| then TextAt(text, EndOf(ms, i) + at)
    else
      var gap, t := PartLength(text, EndOf(ms, i), ms[i].start), ms[i].token;
      if at < gap then TextAt(text, EndOf(ms, i) + at)
      else if at < gap + |t| then t[at - gap]
      else RenderedByte(text, ms, i + 1, at - gap - |t|)
  }

  lemma RenderedStep(text: string, ms: seq<TokenMapping>, i: nat, at: nat)
    requires i < |ms| && at < RenderedLength(text, ms, i)
    ensures var gap, t := PartLength(text, EndOf(ms, i), ms[i].start), ms[i].token;
      Rendered(text, ms, i)[at]
        == if at < gap then TextAt(text, EndOf(ms, i) + at) else if at < gap + |t| then t[at - gap]
           else Rendered(text, ms, i + 1)[at - gap - |t|]
  {
    JoinedAt(Part(text, EndOf(ms, i), ms[i].start), ms[i].token, Rendered(text, ms, i + 1), at);
  }

  lemma {:induction false} RenderedAt(text: string, ms: seq<TokenMapping>, i: nat, at: nat)
    requires i <= |ms| && at < RenderedLength(text, ms, i)
    ensures Rendered(text, ms, i)[at] == RenderedByte(text, ms, i, at)
    decreases |ms| - i
  {
    if i < |ms| {
      var skip := PartLength(text, EndOf(ms, i), ms[i].start) + |ms[i].token|;
      RenderedStep(text, ms, i, at);
      if at >= skip {
        RenderedAt(text, ms, i + 1, at - skip);
      }
    }
  }

  lemma GapIsAhead(text: string, ms: seq<TokenMapping>, i: nat)
    requires InOrder(text, ms) && i < |ms|
    ensures 0 <= EndOf(ms, i) <= ms[i].start <= ms[i].end <= |text| && EndOf(ms, i + 1) == ms[i].end
  {
  }

  lemma {:induction false} LengthStands(text: string, ms: seq<TokenMapping>, i: nat)
    requires InOrder(text, ms) && i <= |ms|
    ensures RenderedLength(text, ms, i) == |text| - EndOf(ms, i) + Shift(ms, |ms|) - Shift(ms, i)
    decreases |ms| - i
  {
    if i < |ms| {
      GapIsAhead(text, ms, i);
      LengthStands(text, ms, i + 1);
    }
  }

  lemma {:induction false} TokenByteStands(text: string, ms: seq<TokenMapping>, i: nat, k: nat, q: nat, at: int)
    requires InOrder(text, ms) && i <= k < |ms| && q < |ms[k].token|
    requires at == ms[k].start - EndOf(ms, i) + Shift(ms, k) - Shift(ms, i) + q
    ensures 0 <= at < RenderedLength(text, ms, i) && RenderedByte(text, ms, i, at) == ms[k].token[q]
    decreases k - i
  {
    GapIsAhead(text, ms, i);
    if i < k {
      TokenByteStands(text, ms, i + 1, k, q, at - (ms[i].start - EndOf(ms, i)) - |ms[i].token|);
    }
  }

  lemma {:induction false} ByteStands(text: string, ms: seq<TokenMapping>, i: nat, k: nat, p: nat, at: int)
    requires InOrder(text, ms) && i <= k && p < |text| && Between(ms, k, p) && EndOf(ms, i) <= p
    requires at == p - EndOf(ms, i) + Shift(ms, k) - Shift(ms, i)
    ensures 0 <= at < RenderedLength(text, ms, i) && RenderedByte(text, ms, i, at) == text[p]
    decreases k - i
  {
    if i == k {
      ByteBefore(text, ms, i, p);
    } else {
      GapIsAhead(text, ms, i);
      EndsBeforeLater(text, ms, i, k, p);
      ByteStands(text, ms, i + 1, k, p, at - (ms[i].start - EndOf(ms, i)) - |ms[i].token|);
    }
  }

  lemma ByteBefore(text: string, ms: seq<TokenMapping>, i: nat, p: nat)
    requires InOrder(text, ms) && p < |text| && Between(ms, i, p)
    ensures 0 <= EndOf(ms, i) <= p && p - EndOf(ms, i) < RenderedLength(text, ms, i)
    ensures RenderedByte(text, ms, i, p - EndOf(ms, i)) == text[p]
  {
    if i < |ms| {
      GapIsAhead(text, ms, i);
    }
  }

  lemma EndsBeforeLater(text: string, ms: seq<TokenMapping>, i: nat, k: nat, p: nat)
    requires InOrder(text, ms) && i < k && Between(ms, k, p)
    ensures ms[i].end <= p
  {
    assert i < k - 1 ==> ms[i].end <= ms[k - 1].start;
  }

  // Byte `p` stands behind the first `i` mappings and in front of the others.
  predicate Between(ms: seq<TokenMapping>, i: int, p: int) {
    0 <= i <= |ms| && (i > 0 ==> ms[i - 1].end <= p) && (i < |ms| ==> p < ms[i].start)
  }

  // `s` is `text` with the mappings' tokens in place, byte by byte.
  ghost predicate InPlace(text: string, ms: seq<TokenMapping>, s: string) {
    && |s| == |text| + Shift(ms, |ms|)
    && (forall i, q :: 0 <= i < |ms| && 0 <= q < |ms[i].token| ==> TokenByteAt(ms, s, i, q))
    && (forall i, p :: 0 <= p < |text| && Between(ms, i, p) ==> TextByteAt(text, ms, s, i, p))
  }

  // Byte `q` of token `i` stands where its span began, moved by what is in front.
  predicate TokenByteAt(ms: seq<TokenMapping>, s: string, i: nat, q: nat)
    requires i < |ms| && q < |ms[i].token|
  {
    var at := ms[i].start + Shift(ms, i) + q;
    0 <= at < |s| && s[at] == ms[i].token[q]
  }

  // Byte `p` of the text stands where the `i` mappings in front of it move it.
  predicate TextByteAt(text: string, ms: seq<TokenMapping>, s: string, i: nat, p: nat)
    requires i <= |ms| && p < |text|
  {
    var at := p + Shift(ms, i);
    0 <= at < |s| && s[at] == text[p]
  }

  lemma RenderedIsInPlace(text: string, ms: seq<TokenMapping>)
    requires InOrder(text, ms)
    ensures InPlace(text, ms, Rendered(text, ms, 0))
  {
    var s := Rendered(text, ms, 0);
    LengthStands(text, ms, 0);
    forall i, q | 0 <= i < |ms| && 0 <= q < |ms[i].token| ensures TokenByteAt(ms, s, i, q) {
      TokenByteStands(text, ms, 0, i, q, ms[i].start + Shift(ms, i) + q);
      RenderedAt(text, ms, 0, ms[i].start + Shift(ms, i) + q);
    }
    forall i, p | 0 <= p < |text| && Between(ms, i, p) ensures TextByteAt(text, ms, s, i, p) {
      ByteStands(text, ms, 0, i, p, p + Shift(ms, i));
      RenderedAt(text, ms, 0, p + Shift(ms, i));
    }
  }

  // The masked text, byte by byte: where a mapping was cut out stands its token, and
  // every other byte of the text stands where the mappings before it move it.
  lemma MaskedTextIsExact(text: string, ml: seq<Entity>, backend: seq<Entity>, policy: Policy, m: Masked)
    requires KnownKinds(ml) && KnownKinds(backend) && MaskSpec(text, ml, backend, policy, m)
    ensures InPlace(text, m.mappings, m.text)
  {
    var accepted, pieces := PiecesOf(text, ml, backend, policy, m);
    SpliceIsRendered(text, Tokenised(text, pieces));
    RenderedIsInPlace(text, m.mappings);
  }
}
