/** The pipeline as a whole: from detections to a masked text, and back. */
module Pipeline {
  import opened Wrappers
  import opened Pii
  import opened Resolution
  import opened Merge
  import opened TokenBlind
  import opened Plan
  import opened Apply
  import opened Detokenizer
  import opened RoundTrip
  import opened Chunker
  import opened Masking
  import opened Sets
  import opened Utf8

  // ----- from entities to a masked text

  ghost predicate MaskSpec(text: string, ml: seq<Entity>, backend: seq<Entity>, policy: Policy, m: Masked) {
    exists mlPlan, backendPlan, combined ::
      && BuildSpec(text, ml, policy, Ok(mlPlan)) && BuildSpec(text, backend, policy, Ok(backendPlan))
      && CombineSpec(text, mlPlan + backendPlan, policy, Ok(combined))
      && ApplySpec(text, combined, Ok(m))
  }

  ghost predicate KnownKinds(es: seq<Entity>) {
    forall e :: e in es ==> IsKnownKind(e.kind)
  }

  predicate AcceptedAt(policy: Policy, e: Entity, p: int) {
    Accepts(policy, e.kind, e.confidence) && e.start <= p < e.end
  }

  ghost predicate AcceptedOver(es: seq<Entity>, policy: Policy, p: int) {
    exists e :: e in es && AcceptedAt(policy, e, p)
  }

  // What the two plans together ask for, once the policy has looked at them again.
  lemma PlansTogether(text: string, ml: seq<Entity>, backend: seq<Entity>, policy: Policy,
                      mlPlan: seq<Replacement>, backendPlan: seq<Replacement>)
    requires BuildSpec(text, ml, policy, Ok(mlPlan)) && BuildSpec(text, backend, policy, Ok(backendPlan))
    ensures var accepted := Accepted(policy, mlPlan + backendPlan);
      && AllSound(text, mlPlan + backendPlan) && AllSound(text, accepted)
      && HoldsExactly(text, ml + backend, policy, accepted)
  {
    PlanHoldsAccepted(text, ml, policy, mlPlan);
    PlanHoldsAccepted(text, backend, policy, backendPlan);
    var both := mlPlan + backendPlan;
    assert forall r :: r in both <==> r in mlPlan || r in backendPlan;
    assert forall e :: e in ml + backend <==> e in ml || e in backend;
    var accepted := Accepted(policy, both);
    EraseMembers(mlPlan);
    EraseMembers(backendPlan);
    EraseMembers(accepted);
    forall u | u in EraseAll(accepted)
      ensures exists e :: e in ml + backend && Accepts(policy, e.kind, e.confidence) && Untokened(text, e) == u
    {
      var r :| r in accepted && Erase(r) == u;
      if r in mlPlan {
        var e :| e in ml && Accepts(policy, e.kind, e.confidence) && Untokened(text, e) == u;
        assert e in ml + backend;
      } else {
        var e :| e in backend && Accepts(policy, e.kind, e.confidence) && Untokened(text, e) == u;
        assert e in ml + backend;
      }
    }
    forall e | e in ml + backend && Accepts(policy, e.kind, e.confidence)
      ensures Untokened(text, e) in EraseAll(accepted)
    {
      var u := Untokened(text, e);
      assert u in EraseAll(mlPlan) || u in EraseAll(backendPlan);
      var r :| r in both && Erase(r) == u;
      assert Accepts(policy, r.kind, r.confidence);
    }
  }

  lemma AcceptedCoverage(text: string, es: seq<Entity>, policy: Policy, accepted: seq<Replacement>)
    requires HoldsExactly(text, es, policy, accepted)
    ensures forall p :: Covered(accepted, p) <==> AcceptedOver(es, policy, p)
    ensures KnownKinds(es) ==> WellFormedKinds(accepted)
  {
    EraseMembers(accepted);
    forall r | r in accepted ensures KnownKinds(es) ==> WellFormedKind(r.kind) {
      var e :| e in es && Accepts(policy, e.kind, e.confidence) && Untokened(text, e) == Erase(r);
      if IsKnownKind(e.kind) {
        KnownKindsAreWellFormed(e.kind);
      }
    }
    forall p ensures Covered(accepted, p) <==> AcceptedOver(es, policy, p) {
      if Covered(accepted, p) {
        var r :| r in accepted && Covers(r, p);
        var e :| e in es && Accepts(policy, e.kind, e.confidence) && Untokened(text, e) == Erase(r);
        assert AcceptedAt(policy, e, p);
      }
      if AcceptedOver(es, policy, p) {
        var e :| e in es && AcceptedAt(policy, e, p);
        assert Untokened(text, e) in EraseAll(accepted);
        var r :| r in accepted && Erase(r) == Untokened(text, e);
        assert Covers(r, p);
      }
    }
  }

  // Plans, combination and masking. Valid spans are all it takes to succeed.
  method MaskEntities(text: string, ml: seq<Entity>, backend: seq<Entity>, policy: Policy)
    returns (result: Result<Masked, Error>)
    requires KnownKinds(ml) && KnownKinds(backend)
    ensures result.Ok? <==>
      forall e :: e in ml + backend ==> 0 <= e.start < e.end <= |text| && Valid(text[e.start..e.end])
    ensures result.Ok? ==> MaskSpec(text, ml, backend, policy, result.value)
    ensures result.Err? ==> result.error == InvalidSpan
  {
    var mlPlan := BuildReplacementPlan(text, ml, policy);
    if mlPlan.Err? {
      return Err(mlPlan.error);
    }
    var backendPlan := BuildReplacementPlan(text, backend, policy);
    if backendPlan.Err? {
      return Err(backendPlan.error);
    }
    var combined := CombinePlans(text, mlPlan.value, backendPlan.value, policy);
    PlansTogether(text, ml, backend, policy, mlPlan.value, backendPlan.value);
    var accepted := Accepted(policy, mlPlan.value + backendPlan.value);
    assert KnownKinds(ml + backend);
    AcceptedCoverage(text, ml + backend, policy, accepted);
    result := ApplyReplacements(text, combined.value);
    MaskThenDetokenize(text, accepted, combined.value, result);
  }

  // ----- what the whole guarantees

  // A token-shaped part of the text that no accepted entity touches.
  ghost predicate StrayInText(text: string, es: seq<Entity>, policy: Policy) {
    exists i, j :: TokenAt(text, i, j) && forall p :: i <= p < j ==> !AcceptedOver(es, policy, p)
  }

  // Detokenizing a masked text with its mappings gives the text back byte for byte;
  // or an unknown-token error, exactly when the text itself holds something
  // token-shaped in a stretch left unmasked. It never gives a wrong text.
  lemma MaskingIsReversible(text: string, ml: seq<Entity>, backend: seq<Entity>, policy: Policy, m: Masked)
    requires KnownKinds(ml) && KnownKinds(backend)
    requires MaskSpec(text, ml, backend, policy, m)
    ensures DetokenizeSpec(m.text, m.mappings) ==
      if StrayInText(text, ml + backend, policy) then Err(UnknownToken) else Ok(text)
  {
    var mlPlan, backendPlan, combined :|
      && BuildSpec(text, ml, policy, Ok(mlPlan)) && BuildSpec(text, backend, policy, Ok(backendPlan))
      && CombineSpec(text, mlPlan + backendPlan, policy, Ok(combined))
      && ApplySpec(text, combined, Ok(m));
    PlansTogether(text, ml, backend, policy, mlPlan, backendPlan);
    var accepted := Accepted(policy, mlPlan + backendPlan);
    assert KnownKinds(ml + backend);
    AcceptedCoverage(text, ml + backend, policy, accepted);
    MaskThenDetokenize(text, accepted, combined, Ok(m));
    assert StrayToken(text, accepted) <==> StrayInText(text, ml + backend, policy);
  }

  // The masked text and its mappings depend only on which entities were found, not
  // on their order, their number, or which detector's list they are in.
  lemma MaskingIsOrderIndependent(text: string, ml: seq<Entity>, backend: seq<Entity>,
                                  ml': seq<Entity>, backend': seq<Entity>, policy: Policy,
                                  m: Masked, m': Masked)
    requires MaskSpec(text, ml, backend, policy, m) && MaskSpec(text, ml', backend', policy, m')
    requires forall e :: e in ml + backend <==> e in ml' + backend'
    ensures m == m'
  {
    var mlPlan, backendPlan, combined :|
      && BuildSpec(text, ml, policy, Ok(mlPlan)) && BuildSpec(text, backend, policy, Ok(backendPlan))
      && CombineSpec(text, mlPlan + backendPlan, policy, Ok(combined))
      && ApplySpec(text, combined, Ok(m));
    var mlPlan', backendPlan', combined' :|
      && BuildSpec(text, ml', policy, Ok(mlPlan')) && BuildSpec(text, backend', policy, Ok(backendPlan'))
      && CombineSpec(text, mlPlan' + backendPlan', policy, Ok(combined'))
      && ApplySpec(text, combined', Ok(m'));
    PlansTogether(text, ml, backend, policy, mlPlan, backendPlan);
    PlansTogether(text, ml', backend', policy, mlPlan', backendPlan');
    CombineIgnoresTokens(text, Accepted(policy, mlPlan + backendPlan), Accepted(policy, mlPlan' + backendPlan'),
                         combined, combined');
    ApplyIsDeterministic(text, combined, Ok(m), Ok(m'));
  }

  // ----- from detections to entities

  ghost predicate DetectionsPass(chunks: seq<TextChunk>, detect: TextChunk -> Result<seq<MLEntity>, Error>, k: nat)
    requires k <= |chunks|
  {
    forall i :: 0 <= i < k ==> Passes(chunks[i], detect)
  }

  ghost predicate Passes(c: TextChunk, detect: TextChunk -> Result<seq<MLEntity>, Error>) {
    detect(c).Ok? && AllInRange(c.end - c.start, detect(c).value)
  }

  function Globals(text: string, c: TextChunk, es: seq<MLEntity>): (gs: seq<Entity>)
    requires Valid(text) && c.start <= c.end <= |Chars(text)|
    requires forall i :: 0 <= i < |es| ==> InRange(c.end - c.start, es[i])
    ensures |gs| == |es|
  {
    seq(|es|, i requires 0 <= i < |es| && InRange(c.end - c.start, es[i]) => Global(text, c, es[i]))
  }

  // Everything the detector found, chunk after chunk, in bytes of the text.
  ghost function Detections(text: string, cfg: ChunkConfig, chunks: seq<TextChunk>,
                            detect: TextChunk -> Result<seq<MLEntity>, Error>, k: nat): seq<Entity>
    requires Valid(text) && IsChain(text, cfg, chunks)
    requires k <= |chunks| && DetectionsPass(chunks, detect, k)
  {
    if k == 0 then []
    else
      assert ChunkOf(text, cfg, chunks[k - 1]);
      Detections(text, cfg, chunks, detect, k - 1) + Globals(text, chunks[k - 1], detect(chunks[k - 1]).value)
  }

  // One chunk: detect, then check and shift. The checks never reject a detection
  // that was in range.
  method ProcessChunk(text: string, cfg: ChunkConfig, chunk: TextChunk, entities: seq<MLEntity>)
    returns (result: Result<seq<Entity>, Error>)
    requires Valid(text) && ChunkOf(text, cfg, chunk)
    ensures result.Ok? <==> AllInRange(chunk.end - chunk.start, entities)
    ensures result.Ok? ==> result.value == Globals(text, chunk, entities)
    ensures result.Err? ==> result.error == InvalidMLResponse
  {
    ChunkText(text, cfg, chunk);
    var found := Detect(chunk.text, entities);
    if found.Err? {
      return Err(found.error);
    }
    forall i | 0 <= i < |entities|
      ensures Checks(chunk.text, found.value[i])
      ensures Reported(found.value[i], chunk.startByte, SOURCE_ML) == Global(text, chunk, entities[i])
    {
      DetectionsCheck(chunk.text, entities[i]);
      DetectionIsGlobal(text, cfg, chunk, entities[i]);
    }
    result := CheckAndReport(chunk.text, found.value, chunk.startByte, SOURCE_ML);
  }

  // An order in which the workers get through `n` chunks.
  ghost predicate IsOrder(order: seq<nat>, n: nat) {
    && |order| == n && (forall i :: 0 <= i < n ==> order[i] < n)
    && forall i, j :: 0 <= i < j < n ==> order[i] != order[j]
  }

  // The workers run in parallel: callers learn nothing of the order in which the
  // chunks are done.
  method Schedule(n: nat) returns (order: seq<nat>)
    ensures IsOrder(order, n)
  {
    order := seq(n, i => i);
  }

  // Every chunk is done in any order.
  lemma OrderCovers(order: seq<nat>, n: nat, k: nat)
    requires IsOrder(order, n) && k < n
    ensures k in order
  {
    var s := set i | 0 <= i < n :: order[i];
    DistinctImage(order, n);
    SubsetSize(s, Below(n));
    if k !in s {
      SubsetSize(s, Below(n) - {k});
    }
  }

  lemma {:induction false} DistinctImage(order: seq<nat>, n: nat)
    requires n <= |order| && forall i, j :: 0 <= i < j < |order| ==> order[i] != order[j]
    ensures |(set i | 0 <= i < n :: order[i])| == n
  {
    if n > 0 {
      DistinctImage(order, n - 1);
      var rest := set i | 0 <= i < n - 1 :: order[i];
      assert (set i | 0 <= i < n :: order[i]) == rest + {order[n - 1]};
      assert order[n - 1] !in rest;
    }
  }

  // Chunk `k` fails, and with this error.
  ghost predicate FailsWith(chunks: seq<TextChunk>, detect: TextChunk -> Result<seq<MLEntity>, Error>,
                            k: nat, error: Error)
  {
    && k < |chunks|
    && match detect(chunks[k])
       case Err(e) => error == e
       case Ok(es) => !AllInRange(chunks[k].end - chunks[k].start, es) && error == InvalidMLResponse
  }

  // `es` is what chunk `c` contributes.
  ghost predicate IsResult(text: string, cfg: ChunkConfig, c: TextChunk,
                           detect: TextChunk -> Result<seq<MLEntity>, Error>, es: seq<Entity>)
    requires Valid(text)
  {
    ChunkOf(text, cfg, c) && Passes(c, detect) && es == Globals(text, c, detect(c).value)
  }

  method DoJob(text: string, cfg: ChunkConfig, chunks: seq<TextChunk>, k: nat,
               detect: TextChunk -> Result<seq<MLEntity>, Error>)
    returns (result: Result<seq<Entity>, Error>)
    requires Valid(text) && IsChain(text, cfg, chunks) && k < |chunks|
    ensures result.Ok? ==> IsResult(text, cfg, chunks[k], detect, result.value)
    ensures result.Err? ==> FailsWith(chunks, detect, k, result.error)
  {
    assert ChunkOf(text, cfg, chunks[k]);
    var detected := detect(chunks[k]);
    if detected.Err? {
      return Err(detected.error);
    }
    result := ProcessChunk(text, cfg, chunks[k], detected.value);
  }

  // The workers write the result of each chunk to its place; the first error stops them.
  method DetectAll(text: string, cfg: ChunkConfig, chunks: seq<TextChunk>,
                   detect: TextChunk -> Result<seq<MLEntity>, Error>)
    returns (result: Result<seq<Entity>, Error>)
    requires Valid(text) && IsChain(text, cfg, chunks)
    ensures result.Ok? <==> DetectionsPass(chunks, detect, |chunks|)
    ensures result.Ok? ==> result.value == Detections(text, cfg, chunks, detect, |chunks|)
    ensures result.Err? ==> exists k :: 0 <= k < |chunks| && FailsWith(chunks, detect, k, result.error)
  {
    var results: seq<seq<Entity>> := seq(|chunks|, _ => []);
    var jobs := Schedule(|chunks|);
    for n := 0 to |jobs|
      invariant |results| == |chunks|
      invariant forall j :: 0 <= j < n ==>
        IsResult(text, cfg, chunks[jobs[j]], detect, results[jobs[j]])
    {
      var k := jobs[n];
      var entities := DoJob(text, cfg, chunks, k, detect);
      if entities.Err? {
        return Err(entities.error);
      }
      results := results[k := entities.value];
    }
    forall k | 0 <= k < |chunks|
      ensures IsResult(text, cfg, chunks[k], detect, results[k])
    {
      OrderCovers(jobs, |chunks|, k);
    }
    var out := Joined(text, cfg, chunks, detect, results);
    return Ok(out);
  }

  method Joined(text: string, cfg: ChunkConfig, chunks: seq<TextChunk>,
                detect: TextChunk -> Result<seq<MLEntity>, Error>, results: seq<seq<Entity>>)
    returns (out: seq<Entity>)
    requires Valid(text) && IsChain(text, cfg, chunks) && |results| == |chunks|
    requires forall k :: 0 <= k < |chunks| ==> IsResult(text, cfg, chunks[k], detect, results[k])
    ensures DetectionsPass(chunks, detect, |chunks|)
    ensures out == Detections(text, cfg, chunks, detect, |chunks|)
  {
    out := [];
    for k := 0 to |chunks|
      invariant DetectionsPass(chunks, detect, k)
      invariant out == Detections(text, cfg, chunks, detect, k)
    {
      assert IsResult(text, cfg, chunks[k], detect, results[k]);
      out := out + results[k];
    }
  }

  // Detected entities have known kinds and spans that pass every later check.
  lemma {:induction false} DetectionsAreValid(text: string, cfg: ChunkConfig, chunks: seq<TextChunk>,
                                              detect: TextChunk -> Result<seq<MLEntity>, Error>, k: nat)
    requires Valid(text) && IsChain(text, cfg, chunks)
    requires k <= |chunks| && DetectionsPass(chunks, detect, k)
    ensures var es := Detections(text, cfg, chunks, detect, k); AllValid(text, es) && KnownKinds(es)
  {
    if k > 0 {
      DetectionsAreValid(text, cfg, chunks, detect, k - 1);
      var c := chunks[k - 1];
      assert ChunkOf(text, cfg, c);
      var found := detect(c).value;
      forall e | e in Globals(text, c, found) ensures ValidSpan(text, e.start, e.end) && IsKnownKind(e.kind) {
        var i :| 0 <= i < |found| && Globals(text, c, found)[i] == e;
        var t := MapMLType(found[i].typ).value;
        GlobalSpan(text, c, found[i], t);
        EntityKindsAreKnown(t);
      }
    }
  }

  function RuleEntities(rules: seq<Found>): (es: seq<Entity>)
    requires forall i :: 0 <= i < |rules| ==> MapEntityType(rules[i].typ).Some?
    ensures |es| == |rules|
  {
    seq(|rules|, i requires 0 <= i < |rules| => Reported(rules[i], 0, SOURCE_REG))
  }

  lemma RuleEntitiesAreValid(text: string, rules: seq<Found>)
    requires AllCheck(text, rules)
    ensures AllValid(text, RuleEntities(rules)) && KnownKinds(RuleEntities(rules))
  {
    forall e | e in RuleEntities(rules) ensures ValidSpan(text, e.start, e.end) && IsKnownKind(e.kind) {
      var i :| 0 <= i < |rules| && RuleEntities(rules)[i] == e;
      assert Checks(text, rules[i]);
      EntityKindsAreKnown(rules[i].typ.named);
    }
  }

  // What a successful masking of `text` is.
  ghost predicate PipelineSpec(text: string, cfg: ChunkConfig, rules: seq<Found>,
                               detect: TextChunk -> Result<seq<MLEntity>, Error>, policy: Policy, m: Masked)
  {
    && Valid(text) && AllCheck(text, rules)
    && exists chunks ::
         && IsSplit(text, cfg, chunks) && DetectionsPass(chunks, detect, |chunks|)
         && MaskSpec(text, Detections(text, cfg, chunks, detect, |chunks|), RuleEntities(rules), policy, m)
  }

  // What can go wrong: a rule entity that fails its checks, a text that is not valid,
  // or a chunk whose detection fails or is out of range.
  ghost predicate EntryFails(text: string, cfg: ChunkConfig, rules: seq<Found>,
                             detect: TextChunk -> Result<seq<MLEntity>, Error>, error: Error)
  {
    || (!AllCheck(text, rules) && (error == UnknownEntityType || error == InvalidSpan))
    || (!Valid(text) && error == InvalidText)
    || (Valid(text) && exists chunks, k :: IsSplit(text, cfg, chunks) && FailsWith(chunks, detect, k, error))
  }

  // The masker. Once the rule entities and the detections pass their entry checks,
  // nothing later can fail.
  method Mask(text: string, cfg: ChunkConfig, rules: seq<Found>,
              detect: TextChunk -> Result<seq<MLEntity>, Error>, policy: Policy)
    returns (result: Result<Masked, Error>)
    requires ValidConfig(cfg)
    ensures result.Ok? ==> PipelineSpec(text, cfg, rules, detect, policy, result.value)
    ensures result.Ok? <==>
      && Valid(text) && AllCheck(text, rules)
      && exists chunks :: IsSplit(text, cfg, chunks) && DetectionsPass(chunks, detect, |chunks|)
    ensures result.Err? ==> EntryFails(text, cfg, rules, detect, result.error)
  {
    var backend := CheckAndReport(text, rules, 0, SOURCE_REG);
    if backend.Err? {
      return Err(backend.error);
    }
    assert backend.value == RuleEntities(rules);
    RuleEntitiesAreValid(text, rules);
    var chunks := SplitText(text, cfg);
    if chunks.Err? {
      return Err(chunks.error);
    }
    forall other | IsSplit(text, cfg, other) ensures other == chunks.value {
      SplitIsUnique(text, cfg, other, chunks.value);
    }
    var ml := DetectAll(text, cfg, chunks.value, detect);
    if ml.Err? {
      return Err(ml.error);
    }
    DetectionsAreValid(text, cfg, chunks.value, detect, |chunks.value|);
    result := MaskEntities(text, ml.value, backend.value, policy);
  }

  // Whatever the masker returns, the detokenizer undoes.
  lemma PipelineRoundTrip(text: string, cfg: ChunkConfig, rules: seq<Found>,
                          detect: TextChunk -> Result<seq<MLEntity>, Error>, policy: Policy, m: Masked)
    requires PipelineSpec(text, cfg, rules, detect, policy, m)
    ensures DetokenizeSpec(m.text, m.mappings) in {Ok(text), Err(UnknownToken)}
    ensures (forall i, j :: !TokenAt(text, i, j)) ==> DetokenizeSpec(m.text, m.mappings) == Ok(text)
  {
    var chunks :| IsSplit(text, cfg, chunks) && DetectionsPass(chunks, detect, |chunks|)
      && MaskSpec(text, Detections(text, cfg, chunks, detect, |chunks|), RuleEntities(rules), policy, m);
    var ml := Detections(text, cfg, chunks, detect, |chunks|);
    DetectionsAreValid(text, cfg, chunks, detect, |chunks|);
    RuleEntitiesAreValid(text, rules);
    MaskingIsReversible(text, ml, RuleEntities(rules), policy, m);
  }
}
