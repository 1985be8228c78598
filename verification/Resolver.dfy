/** Choosing among the overlapping candidates of the rule engine. */
module Resolver {
  import opened Ordering

  datatype Source = Regex | Checksum | Dictionary | Context | Format

  datatype CandidateSpan = CandidateSpan(
    typ: string, text: string, start: int, end: int, score: real,
    sources: seq<Source>, reason: string)

  datatype Entity = Entity(typ: string, text: string, start: int, end: int, score: real, reason: string)

  function EvidenceStrength(c: CandidateSpan): int {
    var hasChecksum, hasContext, hasDict := Checksum in c.sources, Context in c.sources, Dictionary in c.sources;
    if hasChecksum && hasContext then 5
    else if hasChecksum then 4
    else if hasDict && hasContext then 3
    else if hasDict then 2
    else if hasContext then 2
    else 1
  }

  // Evidence first, then score.
  predicate Stronger(a: CandidateSpan, b: CandidateSpan) {
    var ea, eb := EvidenceStrength(a), EvidenceStrength(b);
    ea > eb || (ea == eb && a.score > b.score)
  }

  predicate Overlap(a: CandidateSpan, b: CandidateSpan) {
    a.start < b.end && b.start < a.end
  }

  predicate Before(a: CandidateSpan, b: CandidateSpan) {
    if a.start != b.start then a.start < b.start else Stronger(a, b)
  }

  predicate EntityBefore(a: Entity, b: Entity) {
    a.start < b.start
  }

  // ----- the quadratic scan

  // The first of `resolved`, from `from` on, that overlaps `s`; their number if none does.
  function FirstOverlap(resolved: seq<CandidateSpan>, s: CandidateSpan, from: nat): (i: nat)
    requires from <= |resolved|
    ensures from <= i <= |resolved|
    ensures i < |resolved| ==> Overlap(s, resolved[i])
    ensures forall j :: from <= j < i ==> !Overlap(s, resolved[j])
    decreases |resolved| - from
  {
    if from == |resolved| || Overlap(s, resolved[from]) then from else FirstOverlap(resolved, s, from + 1)
  }

  // One more candidate, compared with all that are resolved.
  function Absorb(resolved: seq<CandidateSpan>, s: CandidateSpan): seq<CandidateSpan> {
    var i := FirstOverlap(resolved, s, 0);
    if i == |resolved| then resolved + [s]
    else if Stronger(s, resolved[i]) then resolved[i := s]
    else resolved
  }

  function AbsorbAll(spans: seq<CandidateSpan>): seq<CandidateSpan> {
    if spans == [] then [] else Absorb(AbsorbAll(spans[..|spans| - 1]), spans[|spans| - 1])
  }

  function ToEntity(s: CandidateSpan): Entity {
    Entity(s.typ, s.text, s.start, s.end, s.score, s.reason)
  }

  function ToEntities(ss: seq<CandidateSpan>): (es: seq<Entity>)
    ensures |es| == |ss|
  {
    seq(|ss|, i requires 0 <= i < |ss| => ToEntity(ss[i]))
  }

  function AboveThreshold(spans: seq<CandidateSpan>, minScore: real): (f: seq<CandidateSpan>)
    ensures forall s :: s in f <==> s in spans && s.score >= minScore
  {
    if spans == [] then []
    else
      var init, s := spans[..|spans| - 1], spans[|spans| - 1];
      assert spans == init + [s];
      if s.score >= minScore then AboveThreshold(init, minScore) + [s] else AboveThreshold(init, minScore)
  }

  // The candidates above the threshold, by start, then strongest first.
  function Candidates(spans: seq<CandidateSpan>, minScore: real): seq<CandidateSpan> {
    SliceStable(AboveThreshold(spans, minScore), Before)
  }

  // The entities come, in order of their starts, from scanning every resolved span
  // for every candidate.
  function Resolved(spans: seq<CandidateSpan>, minScore: real): seq<Entity> {
    SliceStable(ToEntities(AbsorbAll(Candidates(spans, minScore))), EntityBefore)
  }

  lemma BeforeIsWeakOrder()
    ensures StrictWeakOrder(Before)
  {
  }

  lemma FirstOverlapSkips(resolved: seq<CandidateSpan>, s: CandidateSpan, from: nat)
    requires from <= |resolved|
    requires forall j :: 0 <= j < from ==> !Overlap(s, resolved[j])
    ensures FirstOverlap(resolved, s, from) == FirstOverlap(resolved, s, 0)
  {
    var i, k := FirstOverlap(resolved, s, from), FirstOverlap(resolved, s, 0);
    assert i < |resolved| ==> Overlap(s, resolved[i]);
    assert k < |resolved| ==> Overlap(s, resolved[k]);
  }

  method Filter(spans: seq<CandidateSpan>, minScore: real) returns (filtered: seq<CandidateSpan>)
    ensures filtered == AboveThreshold(spans, minScore)
  {
    filtered := [];
    for i := 0 to |spans|
      invariant filtered == AboveThreshold(spans[..i], minScore)
    {
      assert spans[..i + 1][..i] == spans[..i];
      if spans[i].score >= minScore {
        filtered := filtered + [spans[i]];
      }
    }
    assert spans[..|spans|] == spans;
  }

  // The one-pass loop, with its index of the first span that may still overlap,
  // does what the quadratic scan does, on any spans sorted by start.
  method ResolveSorted(sorted: seq<CandidateSpan>) returns (resolved: seq<CandidateSpan>)
    requires forall i, j :: 0 <= i < j < |sorted| ==> sorted[i].start <= sorted[j].start
    ensures resolved == AbsorbAll(sorted)
  {
    resolved := [];
    var activeStart := 0;
    for k := 0 to |sorted|
      invariant resolved == AbsorbAll(sorted[..k])
      invariant activeStart <= |resolved|
      invariant k < |sorted| ==> forall j :: 0 <= j < activeStart ==> resolved[j].end <= sorted[k].start
    {
      var s := sorted[k];
      assert sorted[..k + 1][..k] == sorted[..k];
      assert k + 1 < |sorted| ==> s.start <= sorted[k + 1].start;
      while activeStart < |resolved| && resolved[activeStart].end <= s.start
        invariant activeStart <= |resolved|
        invariant forall j :: 0 <= j < activeStart ==> resolved[j].end <= s.start
      {
        activeStart := activeStart + 1;
      }
      FirstOverlapSkips(resolved, s, activeStart);
      var i := activeStart;
      while i < |resolved| && !Overlap(s, resolved[i])
        invariant activeStart <= i <= |resolved|
        invariant FirstOverlap(resolved, s, activeStart) == FirstOverlap(resolved, s, i)
      {
        i := i + 1;
      }
      if i < |resolved| {
        if Stronger(s, resolved[i]) {
          resolved := resolved[i := s];
        }
      } else {
        resolved := resolved + [s];
      }
    }
    assert sorted[..|sorted|] == sorted;
  }

  method Resolve(spans: seq<CandidateSpan>, minScore: real) returns (es: seq<Entity>)
    ensures es == Resolved(spans, minScore)
  {
    var filtered := Filter(spans, minScore);
    var sorted := SliceStable(filtered, Before);
    CandidatesAreSorted(spans, minScore);
    var resolved := ResolveSorted(sorted);
    var entities := Convert(resolved);
    es := SliceStable(entities, EntityBefore);
  }

  method Convert(resolved: seq<CandidateSpan>) returns (entities: seq<Entity>)
    ensures entities == ToEntities(resolved)
  {
    entities := [];
    for k := 0 to |resolved|
      invariant entities == ToEntities(resolved)[..k]
    {
      entities := entities + [ToEntity(resolved[k])];
    }
    assert ToEntities(resolved)[..|resolved|] == ToEntities(resolved);
  }

  lemma CandidatesAreSorted(spans: seq<CandidateSpan>, minScore: real)
    ensures var cs := Candidates(spans, minScore);
      && Sorted(cs, Before) && (forall i, j :: 0 <= i < j < |cs| ==> cs[i].start <= cs[j].start)
      && (forall c :: c in cs <==> c in spans && c.score >= minScore)
  {
    BeforeIsWeakOrder();
    SliceStableSorts(AboveThreshold(spans, minScore), Before);
    PermutationMembers(Candidates(spans, minScore), AboveThreshold(spans, minScore));
    var cs := Candidates(spans, minScore);
    assert forall i, j :: 0 <= i < j < |cs| ==> !Before(cs[j], cs[i]);
  }

  // ----- what survives is disjoint

  ghost predicate NonEmpty(spans: seq<CandidateSpan>) {
    forall s :: s in spans ==> s.start < s.end
  }

  ghost predicate LeftToRight(spans: seq<CandidateSpan>) {
    forall i, j :: 0 <= i < j < |spans| ==> spans[i].end <= spans[j].start
  }

  // All that is resolved starts no later than the newcomer, so only the last of it
  // can reach the newcomer.
  lemma AbsorbKeepsDisjoint(resolved: seq<CandidateSpan>, s: CandidateSpan)
    requires LeftToRight(resolved) && s.start < s.end
    requires forall i :: 0 <= i < |resolved| ==> resolved[i].start < resolved[i].end && resolved[i].start <= s.start
    ensures LeftToRight(Absorb(resolved, s))
  {
    var last := |resolved| - 1;
    assert forall j :: 0 <= j < last ==> resolved[j].end <= resolved[last].start <= s.start;
  }

  lemma {:induction false} ResolvedIsDisjoint(sorted: seq<CandidateSpan>)
    requires Sorted(sorted, Before) && NonEmpty(sorted)
    ensures LeftToRight(AbsorbAll(sorted))
    decreases |sorted|
  {
    if sorted != [] {
      var n := |sorted| - 1;
      var init, s := sorted[..n], sorted[n];
      ResolvedIsDisjoint(init);
      var resolved := AbsorbAll(init);
      assert s in sorted;
      forall i | 0 <= i < |resolved| ensures resolved[i].start < resolved[i].end && resolved[i].start <= s.start {
        ResolvedComeFrom(init, i);
        var k :| 0 <= k < n && init[k] == resolved[i];
        assert sorted[k] in sorted && !Before(s, sorted[k]);
      }
      AbsorbKeepsDisjoint(resolved, s);
    }
  }

  lemma {:induction false} OrderedEntities(ss: seq<CandidateSpan>, es: seq<Entity>)
    requires LeftToRight(ss) && NonEmpty(ss)
    requires Permutation(es, ToEntities(ss)) && Sorted(es, EntityBefore)
    ensures forall i, j :: 0 <= i < j < |es| ==> es[i].end <= es[j].start
  {
    var all := ToEntities(ss);
    PermutationMembers(es, all);
    forall i, j | 0 <= i < j < |all| ensures all[i] != all[j] {
      assert ss[i] in ss && ss[j] in ss;
    }
    DistinctPermutation(all, es);
    forall i, j | 0 <= i < j < |es| ensures es[i].end <= es[j].start {
      assert es[i] in all && es[j] in all;
      var k :| 0 <= k < |all| && all[k] == es[i];
      var l :| 0 <= l < |all| && all[l] == es[j];
      assert k != l && !EntityBefore(es[j], es[i]);
      assert ss[k] in ss && ss[l] in ss;
    }
  }

  // For candidates that are not empty, the entities are sorted and disjoint.
  lemma ResolveIsDisjoint(spans: seq<CandidateSpan>, minScore: real)
    requires NonEmpty(spans)
    ensures var es := Resolved(spans, minScore);
      forall i, j :: 0 <= i < j < |es| ==> es[i].end <= es[j].start
  {
    var cs := Candidates(spans, minScore);
    CandidatesAreSorted(spans, minScore);
    ResolvedIsDisjoint(cs);
    forall i | 0 <= i < |AbsorbAll(cs)| ensures AbsorbAll(cs)[i] in spans {
      ResolvedComeFrom(cs, i);
    }
    SliceStableSorts(ToEntities(AbsorbAll(cs)), EntityBefore);
    OrderedEntities(AbsorbAll(cs), Resolved(spans, minScore));
  }

  // ----- no candidate goes under without a stronger one in its place

  // From `c` to `w` through candidates that overlap their neighbours and never get weaker.
  ghost predicate Chain(spans: seq<CandidateSpan>, chain: seq<CandidateSpan>, c: CandidateSpan, w: CandidateSpan) {
    && chain != [] && chain[0] == c && chain[|chain| - 1] == w
    && (forall i :: 0 <= i < |chain| ==> chain[i] in spans)
    && (forall i :: 0 < i < |chain| ==> Overlap(chain[i - 1], chain[i]) && !Stronger(chain[i - 1], chain[i]))
  }

  ghost predicate Represents(spans: seq<CandidateSpan>, w: CandidateSpan, c: CandidateSpan) {
    exists chain :: Chain(spans, chain, c, w)
  }

  lemma ChainExtends(spans: seq<CandidateSpan>, more: seq<CandidateSpan>, w: CandidateSpan, c: CandidateSpan,
                     v: CandidateSpan)
    requires Represents(spans, w, c)
    requires forall s :: s in spans ==> s in more
    requires v in more && Overlap(w, v) && !Stronger(w, v)
    ensures Represents(more, v, c) && Represents(more, w, c)
  {
    var chain :| Chain(spans, chain, c, w);
    assert Chain(more, chain, c, w);
    assert Chain(more, chain + [v], c, v);
  }

  lemma ChainCarries(spans: seq<CandidateSpan>, more: seq<CandidateSpan>, w: CandidateSpan, c: CandidateSpan)
    requires Represents(spans, w, c)
    requires forall s :: s in spans ==> s in more
    ensures Represents(more, w, c)
  {
    var chain :| Chain(spans, chain, c, w);
    assert Chain(more, chain, c, w);
  }

  // Every candidate has a survivor at least as strong, linked to it by overlaps.
  lemma {:induction false} EveryoneIsRepresented(sorted: seq<CandidateSpan>, c: CandidateSpan)
    requires c in sorted
    ensures exists w :: w in AbsorbAll(sorted) && Represents(sorted, w, c)
    decreases |sorted|
  {
    var n := |sorted| - 1;
    var init, s := sorted[..n], sorted[n];
    assert sorted == init + [s];
    var resolved, after := AbsorbAll(init), AbsorbAll(sorted);
    var i := FirstOverlap(resolved, s, 0);
    assert Chain(sorted, [s], s, s) && Represents(sorted, s, s);
    if c in init {
      EveryoneIsRepresented(init, c);
      var w :| w in resolved && Represents(init, w, c);
      ChainCarries(init, sorted, w, c);
      var k :| 0 <= k < |resolved| && resolved[k] == w;
      if i < |resolved| && k == i && Stronger(s, w) {
        ChainExtends(init, sorted, w, c, s);
        assert after[i] == s;
      } else {
        assert after[k] == w;
      }
    } else {
      if i < |resolved| && !Stronger(s, resolved[i]) {
        ResolvedComeFrom(init, i);
        assert Chain(sorted, [s, resolved[i]], s, resolved[i]);
        assert after[i] == resolved[i] && Represents(sorted, resolved[i], s);
      } else if i < |resolved| {
        assert after[i] == s;
      } else {
        assert after[|resolved|] == s;
      }
    }
  }

  // Along a chain nothing gets weaker.
  lemma {:induction false} ChainRises(spans: seq<CandidateSpan>, chain: seq<CandidateSpan>, c: CandidateSpan,
                                      w: CandidateSpan)
    requires Chain(spans, chain, c, w)
    ensures !Stronger(c, w)
    decreases |chain|
  {
    var n := |chain| - 1;
    if n > 0 {
      ChainRises(spans, chain[..n], c, chain[n - 1]);
    }
  }

  // Every candidate above the threshold has an entity from a candidate of at least
  // its evidence, then its score, linked to it by overlaps.
  lemma NobodyIsLost(spans: seq<CandidateSpan>, minScore: real, c: CandidateSpan)
    requires c in spans && c.score >= minScore
    ensures exists w :: ToEntity(w) in Resolved(spans, minScore) && !Stronger(c, w) && Represents(spans, w, c)
  {
    var cs := Candidates(spans, minScore);
    CandidatesAreSorted(spans, minScore);
    EveryoneIsRepresented(cs, c);
    var w :| w in AbsorbAll(cs) && Represents(cs, w, c);
    var chain :| Chain(cs, chain, c, w);
    ChainRises(cs, chain, c, w);
    ChainCarries(cs, spans, w, c);
    SliceStableSorts(ToEntities(AbsorbAll(cs)), EntityBefore);
    PermutationMembers(Resolved(spans, minScore), ToEntities(AbsorbAll(cs)));
    var k :| 0 <= k < |AbsorbAll(cs)| && AbsorbAll(cs)[k] == w;
    assert ToEntities(AbsorbAll(cs))[k] == ToEntity(w);
  }

  // In terms of the candidates alone: every candidate above the threshold leads, through
  // candidates each of which shares a place with the one before it, to the one an entity
  // was made of, and that one is no weaker: a checksum with its context counts most,
  // then a checksum, then a dictionary word with its context, then either of these
  // alone, then the rest; the score decides between equals.
  lemma SurvivorIsNoWeaker(spans: seq<CandidateSpan>, minScore: real, c: CandidateSpan)
    returns (chain: seq<CandidateSpan>)
    requires c in spans && c.score >= minScore
    ensures chain != [] && chain[0] == c && forall i :: 0 <= i < |chain| ==> chain[i] in spans
    ensures forall i :: 0 < i < |chain| ==>
      chain[i - 1].start < chain[i].end && chain[i].start < chain[i - 1].end
    ensures var w := chain[|chain| - 1];
      && Entity(w.typ, w.text, w.start, w.end, w.score, w.reason) in Resolved(spans, minScore)
      && (Checksum in c.sources ==> Checksum in w.sources)
      && (Checksum in c.sources && Context in c.sources ==> Context in w.sources)
      && (Checksum !in w.sources && Dictionary in c.sources && Context in c.sources ==>
            Dictionary in w.sources && Context in w.sources)
      && (Checksum !in w.sources && (Dictionary in c.sources || Context in c.sources) ==>
            Dictionary in w.sources || Context in w.sources)
    ensures var w := chain[|chain| - 1];
      var checked := Checksum in c.sources && Checksum in w.sources;
      var unchecked := Checksum !in c.sources && Checksum !in w.sources;
      var sameContext := (Context in c.sources) == (Context in w.sources);
      var sameWord := (Dictionary in c.sources) == (Dictionary in w.sources);
      var oneEach := (Dictionary in c.sources) != (Context in c.sources)
                     && (Dictionary in w.sources) != (Context in w.sources);
      (checked && sameContext) || (unchecked && (oneEach || (sameContext && sameWord))) ==> c.score <= w.score
  {
    NobodyIsLost(spans, minScore, c);
    var w :| ToEntity(w) in Resolved(spans, minScore) && !Stronger(c, w) && Represents(spans, w, c);
    chain :| Chain(spans, chain, c, w);
  }

  // Nothing is made up: every entity is what a candidate above the threshold says, and
  // the entities come in the order of their starts.
  lemma EntitiesAreCandidates(spans: seq<CandidateSpan>, minScore: real, k: nat)
    requires k < |Resolved(spans, minScore)|
    ensures var es := Resolved(spans, minScore);
      && (exists w :: w in spans && w.score >= minScore
                      && es[k] == Entity(w.typ, w.text, w.start, w.end, w.score, w.reason))
      && (forall j :: k < j < |es| ==> es[k].start <= es[j].start)
  {
    var es, all := Resolved(spans, minScore), ToEntities(AbsorbAll(Candidates(spans, minScore)));
    SliceStableSorts(all, EntityBefore);
    PermutationMembers(es, all);
    assert es[k] in all;
    var i :| 0 <= i < |all| && all[i] == es[k];
    ResolvedComeFrom(Candidates(spans, minScore), i);
    CandidatesAreSorted(spans, minScore);
    assert forall j :: k < j < |es| ==> !EntityBefore(es[j], es[k]);
  }

  lemma {:induction false} ResolvedComeFrom(spans: seq<CandidateSpan>, i: nat)
    requires i < |AbsorbAll(spans)|
    ensures AbsorbAll(spans)[i] in spans
    decreases |spans|
  {
    var n := |spans| - 1;
    var resolved := AbsorbAll(spans[..n]);
    assert spans == spans[..n] + [spans[n]];
    if i < |resolved| {
      ResolvedComeFrom(spans[..n], i);
    }
  }
}
