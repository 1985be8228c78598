/** Splicing tokens into a text, and recording how to take them out again. */
module Apply {
  import opened Wrappers
  import opened Ordering
  import opened Pii
  import opened Resolution
  import Utf8

  datatype Masked = Masked(text: string, mappings: seq<TokenMapping>)

  // ----- what masking with a plan means

  predicate StartsBefore(a: Replacement, b: Replacement) {
    a.start < b.start
  }

  // The conditions `validateReplacements` checks, on replacements sorted by start.
  ghost predicate ValidPlan(text: string, rs: seq<Replacement>) {
    && (forall i :: 0 <= i < |rs| ==> Sound(text, rs[i]) && rs[i].token != "")
    && (forall i :: 0 < i < |rs| ==> !SpansOverlap(rs[i - 1], rs[i]))
  }

  // A token stands for one value of one kind.
  ghost predicate TokensAgree(rs: seq<Replacement>) {
    forall i, j :: 0 <= i < j < |rs| && rs[i].token == rs[j].token ==>
      rs[i].original == rs[j].original && rs[i].kind == rs[j].kind
  }

  ghost predicate Applicable(text: string, rs: seq<Replacement>) {
    Sorted(rs, StartsBefore) && ValidPlan(text, rs) && TokensAgree(rs)
  }

  function MappingOf(r: Replacement): TokenMapping {
    TokenMapping(r.token, r.original, r.kind, r.source, r.start, r.end)
  }

  function MappingsOf(rs: seq<Replacement>): (ms: seq<TokenMapping>)
    ensures |ms| == |rs|
  {
    seq(|rs|, i requires 0 <= i < |rs| => MappingOf(rs[i]))
  }

  // The replacements lie in `text[pos..]`, left to right.
  ghost predicate Fits(text: string, pos: nat, rs: seq<Replacement>) {
    && pos <= |text|
    && InTextOrder(rs)
    && forall r :: r in rs ==> pos <= r.start < r.end <= |text|
  }

  // `text[pos..]` with every replaced span turned into its token.
  function Splice(text: string, pos: nat, rs: seq<Replacement>): string
    requires Fits(text, pos, rs)
    decreases |rs|
  {
    if rs == [] then text[pos..]
    else
      FitsTail(text, pos, rs);
      text[pos..rs[0].start] + rs[0].token + Splice(text, rs[0].end, rs[1..])
  }

  lemma FitsTail(text: string, pos: nat, rs: seq<Replacement>)
    requires Fits(text, pos, rs) && rs != []
    ensures rs[0] in rs && Fits(text, rs[0].end, rs[1..])
  {
    forall r | r in rs[1..] ensures rs[0].end <= r.start {
      var i :| 0 <= i < |rs[1..]| && rs[1..][i] == r;
      assert r == rs[i + 1] && r in rs;
    }
  }

  lemma ApplicableFits(text: string, rs: seq<Replacement>)
    requires Sorted(rs, StartsBefore) && ValidPlan(text, rs)
    ensures Fits(text, 0, rs)
  {
    forall i, j | 0 <= i < j < |rs| ensures rs[i].end <= rs[j].start {
      EndsBefore(text, rs, i, j);
    }
  }

  lemma {:induction false} EndsBefore(text: string, rs: seq<Replacement>, i: nat, j: nat)
    requires Sorted(rs, StartsBefore) && ValidPlan(text, rs) && i < j < |rs|
    ensures rs[i].end <= rs[j].start
    decreases j
  {
    assert !SpansOverlap(rs[j - 1], rs[j]) && !StartsBefore(rs[j], rs[j - 1]);
    assert Sound(text, rs[j - 1]) && Sound(text, rs[j]);
    if i < j - 1 {
      EndsBefore(text, rs, i, j - 1);
    }
  }

  // `result` is what masking `text` with the replacements `rs`, in any order, gives.
  ghost predicate ApplySpec(text: string, rs: seq<Replacement>, result: Result<Masked, Error>) {
    match result
    case Ok(m) =>
      exists sorted :: && Permutation(sorted, rs) && Applicable(text, sorted)
                       && Fits(text, 0, sorted)
                       && m == Masked(Splice(text, 0, sorted), MappingsOf(sorted))
    case Err(error) =>
      && error == InvalidSpan
      && forall sorted :: Permutation(sorted, rs) ==> !Applicable(text, sorted)
  }

  // ----- the result does not depend on how ties are sorted

  lemma SortIsUnique(text: string, xs: seq<Replacement>, ys: seq<Replacement>)
    requires Sorted(xs, StartsBefore) && ValidPlan(text, xs)
    requires Sorted(ys, StartsBefore) && Permutation(xs, ys)
    ensures xs == ys
  {
    ApplicableFits(text, xs);
    PermutationMembers(xs, ys);
    forall i, j | 0 <= i < j < |xs| ensures xs[i] != xs[j] {
      assert Sound(text, xs[i]) && Sound(text, xs[j]);
    }
    DistinctPermutation(xs, ys);
    forall i, j | 0 <= i < j < |ys| ensures ys[i].end <= ys[j].start {
      assert ys[i] in xs && ys[j] in xs;
      var k :| 0 <= k < |xs| && xs[k] == ys[i];
      var l :| 0 <= l < |xs| && xs[l] == ys[j];
      assert k != l && !StartsBefore(ys[j], ys[i]);
      assert Sound(text, xs[k]) && Sound(text, xs[l]);
    }
    forall r | r in xs ensures r.start < r.end {
      var k :| 0 <= k < |xs| && xs[k] == r;
      assert Sound(text, xs[k]);
    }
    SameOrderedPieces(xs, ys);
  }

  lemma ApplyIsDeterministic(text: string, rs: seq<Replacement>, x: Result<Masked, Error>, y: Result<Masked, Error>)
    requires ApplySpec(text, rs, x) && ApplySpec(text, rs, y)
    ensures x == y
  {
    if x.Ok? && y.Ok? {
      var xs :| Permutation(xs, rs) && Applicable(text, xs) && Fits(text, 0, xs)
                && x.value == Masked(Splice(text, 0, xs), MappingsOf(xs));
      var ys :| Permutation(ys, rs) && Applicable(text, ys) && Fits(text, 0, ys)
                && y.value == Masked(Splice(text, 0, ys), MappingsOf(ys));
      SortIsUnique(text, xs, ys);
    }
  }

  // ----- the methods

  method ValidateReplacements(text: string, rs: seq<Replacement>) returns (ok: bool)
    ensures ok <==> ValidPlan(text, rs)
  {
    for i := 0 to |rs|
      invariant forall j :: 0 <= j < i ==> Sound(text, rs[j]) && rs[j].token != ""
      invariant forall j :: 0 < j < i ==> !SpansOverlap(rs[j - 1], rs[j])
    {
      var r := rs[i];
      if !ValidSpan(text, r.start, r.end) || text[r.start..r.end] != r.original {
        return false;
      }
      if r.token == "" {
        return false;
      }
      if i > 0 && SpansOverlap(rs[i - 1], r) {
        return false;
      }
    }
    return true;
  }

  method BuildMappings(rs: seq<Replacement>) returns (result: Result<seq<TokenMapping>, Error>)
    ensures TokensAgree(rs) ==> result == Ok(MappingsOf(rs))
    ensures !TokensAgree(rs) ==> result == Err(InvalidSpan)
  {
    var tokenOriginals: map<string, TokenMapping> := map[];
    var mappings: seq<TokenMapping> := [];
    for i := 0 to |rs|
      invariant mappings == MappingsOf(rs)[..i]
      invariant forall t :: t in tokenOriginals ==> exists j :: 0 <= j < i && rs[j].token == t
      invariant forall j :: 0 <= j < i ==>
        && rs[j].token in tokenOriginals
        && tokenOriginals[rs[j].token].original == rs[j].original
        && tokenOriginals[rs[j].token].kind == rs[j].kind
    {
      var r := rs[i];
      if r.token in tokenOriginals {
        var existing := tokenOriginals[r.token];
        if existing.original != r.original || existing.kind != r.kind {
          return Err(InvalidSpan);
        }
      } else {
        tokenOriginals := tokenOriginals[r.token := TokenMapping(r.token, r.original, r.kind, r.source, 0, 0)];
      }
      mappings := mappings + [MappingOf(r)];
    }
    assert MappingsOf(rs)[..|rs|] == MappingsOf(rs);
    return Ok(mappings);
  }

  // The parts were collected from right to left.
  function JoinReversed(parts: seq<string>): string {
    if parts == [] then "" else parts[|parts| - 1] + JoinReversed(parts[..|parts| - 1])
  }

  lemma SpliceAdvance(text: string, pos: nat, mid: nat, rs: seq<Replacement>)
    requires Fits(text, pos, rs) && pos <= mid <= |text|
    requires rs == [] || mid == rs[0].start
    ensures Fits(text, mid, rs)
    ensures Splice(text, pos, rs) == text[pos..mid] + Splice(text, mid, rs)
  {
    if rs == [] {
      assert text[pos..] == text[pos..mid] + text[mid..];
    } else {
      FitsFrom(text, pos, rs, 0);
      assert rs[0..] == rs;
      FitsTail(text, pos, rs);
      var rest := Splice(text, rs[0].end, rs[1..]);
      assert text[mid..mid] == "";
      Associates(text[pos..mid], rs[0].token, rest);
    }
  }

  lemma Associates(a: string, b: string, c: string)
    ensures a + b + c == a + (b + c)
    ensures "" + b + c == b + c
  {
  }

  // One replacement further to the left.
  lemma StepBack(text: string, rs: seq<Replacement>, i: nat, prev: nat)
    requires Fits(text, 0, rs) && i < |rs|
    requires prev == if i + 1 < |rs| then rs[i + 1].start else |text|
    requires Fits(text, prev, rs[i + 1..])
    ensures rs[i] in rs && rs[i].end <= prev
    ensures Fits(text, rs[i].start, rs[i..])
    ensures Splice(text, rs[i].start, rs[i..])
         == rs[i].token + (text[rs[i].end..prev] + Splice(text, prev, rs[i + 1..]))
  {
    FitsFrom(text, 0, rs, i);
    assert rs[i..][1..] == rs[i + 1..];
    FitsTail(text, rs[i].start, rs[i..]);
    SpliceAdvance(text, rs[i].end, prev, rs[i + 1..]);
    assert text[rs[i].start..rs[i].start] == "";
    Associates("", rs[i].token, Splice(text, rs[i].end, rs[i + 1..]));
  }

  lemma JoinSnoc(parts: seq<string>, part: string)
    ensures JoinReversed(parts + [part]) == part + JoinReversed(parts)
  {
    assert (parts + [part])[..|parts|] == parts;
  }

  method BuildMaskedText(text: string, rs: seq<Replacement>) returns (masked: string)
    requires Fits(text, 0, rs)
    ensures masked == Splice(text, 0, rs)
  {
    var parts: seq<string> := [];
    var prev := |text|;
    var i := |rs|;
    while i > 0
      invariant 0 <= i <= |rs|
      invariant prev == if i < |rs| then rs[i].start else |text|
      invariant Fits(text, prev, rs[i..])
      invariant JoinReversed(parts) == Splice(text, prev, rs[i..])
    {
      i := i - 1;
      var r := rs[i];
      StepBack(text, rs, i, prev);
      JoinSnoc(parts, text[r.end..prev]);
      parts := parts + [text[r.end..prev]];
      JoinSnoc(parts, r.token);
      parts := parts + [r.token];
      prev := r.start;
    }
    assert rs[0..] == rs;
    SpliceAdvance(text, 0, prev, rs);
    JoinSnoc(parts, text[..prev]);
    parts := parts + [text[..prev]];
    masked := JoinParts(parts);
  }

  // The string builder at the end.
  method JoinParts(parts: seq<string>) returns (joined: string)
    ensures joined == JoinReversed(parts)
  {
    joined := "";
    var i := |parts|;
    assert parts[..|parts|] == parts;
    while i > 0
      invariant 0 <= i <= |parts|
      invariant joined + JoinReversed(parts[..i]) == JoinReversed(parts)
    {
      assert parts[..i][..i - 1] == parts[..i - 1];
      i := i - 1;
      joined := joined + parts[i];
    }
  }

  lemma FitsFrom(text: string, pos: nat, rs: seq<Replacement>, i: nat)
    requires Fits(text, pos, rs) && i < |rs|
    ensures rs[i] in rs && Fits(text, rs[i].start, rs[i..])
  {
    forall r | r in rs[i..] ensures rs[i].start <= r.start < r.end <= |text| {
      var k :| 0 <= k < |rs[i..]| && rs[i..][k] == r;
      assert r == rs[i + k] && r in rs && rs[i] in rs;
    }
  }

  method ApplyReplacements(text: string, replacements: seq<Replacement>) returns (result: Result<Masked, Error>)
    ensures ApplySpec(text, replacements, result)
  {
    var sorted := SortSlice(replacements, StartsBefore);
    forall other | Permutation(other, replacements) && Applicable(text, other) ensures other == sorted {
      SortIsUnique(text, other, sorted);
    }
    var valid := ValidateReplacements(text, sorted);
    if !valid {
      return Err(InvalidSpan);
    }
    ApplicableFits(text, sorted);
    var mappings := BuildMappings(sorted);
    if mappings.Err? {
      return Err(mappings.error);
    }
    var masked := BuildMaskedText(text, sorted);
    return Ok(Masked(masked, mappings.value));
  }

  // ----- masking again

  // A replacement rebuilt from a stored mapping; the confidence is not stored.
  function FromMapping(m: TokenMapping): Replacement {
    Replacement(m.start, m.end, m.token, m.original, m.kind, m.source, 0.0)
  }

  function FromMappings(ms: seq<TokenMapping>): (rs: seq<Replacement>)
    ensures |rs| == |ms|
  {
    seq(|ms|, i requires 0 <= i < |ms| => FromMapping(ms[i]))
  }

  lemma MappingsTail(xs: seq<Replacement>, ys: seq<Replacement>)
    requires MappingsOf(xs) == MappingsOf(ys) && xs != []
    ensures ys != [] && MappingOf(xs[0]) == MappingOf(ys[0]) && MappingsOf(xs[1..]) == MappingsOf(ys[1..])
  {
    assert |xs| == |MappingsOf(xs)| == |MappingsOf(ys)| == |ys|;
    assert MappingOf(xs[0]) == MappingsOf(xs)[0] == MappingsOf(ys)[0] == MappingOf(ys[0]);
    forall i | 0 <= i < |xs| - 1 ensures MappingsOf(xs[1..])[i] == MappingsOf(ys[1..])[i] {
      assert MappingsOf(xs)[i + 1] == MappingsOf(ys)[i + 1];
    }
  }

  lemma {:induction false} SpliceIgnoresConfidence(text: string, pos: nat, xs: seq<Replacement>, ys: seq<Replacement>)
    requires Fits(text, pos, xs) && Fits(text, pos, ys) && MappingsOf(xs) == MappingsOf(ys)
    ensures Splice(text, pos, xs) == Splice(text, pos, ys)
    decreases |xs|
  {
    if xs == [] {
      assert |ys| == |MappingsOf(ys)| == 0;
    } else {
      MappingsTail(xs, ys);
      FitsTail(text, pos, xs);
      FitsTail(text, pos, ys);
      SpliceIgnoresConfidence(text, xs[0].end, xs[1..], ys[1..]);
    }
  }

  // Masking a text again from the mappings of the first masking reproduces it,
  // text and mappings both.
  lemma MaskingAgainReproduces(text: string, rs: seq<Replacement>, m: Masked)
    requires ApplySpec(text, rs, Ok(m))
    ensures ApplySpec(text, FromMappings(m.mappings), Ok(m))
  {
    var sorted: seq<Replacement> :| Permutation(sorted, rs) && Applicable(text, sorted) && Fits(text, 0, sorted)
                  && m == Masked(Splice(text, 0, sorted), MappingsOf(sorted));
    var again := FromMappings(m.mappings);
    forall i | 0 <= i < |sorted| ensures again[i] == Unconfident(sorted[i]) {
      assert m.mappings[i] == MappingOf(sorted[i]);
    }
    ApplicableWithoutConfidence(text, sorted, again);
    SameMappings(sorted, again);
    SpliceIgnoresConfidence(text, 0, sorted, again);
    AppliesItself(text, again);
  }

  lemma SameMappings(rs: seq<Replacement>, again: seq<Replacement>)
    requires |again| == |rs| && forall i :: 0 <= i < |rs| ==> again[i] == Unconfident(rs[i])
    ensures MappingsOf(again) == MappingsOf(rs)
  {
    forall i | 0 <= i < |rs| ensures MappingOf(again[i]) == MappingOf(rs[i]) {
    }
  }

  lemma AppliesItself(text: string, rs: seq<Replacement>)
    requires Applicable(text, rs) && Fits(text, 0, rs)
    ensures ApplySpec(text, rs, Ok(Masked(Splice(text, 0, rs), MappingsOf(rs))))
  {
    assert Permutation(rs, rs);
  }

  function Unconfident(r: Replacement): Replacement {
    r.(confidence := 0.0)
  }

  lemma ApplicableWithoutConfidence(text: string, rs: seq<Replacement>, again: seq<Replacement>)
    requires Applicable(text, rs) && |again| == |rs|
    requires forall i :: 0 <= i < |rs| ==> again[i] == Unconfident(rs[i])
    ensures Applicable(text, again) && Fits(text, 0, again)
  {
    assert forall i, j :: 0 <= i < j < |rs| ==> !StartsBefore(rs[j], rs[i]);
    forall i | 0 <= i < |again| ensures Sound(text, again[i]) && again[i].token != "" {
      assert Sound(text, rs[i]);
    }
    forall i | 0 < i < |again| ensures !SpansOverlap(again[i - 1], again[i]) {
      assert !SpansOverlap(rs[i - 1], rs[i]);
    }
    ApplicableFits(text, again);
  }

  // ----- what can be applied

  // Every replacement is a stretch of well-formed UTF-8 of the text, and has a token.
  ghost predicate EachStands(text: string, rs: seq<Replacement>) {
    forall i :: 0 <= i < |rs| ==>
      && 0 <= rs[i].start < rs[i].end <= |text| && rs[i].token != ""
      && Utf8.Valid(rs[i].original) && rs[i].original == text[rs[i].start..rs[i].end]
  }

  ghost predicate NoneOverlap(rs: seq<Replacement>) {
    forall i, j :: 0 <= i < |rs| && 0 <= j < |rs| && i != j ==>
      rs[i].end <= rs[j].start || rs[j].end <= rs[i].start
  }

  ghost predicate OneValueEach(rs: seq<Replacement>) {
    forall i, j :: 0 <= i < |rs| && 0 <= j < |rs| && rs[i].token == rs[j].token ==>
      rs[i].original == rs[j].original && rs[i].kind == rs[j].kind
  }

  // Order does not matter for any of it.
  lemma ReorderedStands(text: string, rs: seq<Replacement>, ss: seq<Replacement>)
    requires Permutation(ss, rs) && EachStands(text, rs) && NoneOverlap(rs) && OneValueEach(rs)
    ensures EachStands(text, ss) && NoneOverlap(ss) && OneValueEach(ss)
  {
    PermutationMembers(ss, rs);
    forall i, j | 0 <= i < j < |rs| ensures rs[i] != rs[j] {
      assert rs[i].end <= rs[j].start || rs[j].end <= rs[i].start;
    }
    DistinctPermutation(rs, ss);
    forall i, j | 0 <= i < |ss| && 0 <= j < |ss|
      ensures i != j ==> ss[i].end <= ss[j].start || ss[j].end <= ss[i].start
      ensures ss[i].token == ss[j].token ==> ss[i].original == ss[j].original && ss[i].kind == ss[j].kind
    {
      assert ss[i] in rs && ss[j] in rs;
      var k :| 0 <= k < |rs| && rs[k] == ss[i];
      var l :| 0 <= l < |rs| && rs[l] == ss[j];
      assert i != j ==> ss[i] != ss[j];
    }
    forall i | 0 <= i < |ss| ensures ss[i] in rs {
      assert ss[i] in ss;
    }
  }

  lemma ApplicableStands(text: string, sorted: seq<Replacement>)
    requires Sorted(sorted, StartsBefore)
    ensures Applicable(text, sorted) <==> EachStands(text, sorted) && NoneOverlap(sorted) && OneValueEach(sorted)
  {
    if Applicable(text, sorted) {
      forall i, j | 0 <= i < |sorted| && 0 <= j < |sorted| && i != j
        ensures sorted[i].end <= sorted[j].start || sorted[j].end <= sorted[i].start
      {
        EndsBefore(text, sorted, if i < j then i else j, if i < j then j else i);
      }
      forall i | 0 <= i < |sorted| ensures Sound(text, sorted[i]) {
      }
    }
  }

  lemma StartsBeforeIsWeakOrder()
    ensures StrictWeakOrder(StartsBefore)
  {
  }

  // Masking succeeds exactly when every replacement stands in the text, no two overlap,
  // and no token stands for two values; that the source looks only at neighbours in the
  // order of starts makes no difference.
  lemma AppliesExactly(text: string, rs: seq<Replacement>, result: Result<Masked, Error>)
    requires ApplySpec(text, rs, result)
    ensures result.Ok? <==> EachStands(text, rs) && NoneOverlap(rs) && OneValueEach(rs)
  {
    if result.Ok? {
      var sorted :| Permutation(sorted, rs) && Applicable(text, sorted);
      ApplicableStands(text, sorted);
      ReorderedStands(text, sorted, rs);
    } else if EachStands(text, rs) && NoneOverlap(rs) && OneValueEach(rs) {
      StartsBeforeIsWeakOrder();
      SliceStableSorts(rs, StartsBefore);
      ReorderedStands(text, rs, SliceStable(rs, StartsBefore));
      ApplicableStands(text, SliceStable(rs, StartsBefore));
    }
  }
}
