/** What one request to the processor does: narrowing the policy, recognising a
    retry, and answering from an existing session. */
module Requests {
  import opened Wrappers
  import opened Ordering
  import opened Pii
  import opened Tokens
  import opened Sequences
  import opened Apply
  import opened Detokenizer
  import opened Store

  datatype Request = Request(payload: string, payloadID: string, maskKinds: seq<string>, maskKindsSet: bool)

  // ----- the kinds a request asks for

  ghost predicate Grantable(pol: Policy, kinds: seq<string>) {
    forall k :: k in kinds ==> IsKnownKind(k) && k in pol.allowedKinds
  }

  // Kind `i` is the first that cannot be granted, for the reason `error`.
  ghost predicate FirstRefused(pol: Policy, kinds: seq<string>, i: nat, error: Error)
    requires i < |kinds|
  {
    && Grantable(pol, kinds[..i])
    && if !IsKnownKind(kinds[i]) then error == InvalidMaskKind
       else kinds[i] !in pol.allowedKinds && error == PolicyRejected
  }

  // The request can only narrow the policy. The first kind that cannot be granted
  // decides the error.
  method ApplyMaskKinds(pol: Policy, kinds: seq<string>) returns (result: Result<Policy, Error>)
    ensures result.Ok? <==> Grantable(pol, kinds)
    ensures result.Ok? ==>
      && result.value == pol.(allowedKinds := result.value.allowedKinds)
      && result.value.allowedKinds <= pol.allowedKinds
      && forall k :: k in result.value.allowedKinds <==> k in kinds
    ensures result.Err? ==> exists i :: 0 <= i < |kinds| && FirstRefused(pol, kinds, i, result.error)
  {
    var allowed: set<string> := {};
    for i := 0 to |kinds|
      invariant Grantable(pol, kinds[..i])
      invariant allowed <= pol.allowedKinds
      invariant forall k :: k in allowed <==> k in kinds[..i]
    {
      var k := kinds[i];
      assert kinds[..i + 1] == kinds[..i] + [k];
      assert k in kinds;
      if !IsKnownKind(k) {
        assert FirstRefused(pol, kinds, i, InvalidMaskKind);
        return Err(InvalidMaskKind);
      }
      if k !in pol.allowedKinds {
        assert FirstRefused(pol, kinds, i, PolicyRejected);
        return Err(PolicyRejected);
      }
      allowed := allowed + {k};
    }
    assert kinds[..|kinds|] == kinds;
    return Ok(pol.(allowedKinds := allowed));
  }

  ghost predicate StrictlySorted(s: seq<string>) {
    forall i, j :: 0 <= i < j < |s| ==> StringLess(s[i], s[j])
  }

  // `c` lists the kinds of `kinds`, each once, in order.
  ghost predicate IsCanonical(kinds: seq<string>, c: seq<string>) {
    StrictlySorted(c) && forall k :: k in c <==> k in kinds
  }

  lemma {:induction false} StrictlySortedIsUnique(a: seq<string>, b: seq<string>)
    requires StrictlySorted(a) && StrictlySorted(b)
    requires forall k :: k in a <==> k in b
    ensures a == b
  {
    EmptyTogether(a, b);
    if a != [] {
      assert a[0] in b && b[0] in a;
      var i :| 0 <= i < |b| && b[i] == a[0];
      var j :| 0 <= j < |a| && a[j] == b[0];
      StringLessTotal(a[0], b[0]);
      assert a[0] == b[0];
      forall k ensures k in a[1..] <==> k in b[1..] {
        RestMembers(a, k);
        RestMembers(b, k);
      }
      StrictlySortedIsUnique(a[1..], b[1..]);
    }
  }

  lemma RestMembers(s: seq<string>, k: string)
    requires StrictlySorted(s) && s != []
    ensures k in s[1..] <==> k in s && k != s[0]
  {
    if k in s[1..] {
      var i :| 0 <= i < |s[1..]| && s[1..][i] == k;
      StringLessTotal(s[0], s[i + 1]);
    }
  }

  // One list per set of kinds.
  lemma CanonicalIsUnique(kinds: seq<string>, others: seq<string>, c: seq<string>, d: seq<string>)
    requires IsCanonical(kinds, c) && IsCanonical(others, d)
    ensures c == d <==> forall k :: k in kinds <==> k in others
  {
    if forall k :: k in kinds <==> k in others {
      StrictlySortedIsUnique(c, d);
    }
  }

  lemma StringLessIsWeakOrder()
    ensures StrictWeakOrder(StringLess)
  {
    forall a: string, b: string, c: string
      ensures !StringLess(a, a)
      ensures StringLess(a, c) ==> StringLess(a, b) || StringLess(b, c)
      ensures !(StringLess(a, b) && StringLess(b, a))
    {
      StringLessTotal(a, a);
      StringLessTotal(a, b);
      StringLessTotal(b, c);
      if StringLess(c, b) && StringLess(b, a) {
        StringLessTransitive(c, b, a);
      }
      StringLessTotal(a, c);
    }
  }

  method CanonicalMaskKinds(kinds: seq<string>) returns (canonical: seq<string>)
    ensures IsCanonical(kinds, canonical)
  {
    var seen: set<string> := {};
    var uniq: seq<string> := [];
    for i := 0 to |kinds|
      invariant forall k :: k in seen <==> k in kinds[..i]
      invariant forall k :: k in uniq <==> k in seen
      invariant Distinct(uniq)
    {
      assert kinds[..i + 1] == kinds[..i] + [kinds[i]];
      if kinds[i] in seen {
        continue;
      }
      seen := seen + {kinds[i]};
      uniq := uniq + [kinds[i]];
    }
    assert kinds[..|kinds|] == kinds;
    StringLessIsWeakOrder();
    canonical := SortSlice(uniq, StringLess);
    PermutationMembers(canonical, uniq);
    DistinctPermutation(uniq, canonical);
    forall i, j | 0 <= i < j < |canonical| ensures StringLess(canonical[i], canonical[j]) {
      StringLessTotal(canonical[i], canonical[j]);
    }
  }

  // Whether the request selects what the session was made with: both leave the
  // field out, or both name the same set.
  ghost predicate SameSelection(s: Session, req: Request) {
    && s.maskKindsSet == req.maskKindsSet
    && (s.maskKindsSet ==> IsCanonical(req.maskKinds, s.maskKinds))
  }

  method MaskKindsMatch(session: Session, req: Request) returns (b: bool)
    ensures b <==> SameSelection(session, req)
  {
    if session.maskKindsSet != req.maskKindsSet {
      return false;
    }
    if !session.maskKindsSet {
      return true;
    }
    var cur := CanonicalMaskKinds(req.maskKinds);
    if IsCanonical(req.maskKinds, session.maskKinds) {
      CanonicalIsUnique(req.maskKinds, req.maskKinds, cur, session.maskKinds);
    }
    if |session.maskKinds| != |cur| {
      return false;
    }
    for i := 0 to |cur|
      invariant forall j :: 0 <= j < i ==> session.maskKinds[j] == cur[j]
    {
      if session.maskKinds[i] != cur[i] {
        return false;
      }
    }
    assert session.maskKinds == cur;
    return true;
  }

  // ----- answering from a session

  lemma ApplyHasResult(text: string, rs: seq<Replacement>)
    ensures exists r :: ApplySpec(text, rs, r)
  {
    if sorted: seq<Replacement> :| Permutation(sorted, rs) && Applicable(text, sorted) {
      ApplicableFits(text, sorted);
      assert ApplySpec(text, rs, Ok(Masked(Splice(text, 0, sorted), MappingsOf(sorted))));
    } else {
      assert ApplySpec(text, rs, Err(InvalidSpan));
    }
  }

  // The one result of masking `text` with `rs`.
  ghost function Applied(text: string, rs: seq<Replacement>): (r: Result<Masked, Error>)
    ensures ApplySpec(text, rs, r)
  {
    ApplyHasResult(text, rs);
    var r :| ApplySpec(text, rs, r);
    r
  }

  predicate HoldsKnownToken(payload: string, ms: seq<TokenMapping>) {
    exists i :: 0 <= i < |ms| && ms[i].token != "" && Occurs(payload, ms[i].token)
  }

  ghost function Retried(payload: string, ms: seq<TokenMapping>): Result<string, Error> {
    match Applied(payload, FromMappings(ms))
    case Ok(m) => Ok(m.text)
    case Err(e) => Err(e)
  }

  ghost function Demasked(payload: string, ms: seq<TokenMapping>, allowed: bool): Result<string, Error> {
    if HoldsKnownToken(payload, ms) && !allowed then Err(DemaskingDisabled)
    else match DetokenizeSpec(payload, ms)
      case Err(e) => Err(e)
      case Ok(text) => if text == payload then Err(PayloadIDConflict) else Ok(text)
  }

  ghost function Handled(req: Request, s: Session, pol: Policy): Result<string, Error> {
    match s.status
    case Processing => Err(ProcessingInProgress)
    case Failed => Err(DetectorUnavailable)
    case OtherStatus => Err(StoreUnavailable)
    case Ready =>
      if Digest(req.payload) != s.payloadHash then Demasked(req.payload, s.mappings, pol.detokenizationAllowed)
      else if !SameSelection(s, req) then Err(PayloadIDConflict)
      else Retried(req.payload, s.mappings)
  }

  method HandleExisting(req: Request, session: Session, pol: Policy) returns (response: Result<string, Error>)
    ensures response == Handled(req, session, pol)
    ensures session.status == Ready && session.payloadHash != Digest(req.payload) ==> response != Ok(req.payload)
    ensures session.status == Processing ==> response == Err(ProcessingInProgress)
    ensures session.status == Failed ==> response == Err(DetectorUnavailable)
    ensures session.status == OtherStatus ==> response == Err(StoreUnavailable)
  {
    match session.status {
      case Processing => return Err(ProcessingInProgress);
      case Failed => return Err(DetectorUnavailable);
      case OtherStatus => return Err(StoreUnavailable);
      case Ready =>
    }
    if Digest(req.payload) == session.payloadHash {
      var matches := MaskKindsMatch(session, req);
      if !matches {
        return Err(PayloadIDConflict);
      }
      var replacements: seq<Replacement> := [];
      for i := 0 to |session.mappings|
        invariant replacements == FromMappings(session.mappings)[..i]
      {
        replacements := replacements + [FromMapping(session.mappings[i])];
      }
      assert replacements == FromMappings(session.mappings);
      var masked := ApplyReplacements(req.payload, replacements);
      ApplyIsDeterministic(req.payload, replacements, masked, Applied(req.payload, replacements));
      if masked.Err? {
        return Err(masked.error);
      }
      return Ok(masked.value.text);
    }
    var knownToken := false;
    for i := 0 to |session.mappings|
      invariant !knownToken && !HoldsKnownToken(req.payload, session.mappings[..i])
    {
      var m := session.mappings[i];
      KnownTokenSnoc(req.payload, session.mappings, i);
      if m.token != "" && Occurs(req.payload, m.token) {
        knownToken := true;
        assert HoldsKnownToken(req.payload, session.mappings);
        break;
      }
    }
    assert session.mappings[..|session.mappings|] == session.mappings;
    if knownToken && !pol.detokenizationAllowed {
      return Err(DemaskingDisabled);
    }
    var detokenized := Detokenize(req.payload, session.mappings);
    if detokenized.Err? {
      return Err(detokenized.error);
    }
    if detokenized.value == req.payload {
      return Err(PayloadIDConflict);
    }
    return Ok(detokenized.value);
  }

  lemma KnownTokenSnoc(payload: string, ms: seq<TokenMapping>, i: nat)
    requires i < |ms|
    ensures HoldsKnownToken(payload, ms[..i + 1]) <==>
              HoldsKnownToken(payload, ms[..i]) || (ms[i].token != "" && Occurs(payload, ms[i].token))
  {
    assert ms[..i + 1] == ms[..i] + [ms[i]];
    if HoldsKnownToken(payload, ms[..i]) {
      var k :| 0 <= k < i && ms[..i][k].token != "" && Occurs(payload, ms[..i][k].token);
      assert ms[..i + 1][k] == ms[..i][k];
    }
    assert ms[..i + 1][i] == ms[i];
  }

  // A retry of the payload that `m` was masked from gives `m`'s text again.
  lemma RetryReproduces(payload: string, rs: seq<Replacement>, m: Masked)
    requires ApplySpec(payload, rs, Ok(m))
    ensures Retried(payload, m.mappings) == Ok(m.text)
  {
    MaskingAgainReproduces(payload, rs, m);
    ApplyIsDeterministic(payload, FromMappings(m.mappings), Ok(m), Applied(payload, FromMappings(m.mappings)));
  }
}
