/** Taking tokens out of a text again. */
module Detokenizer {
  import opened Wrappers
  import opened Pii
  import opened Tokens

  // ----- what detokenizing means

  // `strings.IndexByte`: the first place of `c`, or the length of `s` when there is none.
  function IndexOf(s: string, c: char): (i: nat)
    ensures i <= |s|
    ensures i < |s| ==> s[i] == c
    ensures forall j :: 0 <= j < i ==> s[j] != c
  {
    if s == "" || s[0] == c then 0 else 1 + IndexOf(s[1..], c)
  }

  // The length of the token `s` begins with, or 0.
  function HeadToken(s: string): (n: nat)
    ensures n <= |s|
    ensures n > 0 ==> TokenShaped(s[..n])
  {
    if s == "" || s[0] != '<' then 0
    else
      var rel := IndexOf(s, '>');
      if rel < |s| && TokenBody(s[1..rel]) then
        assert s[..rel + 1][1..rel] == s[1..rel];
        rel + 1
      else 0
  }

  function Append(s: string, rest: Result<string, Error>): Result<string, Error> {
    match rest
    case Ok(t) => Ok(s + t)
    case Err(e) => Err(e)
  }

  function Then(left: Result<string, Error>, right: Result<string, Error>): Result<string, Error> {
    match left
    case Ok(s) => Append(s, right)
    case Err(e) => Err(e)
  }

  lemma AppendLaws(s: string, t: string, x: Result<string, Error>, y: Result<string, Error>)
    ensures Append("", x) == x
    ensures Append(s, Append(t, x)) == Append(s + t, x)
    ensures Then(Append(s, x), y) == Append(s, Then(x, y))
  {
    if x.Ok? {
      assert "" + x.value == x.value;
      assert s + (t + x.value) == s + t + x.value;
      if y.Ok? {
        assert s + (x.value + y.value) == s + x.value + y.value;
      }
    }
  }

  // Every token is replaced by what it is known for; an unknown one is an error.
  function Restore(s: string, known: map<string, string>): (r: Result<string, Error>)
    decreases |s|
  {
    if s == "" then Ok("")
    else
      var n := HeadToken(s);
      if n == 0 then Append(s[..1], Restore(s[1..], known))
      else if s[..n] in known then Append(known[s[..n]], Restore(s[n..], known))
      else Err(UnknownToken)
  }

  // A token-shaped part of `s`.
  predicate TokenAt(s: string, i: int, j: int) {
    0 <= i < j <= |s| && TokenShaped(s[i..j])
  }

  ghost predicate HasUnknown(s: string, known: map<string, string>) {
    exists i, j :: TokenAt(s, i, j) && s[i..j] !in known
  }

  // ----- the scanner sees every token-shaped part

  lemma HeadTokenIsComplete(s: string, j: nat)
    requires j <= |s| && TokenShaped(s[..j])
    ensures HeadToken(s) == j
  {
    var t := s[..j];
    assert t[0] == s[0] && t[j - 1] == s[j - 1];
    forall i | 0 <= i < j - 1 ensures s[i] != '>' {
      TokenInterior(t, i);
      assert t[i] == s[i];
    }
    assert IndexOf(s, '>') == j - 1;
    assert t[1..j - 1] == s[1..j - 1];
  }

  lemma NoTokenInsideAToken(s: string, n: nat, i: int, j: int)
    requires n <= |s| && TokenShaped(s[..n]) && TokenAt(s, i, j) && 0 < i
    ensures n <= i
  {
    assert s[i..j][0] == '<' == s[i];
    if i < n {
      assert s[..n][i] == s[i];
      TokenInterior(s[..n], i);
    }
  }

  lemma TokenAtOfSuffix(s: string, n: nat, i: int, j: int)
    requires n <= |s| && n <= i
    ensures TokenAt(s, i, j) <==> TokenAt(s[n..], i - n, j - n)
    ensures TokenAt(s, i, j) ==> s[i..j] == s[n..][i - n..j - n]
  {
    if i < j <= |s| {
      assert s[i..j] == s[n..][i - n..j - n];
    }
  }

  // Restoring fails exactly when some token-shaped part, anywhere in the text, is unknown.
  lemma {:induction false} FailsOnUnknown(s: string, known: map<string, string>)
    ensures Restore(s, known).Err? <==> HasUnknown(s, known)
    ensures Restore(s, known).Err? ==> Restore(s, known).error == UnknownToken
    decreases |s|
  {
    if s != "" {
      var n := HeadToken(s);
      var k := if n == 0 then 1 else n;
      FailsOnUnknown(s[k..], known);
      UnknownStep(s, known, k);
    }
  }

  // An unknown part stands at the head, or behind what one step of the scan consumes.
  lemma UnknownStep(s: string, known: map<string, string>, k: nat)
    requires s != "" && k == (if HeadToken(s) == 0 then 1 else HeadToken(s))
    ensures HasUnknown(s, known) <==> (HeadToken(s) > 0 && s[..k] !in known) || HasUnknown(s[k..], known)
  {
    var n := HeadToken(s);
    if HasUnknown(s[k..], known) {
      var i, j :| TokenAt(s[k..], i, j) && s[k..][i..j] !in known;
      TokenAtOfSuffix(s, k, i + k, j + k);
      assert TokenAt(s, i + k, j + k) && s[i + k..j + k] !in known;
    }
    if n > 0 && s[..n] !in known {
      assert s[0..n] == s[..n] && TokenAt(s, 0, n);
    }
    forall i, j | TokenAt(s, i, j) && s[i..j] !in known
      ensures (n > 0 && s[..n] !in known) || HasUnknown(s[k..], known)
    {
      if i == 0 {
        assert s[0..j] == s[..j];
        HeadTokenIsComplete(s, j);
      } else {
        if n > 0 {
          NoTokenInsideAToken(s, n, i, j);
        }
        TokenAtOfSuffix(s, k, i, j);
      }
    }
  }

  // A text without tokens is left alone.
  lemma {:induction false} PlainTextStays(s: string, known: map<string, string>)
    requires forall i, j :: !TokenAt(s, i, j)
    ensures Restore(s, known) == Ok(s)
    decreases |s|
  {
    if s != "" {
      assert HeadToken(s) == 0 by {
        assert !TokenAt(s, 0, HeadToken(s));
        assert s[0..HeadToken(s)] == s[..HeadToken(s)];
      }
      forall i, j ensures !TokenAt(s[1..], i, j) {
        if 0 <= i {
          TokenAtOfSuffix(s, 1, i + 1, j + 1);
        }
      }
      PlainTextStays(s[1..], known);
      assert s == s[..1] + s[1..];
    }
  }

  // ----- tokens separate what stands left and right of them

  lemma NoBracketsInBody(s: string)
    requires '<' in s || '>' in s
    ensures !TokenBody(s)
  {
    if TokenBody(s) {
      BodyHasNoBrackets(s);
    }
  }

  lemma BracketBlocks(a: string, t: string, b: string)
    requires a != "" && a[0] == '<' && '>' !in a && TokenShaped(t)
    ensures HeadToken(a) == 0 && HeadToken(a + t + b) == 0
  {
    var s := a + t + b;
    var e := |a| + |t| - 1;
    forall i | 0 <= i < e ensures s[i] != '>' {
      if i >= |a| {
        TokenInterior(t, i - |a|);
      }
    }
    assert s[e] == t[|t| - 1];
    TokenInterior(t, 0);
    assert IndexOf(s, '>') == e;
    assert s[1..e][|a| - 1] == t[0];
    NoBracketsInBody(s[1..e]);
  }

  lemma HeadTokenBefore(a: string, rest: string)
    requires a != "" && ('>' in a || a[0] != '<')
    ensures HeadToken(a + rest) == HeadToken(a)
  {
    if a[0] == '<' {
      var rel := IndexOf(a, '>');
      assert rel < |a|;
      assert forall i :: 0 <= i < |a| ==> (a + rest)[i] == a[i];
      assert IndexOf(a + rest, '>') == rel;
      assert (a + rest)[1..rel] == a[1..rel];
    }
  }

  // Restoring is compositional around a known token, even when the text in front
  // of it ends in the beginning of another one.
  lemma {:induction false} RestoreAroundToken(a: string, t: string, b: string, known: map<string, string>)
    requires TokenShaped(t) && t in known
    ensures Restore(a + t + b, known) == Then(Restore(a, known), Append(known[t], Restore(b, known)))
    decreases |a|
  {
    var s := a + t + b;
    var rest := Append(known[t], Restore(b, known));
    if a == "" {
      assert s == t + b && s[..|t|] == t && s[|t|..] == b;
      HeadTokenIsComplete(s, |t|);
      AppendLaws("", "", rest, rest);
    } else {
      if a[0] == '<' && '>' !in a {
        BracketBlocks(a, t, b);
      } else {
        assert s == a + (t + b);
        HeadTokenBefore(a, t + b);
      }
      var n := HeadToken(a);
      var k := if n == 0 then 1 else n;
      CutInFront(a, t, b, k);
      RestoreAroundToken(a[k..], t, b, known);
      AppendLaws(a[..k], "", Restore(a[k..], known), rest);
      if n > 0 && a[..n] in known {
        AppendLaws(known[a[..n]], "", Restore(a[k..], known), rest);
      }
    }
  }

  lemma CutInFront(a: string, t: string, b: string, k: nat)
    requires k <= |a|
    ensures (a + t + b)[..k] == a[..k] && (a + t + b)[k..] == a[k..] + t + b
  {
  }

  // ----- the mappings

  // Two mappings of one token tell the same original and kind.
  ghost predicate MappingsAgree(ms: seq<TokenMapping>) {
    forall i, j :: 0 <= i < j < |ms| && ms[i].token == ms[j].token ==>
      ms[i].original == ms[j].original && ms[i].kind == ms[j].kind
  }

  // What each token stands for.
  function Known(ms: seq<TokenMapping>): (m: map<string, string>) {
    if ms == [] then map[]
    else
      var m := Known(ms[..|ms| - 1]);
      var last := ms[|ms| - 1];
      if last.token in m then m else m[last.token := last.original]
  }

  lemma {:induction false} KnownTokens(ms: seq<TokenMapping>)
    ensures forall i :: 0 <= i < |ms| ==> ms[i].token in Known(ms)
    ensures forall t :: t in Known(ms) ==> TokenMapped(ms, t, Known(ms)[t])
  {
    if ms != [] {
      var init, last := ms[..|ms| - 1], ms[|ms| - 1];
      KnownTokens(init);
      forall i | 0 <= i < |ms| ensures ms[i].token in Known(ms) {
        assert i < |init| ==> init[i] == ms[i];
      }
      forall t | t in Known(ms) ensures TokenMapped(ms, t, Known(ms)[t]) {
        if t in Known(init) {
          var m :| m in init && m.token == t && m.original == Known(init)[t];
          assert m in ms;
        } else {
          assert last in ms;
        }
      }
    }
  }

  ghost predicate TokenMapped(ms: seq<TokenMapping>, token: string, original: string) {
    exists m :: m in ms && m.token == token && m.original == original
  }

  ghost function DetokenizeSpec(text: string, ms: seq<TokenMapping>): Result<string, Error> {
    if MappingsAgree(ms) then Restore(text, Known(ms)) else Err(UnknownToken)
  }

  // ----- the methods

  // `strings.LastIndexByte`, or -1.
  function LastIndexOf(s: string, c: char): (i: int)
    ensures -1 <= i < |s|
    ensures i >= 0 ==> s[i] == c
    ensures forall j :: i < j < |s| ==> s[j] != c
  {
    if s == "" then -1
    else if s[|s| - 1] == c then |s| - 1
    else LastIndexOf(s[..|s| - 1], c)
  }

  method IsToken(s: string) returns (b: bool)
    ensures b <==> TokenBody(s)
  {
    if |s| < 3 {
      return false;
    }
    var us := LastIndexOf(s, '_');
    forall k | 0 < k < |s| - 1 && s[k] == '_' && AllDigits(s[k + 1..]) ensures k == us {
      var tail := s[k + 1..];
      assert forall i :: 0 <= i < |tail| ==> tail[i] == s[k + 1 + i];
    }
    if us <= 0 || us == |s| - 1 {
      return false;
    }
    for i := us + 1 to |s|
      invariant forall j :: us < j < i ==> '0' <= s[j] <= '9'
    {
      if s[i] < '0' || s[i] > '9' {
        assert !AllDigits(s[us + 1..]) by { assert s[us + 1..][i - us - 1] == s[i]; }
        return false;
      }
    }
    for i := 0 to us
      invariant AllKindChars(s[..i])
    {
      if s[i] < 'A' || (s[i] > 'Z' && s[i] != '_') {
        assert !AllKindChars(s[..us]) by { assert s[..us][i] == s[i]; }
        return false;
      }
      assert s[..i + 1] == s[..i] + [s[i]];
    }
    assert AllDigits(s[us + 1..]);
    return true;
  }

  // The map holds the first mapping of every token seen.
  ghost predicate HoldsFirst(ms: seq<TokenMapping>, tokenMap: map<string, TokenMapping>) {
    && tokenMap.Keys == Known(ms).Keys
    && (forall t :: t in tokenMap ==> tokenMap[t].original == Known(ms)[t])
    && (forall t :: t in tokenMap ==> tokenMap[t] in ms && tokenMap[t].token == t)
    && (forall m :: m in ms ==> m.token in tokenMap && SameMeaning(tokenMap[m.token], m))
  }

  lemma KnownSnoc(ms: seq<TokenMapping>, m: TokenMapping)
    ensures Known(ms + [m]) == if m.token in Known(ms) then Known(ms) else Known(ms)[m.token := m.original]
  {
    assert (ms + [m])[..|ms|] == ms;
  }

  lemma HoldsNew(ms: seq<TokenMapping>, m: TokenMapping, tokenMap: map<string, TokenMapping>)
    requires HoldsFirst(ms, tokenMap) && m.token !in tokenMap
    ensures HoldsFirst(ms + [m], tokenMap[m.token := m])
  {
    KnownSnoc(ms, m);
  }

  lemma HoldsKnown(ms: seq<TokenMapping>, m: TokenMapping, tokenMap: map<string, TokenMapping>)
    requires HoldsFirst(ms, tokenMap) && m.token in tokenMap && SameMeaning(tokenMap[m.token], m)
    ensures HoldsFirst(ms + [m], tokenMap)
  {
    KnownSnoc(ms, m);
  }

  lemma HoldsFirstStep(ms: seq<TokenMapping>, m: TokenMapping, tokenMap: map<string, TokenMapping>)
    requires HoldsFirst(ms, tokenMap)
    ensures m.token !in tokenMap ==> HoldsFirst(ms + [m], tokenMap[m.token := m])
    ensures m.token in tokenMap && SameMeaning(tokenMap[m.token], m) ==> HoldsFirst(ms + [m], tokenMap)
    ensures m.token in tokenMap && !SameMeaning(tokenMap[m.token], m) ==> !MappingsAgree(ms + [m])
  {
    if m.token !in tokenMap {
      HoldsNew(ms, m, tokenMap);
    } else if SameMeaning(tokenMap[m.token], m) {
      HoldsKnown(ms, m, tokenMap);
    } else {
      var all := ms + [m];
      var i :| 0 <= i < |ms| && ms[i] == tokenMap[m.token];
      assert all[i] == ms[i] && all[|ms|] == m;
    }
  }

  lemma HoldsFirstAgrees(ms: seq<TokenMapping>, tokenMap: map<string, TokenMapping>)
    requires HoldsFirst(ms, tokenMap)
    ensures MappingsAgree(ms)
  {
    forall i, j | 0 <= i < j < |ms| && ms[i].token == ms[j].token
      ensures ms[i].original == ms[j].original && ms[i].kind == ms[j].kind
    {
      assert ms[i] in ms && ms[j] in ms;
    }
  }

  lemma DisagreementStays(ms: seq<TokenMapping>, k: nat)
    requires k <= |ms| && !MappingsAgree(ms[..k])
    ensures !MappingsAgree(ms)
  {
    var i, j :| 0 <= i < j < k && ms[..k][i].token == ms[..k][j].token
                && (ms[..k][i].original != ms[..k][j].original || ms[..k][i].kind != ms[..k][j].kind);
    assert ms[i] == ms[..k][i] && ms[j] == ms[..k][j];
  }

  method BuildTokenMap(ms: seq<TokenMapping>) returns (result: Result<map<string, TokenMapping>, Error>)
    ensures MappingsAgree(ms) <==> result.Ok?
    ensures result.Err? ==> result.error == UnknownToken
    ensures result.Ok? ==> HoldsFirst(ms, result.value)
  {
    var tokenMap: map<string, TokenMapping> := map[];
    for i := 0 to |ms|
      invariant HoldsFirst(ms[..i], tokenMap)
    {
      var m := ms[i];
      HoldsFirstStep(ms[..i], m, tokenMap);
      assert ms[..i + 1] == ms[..i] + [m];
      if m.token in tokenMap {
        var existing := tokenMap[m.token];
        if existing.original != m.original || existing.kind != m.kind {
          DisagreementStays(ms, i + 1);
          return Err(UnknownToken);
        }
      } else {
        tokenMap := tokenMap[m.token := m];
      }
    }
    assert ms[..|ms|] == ms;
    HoldsFirstAgrees(ms, tokenMap);
    return Ok(tokenMap);
  }

  predicate SameMeaning(a: TokenMapping, b: TokenMapping) {
    a.original == b.original && a.kind == b.kind
  }

  // The end of the token that begins at `i`, or `i` itself.
  function TokenEnd(text: string, i: nat): (e: nat)
    requires i < |text|
    ensures e <= |text|
  {
    var rel := IndexOf(text[i..], '>');
    if text[i] == '<' && i + rel < |text| && TokenBody(text[i + 1..i + rel]) then i + rel + 1 else i
  }

  // One step of the scanner.
  // What the scan of `text` sees in place `i` is what the rest of the text begins with.
  lemma RestAt(text: string, i: nat)
    requires i < |text|
    ensures var s, n := text[i..], HeadToken(text[i..]);
      && TokenEnd(text, i) == i + n && s[..n] == text[i..i + n] && s[n..] == text[i + n..]
      && s[..1] == [text[i]] && s[1..] == text[i + 1..]
  {
    var s := text[i..];
    var rel := IndexOf(s, '>');
    assert s[0] == '<' && rel < |s| ==> 1 <= rel && s[1..rel] == text[i + 1..i + rel];
    RestSlices(text, i, HeadToken(s));
    RestSlices(text, i, 1);
  }

  lemma RestSlices(text: string, i: nat, n: nat)
    requires i + n <= |text|
    ensures text[i..][..n] == text[i..i + n] && text[i..][n..] == text[i + n..]
  {
  }

  lemma RestoreStep(text: string, i: nat, known: map<string, string>, done: string)
    requires i < |text|
    ensures var e := TokenEnd(text, i);
      && (e == i ==>
            Append(done, Restore(text[i..], known)) == Append(done + [text[i]], Restore(text[i + 1..], known)))
      && (e > i && text[i..e] in known ==>
            Append(done, Restore(text[i..], known)) == Append(done + known[text[i..e]], Restore(text[e..], known)))
      && (e > i && text[i..e] !in known ==> Restore(text[i..], known) == Err(UnknownToken))
  {
    RestAt(text, i);
    RestoreHere(text[i..], known, done);
  }

  lemma RestoreHere(s: string, known: map<string, string>, done: string)
    requires s != ""
    ensures var n := HeadToken(s);
      && (n == 0 ==> Append(done, Restore(s, known)) == Append(done + s[..1], Restore(s[1..], known)))
      && (n > 0 && s[..n] in known ==>
            Append(done, Restore(s, known)) == Append(done + known[s[..n]], Restore(s[n..], known)))
      && (n > 0 && s[..n] !in known ==> Restore(s, known) == Err(UnknownToken))
  {
    var n := HeadToken(s);
    if n == 0 {
      AppendLaws(done, s[..1], Restore(s[1..], known), Ok(""));
    } else if s[..n] in known {
      AppendLaws(done, known[s[..n]], Restore(s[n..], known), Ok(""));
    }
  }

  method Detokenize(text: string, mappings: seq<TokenMapping>) returns (result: Result<string, Error>)
    ensures result == DetokenizeSpec(text, mappings)
  {
    var built := BuildTokenMap(mappings);
    if built.Err? {
      return Err(built.error);
    }
    var tokenMap := built.value;
    ghost var known := Known(mappings);
    var restored := "";
    var i := 0;
    assert text[0..] == text;
    AppendLaws("", "", Restore(text, known), Ok(""));
    while i < |text|
      invariant 0 <= i <= |text|
      invariant Restore(text, known) == Append(restored, Restore(text[i..], known))
    {
      RestoreStep(text, i, known, restored);
      var end := ScanToken(text, i);
      if end > i {
        var token := text[i..end];
        if token !in tokenMap {
          return Err(UnknownToken);
        }
        restored := restored + tokenMap[token].original;
        i := end;
        continue;
      }
      restored := restored + [text[i]];
      i := i + 1;
    }
    assert text[i..] == "" && restored + "" == restored;
    return Ok(restored);
  }

  // What the scanner asks at an opening bracket.
  method ScanToken(text: string, i: nat) returns (end: nat)
    requires i < |text|
    ensures end == TokenEnd(text, i)
  {
    end := i;
    if text[i] == '<' {
      var rel := IndexOf(text[i..], '>');
      if i + rel < |text| {
        var inner := text[i + 1..i + rel];
        var isToken := IsToken(inner);
        if isToken {
          end := i + rel + 1;
        }
      }
    }
  }
}
