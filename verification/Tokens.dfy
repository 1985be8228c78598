/** The shape of a token, `<KIND_N>`: how one is printed, and how one is told
    from other text in angle brackets. */
module Tokens {
  import opened Pii

  // ----- printing

  function Digit(d: nat): char
    requires d < 10
  {
    ('0' as int + d) as char
  }

  // `%d` of a number that is not negative.
  function Decimal(n: nat): (s: string)
    ensures s != ""
  {
    if n < 10 then [Digit(n)] else Decimal(n / 10) + [Digit(n % 10)]
  }

  predicate AllDigits(s: string) {
    forall i :: 0 <= i < |s| ==> '0' <= s[i] <= '9'
  }

  lemma {:induction false} DecimalIsDigits(n: nat)
    ensures AllDigits(Decimal(n))
  {
    if n >= 10 {
      DecimalIsDigits(n / 10);
    }
  }

  lemma {:induction false} DecimalInjective(m: nat, n: nat)
    requires Decimal(m) == Decimal(n)
    ensures m == n
  {
    var s := Decimal(m);
    assert s[|s| - 1] == Digit(m % 10) == Digit(n % 10);
    if m >= 10 && n >= 10 {
      assert s[..|s| - 1] == Decimal(m / 10) == Decimal(n / 10);
      DecimalInjective(m / 10, n / 10);
    }
  }

  function UpperChar(c: char): char {
    if 'a' <= c <= 'z' then (c as int - 0x20) as char else c
  }

  // `strings.ToUpper` of a kind.
  function Upper(kind: string): (s: string)
    ensures |s| == |kind|
  {
    seq(|kind|, i requires 0 <= i < |kind| => UpperChar(kind[i]))
  }

  function Body(kind: string, n: nat): string {
    Upper(kind) + "_" + Decimal(n)
  }

  function Token(kind: string, n: nat): string {
    "<" + Body(kind, n) + ">"
  }

  // ----- recognising

  predicate AllKindChars(s: string) {
    forall i :: 0 <= i < |s| ==> 'A' <= s[i] <= 'Z' || s[i] == '_'
  }

  // What stands between the brackets: capitals and underscores, an underscore, digits.
  predicate TokenBody(s: string) {
    exists k :: 0 < k < |s| - 1 && s[k] == '_' && AllKindChars(s[..k]) && AllDigits(s[k + 1..])
  }

  predicate TokenShaped(t: string) {
    |t| >= 2 && t[0] == '<' && t[|t| - 1] == '>' && TokenBody(t[1..|t| - 1])
  }

  lemma BodyHasNoBrackets(s: string)
    requires TokenBody(s)
    ensures '<' !in s && '>' !in s
  {
    var k :| 0 < k < |s| - 1 && s[k] == '_' && AllKindChars(s[..k]) && AllDigits(s[k + 1..]);
    forall i | 0 <= i < |s| ensures s[i] != '<' && s[i] != '>' {
      if i < k {
        assert s[i] == s[..k][i];
      } else if i > k {
        assert s[i] == s[k + 1..][i - k - 1];
      }
    }
  }

  // Inside a token there is no bracket but its first and its last byte.
  lemma TokenInterior(t: string, i: nat)
    requires TokenShaped(t) && i < |t|
    ensures t[i] == '<' ==> i == 0
    ensures t[i] == '>' ==> i == |t| - 1
    ensures |t| >= 5
  {
    BodyHasNoBrackets(t[1..|t| - 1]);
    if 0 < i < |t| - 1 {
      assert t[i] == t[1..|t| - 1][i - 1];
    }
  }

  // What the allocator prints, the detokenizer recognises.
  lemma TokenIsShaped(kind: string, n: nat)
    requires WellFormedKind(kind)
    ensures TokenShaped(Token(kind, n))
  {
    var s, k := Body(kind, n), |kind|;
    DecimalIsDigits(n);
    assert s[..k] == Upper(kind) && s[k + 1..] == Decimal(n);
    assert Token(kind, n)[1..|Token(kind, n)| - 1] == s;
  }

  lemma UpperInjective(a: string, b: string)
    requires WellFormedKind(a) && WellFormedKind(b) && Upper(a) == Upper(b)
    ensures a == b
  {
    forall i | 0 <= i < |a| ensures a[i] == b[i] {
      assert Upper(a)[i] == Upper(b)[i];
    }
  }

  // The last underscore of a body is the one in front of the number.
  lemma BodySplit(kind: string, m: nat, other: string, n: nat)
    requires Body(kind, m) == Body(other, n)
    ensures |other| <= |kind|
  {
    DecimalIsDigits(m);
    assert Body(other, n)[|other|] == '_';
    assert forall i :: |kind| < i < |Body(kind, m)| ==> Body(kind, m)[i] == Decimal(m)[i - |kind| - 1];
  }

  // `<KIND_N>` determines both the kind and the number.
  lemma TokenInjective(kind: string, m: nat, other: string, n: nat)
    requires WellFormedKind(kind) && WellFormedKind(other)
    requires Token(kind, m) == Token(other, n)
    ensures kind == other && m == n
  {
    var t := Token(kind, m);
    assert t[1..|t| - 1] == Body(kind, m) == Body(other, n);
    BodySplit(kind, m, other, n);
    BodySplit(other, n, kind, m);
    var s, k := Body(kind, m), |kind|;
    assert s[..k] == Upper(kind) == Upper(other);
    assert s[k + 1..] == Decimal(m) == Decimal(n);
    UpperInjective(kind, other);
    DecimalInjective(m, n);
  }

  // ----- occurrences

  predicate OccursAt(text: string, t: string, i: int) {
    0 <= i <= |text| - |t| && text[i..i + |t|] == t
  }

  // `strings.Contains`.
  predicate Occurs(text: string, t: string) {
    exists i :: 0 <= i <= |text| && OccursAt(text, t, i)
  }

  // ----- tokens character by character

  // The number a string of digits reads as.
  function Reads(s: string): int {
    if s == "" then 0 else 10 * Reads(s[..|s| - 1]) + (s[|s| - 1] as int - '0' as int)
  }

  // Numbers are printed in base ten, with no zero in front.
  lemma {:induction false} DecimalReads(n: nat)
    ensures Reads(Decimal(n)) == n && (Decimal(n)[0] == '0' <==> n == 0) && (n == 0 ==> Decimal(n) == "0")
  {
    var s := Decimal(n);
    if n < 10 {
      assert s[..0] == "";
    } else {
      DecimalReads(n / 10);
      assert s[..|s| - 1] == Decimal(n / 10);
    }
  }

  // A token spells the kind in capitals and the number, and nothing more.
  lemma TokenSpells(kind: string, n: nat)
    requires WellFormedKind(kind)
    ensures
      var t, k := Token(kind, n), |kind|;
      && |t| > k + 3 && t[0] == '<' && t[k + 1] == '_' && t[|t| - 1] == '>'
      && (forall i :: 0 <= i < k ==>
            if kind[i] == '_' then t[i + 1] == '_' else t[i + 1] as int == kind[i] as int - 'a' as int + 'A' as int)
      && Reads(t[k + 2..|t| - 1]) == n && (t[k + 2] == '0' ==> n == 0 && |t| == k + 4)
  {
    var t, k := Token(kind, n), |kind|;
    DecimalReads(n);
    assert t[k + 2..|t| - 1] == Decimal(n);
    assert t[k + 2] == Decimal(n)[0];
    forall i | 0 <= i < k
      ensures if kind[i] == '_' then t[i + 1] == '_' else t[i + 1] as int == kind[i] as int - 'a' as int + 'A' as int
    {
      assert t[i + 1] == Upper(kind)[i];
    }
  }

  // Capitals and underscores, an underscore, and digits, between angle brackets: `k` is
  // where the last underscore stands.
  predicate SpelledAsToken(t: string, k: int) {
    && 2 <= k <= |t| - 3 && t[0] == '<' && t[k] == '_' && t[|t| - 1] == '>'
    && (forall i :: 0 < i < k ==> 'A' <= t[i] <= 'Z' || t[i] == '_')
    && (forall i :: k < i < |t| - 1 ==> '0' <= t[i] <= '9')
  }

  lemma TokenShapedExactly(t: string)
    ensures TokenShaped(t) <==> exists k :: SpelledAsToken(t, k)
  {
    if TokenShaped(t) {
      var s := t[1..|t| - 1];
      var k :| 0 < k < |s| - 1 && s[k] == '_' && AllKindChars(s[..k]) && AllDigits(s[k + 1..]);
      forall i | 0 < i < k + 1 ensures 'A' <= t[i] <= 'Z' || t[i] == '_' {
        assert t[i] == s[..k][i - 1];
      }
      forall i | k + 1 < i < |t| - 1 ensures '0' <= t[i] <= '9' {
        assert t[i] == s[k + 1..][i - k - 2];
      }
      assert SpelledAsToken(t, k + 1);
    }
    if k :| SpelledAsToken(t, k) {
      var s := t[1..|t| - 1];
      var left, right := s[..k - 1], s[k..];
      assert s[k - 1] == t[k];
      forall i | 0 <= i < |left| ensures 'A' <= left[i] <= 'Z' || left[i] == '_' {
        assert left[i] == t[i + 1];
      }
      forall i | 0 <= i < |right| ensures '0' <= right[i] <= '9' {
        assert right[i] == t[i + k + 1];
      }
      assert AllKindChars(s[..k - 1]) && AllDigits(s[k - 1 + 1..]);
    }
  }
}
