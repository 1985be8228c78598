/** UTF-8 over byte strings (section 4 of RFC 3629): validity, code points and
    the byte offset of each code point. */
module Utf8 {
  import opened Sequences

  predicate IsCont(c: char) {
    0x80 <= c as int <= 0xBF
  }

  predicate IsThree(b0: int, b1: int) {
    || (b0 == 0xE0 && 0xA0 <= b1 <= 0xBF)
    || (0xE1 <= b0 <= 0xEC && 0x80 <= b1 <= 0xBF)
    || (b0 == 0xED && 0x80 <= b1 <= 0x9F)
    || (0xEE <= b0 <= 0xEF && 0x80 <= b1 <= 0xBF)
  }

  predicate IsFour(b0: int, b1: int) {
    || (b0 == 0xF0 && 0x90 <= b1 <= 0xBF)
    || (0xF1 <= b0 <= 0xF3 && 0x80 <= b1 <= 0xBF)
    || (b0 == 0xF4 && 0x80 <= b1 <= 0x8F)
  }

  // The length of the well-formed sequence `s` begins with, or 0.
  function FirstLen(s: string): (n: nat)
    ensures n <= 4 && n <= |s|
  {
    if s == "" then 0
    else
      var b0 := s[0] as int;
      if b0 < 0x80 then 1
      else if 0xC2 <= b0 <= 0xDF then if |s| >= 2 && IsCont(s[1]) then 2 else 0
      else if |s| >= 3 && IsThree(b0, s[1] as int) && IsCont(s[2]) then 3
      else if |s| >= 4 && IsFour(b0, s[1] as int) && IsCont(s[2]) && IsCont(s[3]) then 4
      else 0
  }

  lemma FirstLenShape(s: string)
    requires FirstLen(s) > 0
    ensures !IsCont(s[0])
    ensures forall i :: 0 < i < FirstLen(s) ==> IsCont(s[i])
  {
  }

  // `utf8.ValidString`.
  predicate Valid(s: string) {
    s == "" || (FirstLen(s) > 0 && Valid(s[FirstLen(s)..]))
  }

  // ----- boundaries

  lemma FirstLenOfConcat(a: string, b: string)
    requires FirstLen(a) > 0
    ensures FirstLen(a + b) == FirstLen(a)
    ensures (a + b)[FirstLen(a)..] == a[FirstLen(a)..] + b
  {
    var n := FirstLen(a);
    assert forall i :: 0 <= i < n ==> (a + b)[i] == a[i];
  }

  lemma {:induction false} ValidConcat(a: string, b: string)
    requires Valid(a)
    ensures Valid(a + b) <==> Valid(b)
    decreases |a|
  {
    if a == "" {
      assert a + b == b;
    } else {
      FirstLenOfConcat(a, b);
      ValidConcat(a[FirstLen(a)..], b);
    }
  }

  // A valid text can be cut in front of any byte that does not continue a sequence.
  lemma {:induction false} ValidSplit(a: string, b: string)
    requires Valid(a + b)
    requires b == "" || !IsCont(b[0])
    ensures Valid(a) && Valid(b)
    decreases |a|
  {
    var t := a + b;
    if a == "" {
      assert t == b;
    } else if b == "" {
      assert t == a;
    } else {
      var n := FirstLen(t);
      FirstLenShape(t);
      assert t[|a|] == b[0];
      assert n <= |a|;
      assert forall i :: 0 <= i < n ==> t[i] == a[i];
      assert FirstLen(a) == n;
      assert t[n..] == a[n..] + b;
      ValidSplit(a[n..], b);
    }
  }

  lemma ValidStart(s: string)
    requires Valid(s) && s != ""
    ensures !IsCont(s[0])
  {
    FirstLenShape(s);
  }

  // Two valid slices of one text that overlap: where the second ends inside the
  // first, a code point of the first begins.
  lemma OverlapEndsOnBoundary(text: string, a: nat, b: nat, c: nat, d: nat)
    requires a < b <= |text| && c < d <= |text|
    requires Valid(text[a..b]) && Valid(text[c..d])
    requires a < d && c < d < b
    ensures !IsCont(text[d])
  {
    var m := if a < c then c else a;
    ValidStart(text[a..b]);
    ValidStart(text[c..d]);
    SliceConcat(text, a, m, b);
    SliceConcat(text, c, m, d);
    ValidSplit(text[a..m], text[m..b]);
    ValidSplit(text[c..m], text[m..d]);
    SliceConcat(text, m, d, b);
    ValidConcat(text[m..d], text[d..b]);
    ValidStart(text[d..b]);
  }

  // A piece of a valid slice that begins and ends on boundaries is valid.
  lemma ValidPiece(text: string, a: nat, b: nat, i: nat, j: nat)
    requires a <= i < j <= b <= |text| && Valid(text[a..b])
    requires i == a || !IsCont(text[i])
    requires j == b || !IsCont(text[j])
    ensures Valid(text[i..j])
  {
    if i != a {
      SliceConcat(text, a, i, b);
      ValidSplit(text[a..i], text[i..b]);
    }
    SliceConcat(text, i, j, b);
    ValidSplit(text[i..j], text[j..b]);
  }

  // ----- code points

  // The code point `s` begins with; U+FFFD if it begins with none, as in Go.
  function FirstRune(s: string): (r: int) {
    var n := FirstLen(s);
    if n == 0 then 0xFFFD
    else if n == 1 then s[0] as int
    else if n == 2 then (s[0] as int - 0xC0) * 0x40 + (s[1] as int - 0x80)
    else if n == 3 then (s[0] as int - 0xE0) * 0x1000 + (s[1] as int - 0x80) * 0x40 + (s[2] as int - 0x80)
    else (s[0] as int - 0xF0) * 0x40000 + (s[1] as int - 0x80) * 0x1000
         + (s[2] as int - 0x80) * 0x40 + (s[3] as int - 0x80)
  }

  // `utf8.RuneLen` and `len(string(r))`.
  function RuneLen(r: int): (n: nat)
    ensures 1 <= n <= 4
  {
    if r < 0x80 then 1 else if r < 0x800 then 2 else if r < 0x1_0000 then 3 else 4
  }

  // The sequence a code point is written as has the length its value calls for.
  lemma RuneLenIsFirstLen(s: string)
    requires FirstLen(s) > 0
    ensures RuneLen(FirstRune(s)) == FirstLen(s)
    ensures FirstRune(s) < 0x80 ==> FirstRune(s) == s[0] as int
  {
  }

  predicate IsChar(c: string) {
    c != "" && FirstLen(c) == |c|
  }

  // A valid text, cut into the sequences of its code points.
  function Chars(s: string): (cs: seq<string>)
    requires Valid(s)
  {
    if s == "" then [] else [s[..FirstLen(s)]] + Chars(s[FirstLen(s)..])
  }

  function Flatten(cs: seq<string>): string {
    if cs == [] then "" else cs[0] + Flatten(cs[1..])
  }

  // `[]rune(s)`, for any bytes: one that begins no well-formed sequence stands alone.
  function Decoded(s: string): (rs: seq<int>)
    decreases |s|
  {
    if s == "" then []
    else [FirstRune(s)] + Decoded(s[if FirstLen(s) == 0 then 1 else FirstLen(s)..])
  }

  lemma {:induction false} DecodedIsRunes(s: string)
    requires Valid(s)
    ensures Decoded(s) == Runes(s)
    decreases |s|
  {
    if s != "" {
      var n := FirstLen(s);
      DecodedIsRunes(s[n..]);
      FirstRuneOfPrefix(s);
      var rs := Runes(s);
      assert Chars(s) == [s[..n]] + Chars(s[n..]);
      assert rs == [FirstRune(s[..n])] + Runes(s[n..]);
    }
  }

  lemma FirstRuneOfPrefix(s: string)
    requires FirstLen(s) > 0
    ensures FirstRune(s[..FirstLen(s)]) == FirstRune(s)
  {
    var n := FirstLen(s);
    assert forall i :: 0 <= i < n ==> s[..n][i] == s[i];
    assert FirstLen(s[..n]) == n;
  }

  // `[]rune(s)` of a valid text, code point by code point.
  function Runes(s: string): (rs: seq<int>)
    requires Valid(s)
    ensures |rs| == |Chars(s)|
  {
    var cs := Chars(s);
    seq(|cs|, i requires 0 <= i < |cs| => FirstRune(cs[i]))
  }

  // The byte offset of code point `k`, or of the end of the text.
  function ByteAt(s: string, k: nat): nat
    requires Valid(s) && k <= |Chars(s)|
  {
    |Flatten(Chars(s)[..k])|
  }

  ghost predicate AllChars(cs: seq<string>) {
    forall i :: 0 <= i < |cs| ==> IsChar(cs[i])
  }

  lemma FlattenCons(c: string, cs: seq<string>)
    ensures Flatten([c] + cs) == c + Flatten(cs)
  {
    assert ([c] + cs)[1..] == cs;
  }

  lemma FirstLenOfPrefix(s: string)
    requires FirstLen(s) > 0
    ensures IsChar(s[..FirstLen(s)])
  {
  }

  lemma {:induction false} CharsFlatten(s: string)
    requires Valid(s)
    ensures Flatten(Chars(s)) == s
    ensures AllChars(Chars(s))
    decreases |s|
  {
    if s != "" {
      var h, t := s[..FirstLen(s)], s[FirstLen(s)..];
      FirstLenOfPrefix(s);
      CharsFlatten(t);
      FlattenCons(h, Chars(t));
      assert s == h + t;
    }
  }

  lemma CharsCons(c: string, t: string)
    requires IsChar(c) && Valid(t)
    ensures Valid(c + t) && Chars(c + t) == [c] + Chars(t)
  {
    FirstLenOfConcat(c, t);
    assert c[|c|..] + t == t;
    assert (c + t)[..|c|] == c;
  }

  // Every sequence of code points is the text it spells.
  lemma {:induction false} FlattenChars(cs: seq<string>)
    requires AllChars(cs)
    ensures Valid(Flatten(cs)) && Chars(Flatten(cs)) == cs
  {
    if cs != [] {
      assert IsChar(cs[0]);
      forall i | 0 <= i < |cs[1..]| ensures IsChar(cs[1..][i]) { assert cs[1..][i] == cs[i + 1]; }
      FlattenChars(cs[1..]);
      CharsCons(cs[0], Flatten(cs[1..]));
    }
  }

  lemma {:induction false} FlattenConcat(a: seq<string>, b: seq<string>)
    ensures Flatten(a + b) == Flatten(a) + Flatten(b)
  {
    if a == [] {
      assert a + b == b;
    } else {
      assert (a + b)[1..] == a[1..] + b;
      FlattenConcat(a[1..], b);
    }
  }

  lemma FlattenSnoc(cs: seq<string>, k: nat)
    requires k < |cs|
    ensures Flatten(cs[..k + 1]) == Flatten(cs[..k]) + cs[k]
  {
    assert cs[..k + 1] == cs[..k] + [cs[k]];
    FlattenConcat(cs[..k], [cs[k]]);
    assert Flatten([cs[k]]) == cs[k] + Flatten([]);
  }

  // Code points `i..j` of a valid text are the bytes from offset to offset: a
  // valid text of exactly those code points.
  lemma SliceAt(s: string, i: nat, j: nat)
    requires Valid(s) && i <= j <= |Chars(s)|
    ensures ByteAt(s, i) <= ByteAt(s, j) <= |s|
    ensures i < j ==> ByteAt(s, i) < ByteAt(s, j)
    ensures s[ByteAt(s, i)..ByteAt(s, j)] == Flatten(Chars(s)[i..j])
    ensures Valid(s[ByteAt(s, i)..ByteAt(s, j)])
    ensures Chars(s[ByteAt(s, i)..ByteAt(s, j)]) == Chars(s)[i..j]
  {
    var cs := Chars(s);
    CharsFlatten(s);
    assert cs == cs[..j] + cs[j..];
    SliceConcat(cs, 0, i, j);
    FlattenConcat(cs[..j], cs[j..]);
    FlattenConcat(cs[..i], cs[i..j]);
    FlattenChars(cs[i..j]);
    if i < j {
      assert cs[i..j][0] == cs[i] && IsChar(cs[i]);
    }
  }

  lemma ByteAtEnds(s: string)
    requires Valid(s)
    ensures ByteAt(s, 0) == 0 && ByteAt(s, |Chars(s)|) == |s|
  {
    CharsFlatten(s);
    assert Chars(s)[..|Chars(s)|] == Chars(s);
  }

  // Each code point takes as many bytes as printing it takes.
  lemma RuneLenAt(s: string, k: nat)
    requires Valid(s) && k < |Chars(s)|
    ensures ByteAt(s, k + 1) == ByteAt(s, k) + RuneLen(Runes(s)[k])
  {
    CharsFlatten(s);
    assert IsChar(Chars(s)[k]);
    RuneLenIsFirstLen(Chars(s)[k]);
    FlattenSnoc(Chars(s), k);
  }

  lemma RuneSlice(s: string, i: nat, j: nat)
    requires Valid(s) && i < j <= |Chars(s)|
    ensures ByteAt(s, i) < ByteAt(s, j) <= |s|
    ensures Valid(s[ByteAt(s, i)..ByteAt(s, j)])
    ensures Runes(s[ByteAt(s, i)..ByteAt(s, j)]) == Runes(s)[i..j]
  {
    SliceAt(s, i, j);
  }

  // Offsets of a chunk are the offsets of the text, shifted by the chunk's start.
  lemma ByteAtOfSlice(s: string, i: nat, j: nat, k: nat)
    requires Valid(s) && i <= j <= |Chars(s)| && k <= j - i
    requires ByteAt(s, i) <= ByteAt(s, j) <= |s|
    requires var t := s[ByteAt(s, i)..ByteAt(s, j)]; Valid(t) && Chars(t) == Chars(s)[i..j]
    ensures ByteAt(s, i) + ByteAt(s[ByteAt(s, i)..ByteAt(s, j)], k) == ByteAt(s, i + k)
  {
    var cs := Chars(s);
    SliceOfSlice(cs, i, j, 0, k);
    SliceConcat(cs, 0, i, i + k);
    FlattenConcat(cs[..i], cs[i..i + k]);
  }

  // ----- the encoding

  // A Unicode scalar value: a code point that is no surrogate.
  predicate IsScalar(r: int) {
    0 <= r <= 0x10_FFFF && !(0xD800 <= r <= 0xDFFF)
  }

  function Continuation(r: int): char
    requires 0 <= r
  {
    (0x80 + r % 0x40) as char
  }

  // The shortest sequence of a scalar value (the table of section 3 of RFC 3629).
  function Encoded(r: int): string
    requires IsScalar(r)
  {
    if r < 0x80 then [r as char]
    else if r < 0x800 then [(0xC0 + r / 0x40) as char, Continuation(r)]
    else if r < 0x1_0000 then [(0xE0 + r / 0x40 / 0x40) as char, Continuation(r / 0x40), Continuation(r)]
    else [(0xF0 + r / 0x40 / 0x40 / 0x40) as char,
          Continuation(r / 0x40 / 0x40), Continuation(r / 0x40), Continuation(r)]
  }

  // Every scalar value is a sequence that is accepted and decodes to it.
  lemma EncodedIsChar(r: int)
    requires IsScalar(r)
    ensures IsChar(Encoded(r)) && FirstRune(Encoded(r)) == r
  {
    if r >= 0x1_0000 {
      EncodedInFour(r, r / 0x40, r / 0x40 / 0x40, r / 0x40 / 0x40 / 0x40);
    } else if r >= 0x800 {
      EncodedInThree(r, r / 0x40, r / 0x40 / 0x40);
    }
  }

  lemma EncodedInThree(r: int, q: int, p: int)
    requires IsScalar(r) && 0x800 <= r < 0x1_0000 && q == r / 0x40 && p == q / 0x40
    ensures Encoded(r) == [(0xE0 + p) as char, (0x80 + q % 0x40) as char, (0x80 + r % 0x40) as char]
    ensures IsChar(Encoded(r)) && FirstRune(Encoded(r)) == r
  {
    var s := Encoded(r);
    assert s[0] as int == 0xE0 + p && s[1] as int == 0x80 + q % 0x40 && s[2] as int == 0x80 + r % 0x40;
    assert IsThree(s[0] as int, s[1] as int) && FirstLen(s) == 3;
  }

  lemma EncodedInFour(r: int, q: int, p: int, o: int)
    requires IsScalar(r) && 0x1_0000 <= r && q == r / 0x40 && p == q / 0x40 && o == p / 0x40
    ensures Encoded(r)
         == [(0xF0 + o) as char, (0x80 + p % 0x40) as char, (0x80 + q % 0x40) as char, (0x80 + r % 0x40) as char]
    ensures IsChar(Encoded(r)) && FirstRune(Encoded(r)) == r
  {
    var s := Encoded(r);
    assert s[0] as int == 0xF0 + o && s[1] as int == 0x80 + p % 0x40;
    assert s[2] as int == 0x80 + q % 0x40 && s[3] as int == 0x80 + r % 0x40;
    assert IsFour(s[0] as int, s[1] as int) && FirstLen(s) == 4;
  }

  lemma Digits(q: int, c: int)
    requires 0 <= q && 0 <= c < 0x40
    ensures (q * 0x40 + c) / 0x40 == q && (q * 0x40 + c) % 0x40 == c
  {
  }

  // Nothing else is accepted: no surrogate, no longer sequence, nothing past U+10FFFF.
  lemma CharIsEncoded(c: string)
    requires IsChar(c)
    ensures IsScalar(FirstRune(c)) && Encoded(FirstRune(c)) == c
  {
    if |c| == 2 {
      Digits(c[0] as int - 0xC0, c[1] as int - 0x80);
    } else if |c| == 3 {
      ThreeIsEncoded(c, c[0] as int - 0xE0, c[1] as int - 0x80, c[2] as int - 0x80);
    } else if |c| == 4 {
      FourIsEncoded(c, c[0] as int - 0xF0, c[1] as int - 0x80, c[2] as int - 0x80, c[3] as int - 0x80);
    }
  }

  lemma ThreeIsEncoded(s: string, a: int, b: int, c: int)
    requires IsChar(s) && |s| == 3
    requires 0 <= a < 0x10 && 0 <= b < 0x40 && 0 <= c < 0x40
    requires s == [(0xE0 + a) as char, (0x80 + b) as char, (0x80 + c) as char]
    ensures IsScalar(FirstRune(s)) && Encoded(FirstRune(s)) == s
  {
    var q := a * 0x40 + b;
    assert FirstRune(s) == q * 0x40 + c;
    Digits(a, b);
    Digits(q, c);
  }

  lemma FourIsEncoded(s: string, a: int, b: int, c: int, d: int)
    requires IsChar(s) && |s| == 4
    requires 0 <= a < 8 && 0 <= b < 0x40 && 0 <= c < 0x40 && 0 <= d < 0x40
    requires s == [(0xF0 + a) as char, (0x80 + b) as char, (0x80 + c) as char, (0x80 + d) as char]
    ensures IsScalar(FirstRune(s)) && Encoded(FirstRune(s)) == s
  {
    var p := a * 0x40 + b;
    var q := p * 0x40 + c;
    assert FirstRune(s) == q * 0x40 + d;
    Digits(a, b);
    Digits(p, c);
    Digits(q, d);
  }

  function EncodedAll(rs: seq<int>): string
    requires forall i :: 0 <= i < |rs| ==> IsScalar(rs[i])
  {
    if rs == [] then "" else Encoded(rs[0]) + EncodedAll(rs[1..])
  }

  // A string is valid exactly when it spells scalar values, and then the decoder finds
  // these.
  lemma {:induction false} ValidIsEncoded(s: string)
    requires Valid(s)
    ensures forall i :: 0 <= i < |Decoded(s)| ==> IsScalar(Decoded(s)[i])
    ensures EncodedAll(Decoded(s)) == s
    decreases |s|
  {
    if s != "" {
      var n := FirstLen(s);
      ValidIsEncoded(s[n..]);
      FirstLenOfPrefix(s);
      FirstRuneOfPrefix(s);
      CharIsEncoded(s[..n]);
      assert Decoded(s) == [FirstRune(s)] + Decoded(s[n..]);
      assert Decoded(s)[1..] == Decoded(s[n..]);
      assert s == s[..n] + s[n..];
    }
  }

  lemma {:induction false} EncodedIsValid(rs: seq<int>)
    requires forall i :: 0 <= i < |rs| ==> IsScalar(rs[i])
    ensures Valid(EncodedAll(rs)) && Decoded(EncodedAll(rs)) == rs
  {
    if rs != [] {
      var c, t := Encoded(rs[0]), EncodedAll(rs[1..]);
      EncodedIsValid(rs[1..]);
      EncodedIsChar(rs[0]);
      FirstLenOfConcat(c, t);
      assert c[|c|..] + t == t;
      assert (c + t)[..|c|] == c;
      FirstRuneOfPrefix(c + t);
      assert rs == [rs[0]] + rs[1..];
    }
  }
}
