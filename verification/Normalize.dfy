/** The normalized view of a text and the maps between its positions and those of
    the original. */
module Normalize {
  import opened Utf8

  // The normalized string is held as its code points; offsets into it count the
  // bytes those take.
  datatype Text = Text(
    original: string, normalized: seq<int>,
    origOffsets: seq<int>, origEnds: seq<int>, normByteOffsets: seq<int>)

  predicate IsDash(r: int) {
    || r == 0x2D || 0x2010 <= r <= 0x2015 || r == 0x2212
    || r == 0xFE58 || r == 0xFE63 || r == 0xFF0D || r == 0xAD
  }

  // ----- what normalizing means

  // The rune written for `r`; Unicode's tables of spaces and lower case are parameters.
  function Written(r: int, isSpace: int -> bool, lower: int -> int): int {
    if IsDash(r) then '-' as int else if isSpace(r) then ' ' as int else lower(r)
  }

  // Only a space that follows a space is dropped.
  predicate Kept(runes: seq<int>, k: nat, isSpace: int -> bool)
    requires k < |runes|
  {
    IsDash(runes[k]) || !isSpace(runes[k]) || k == 0 || !isSpace(runes[k - 1])
  }

  // The code points of the original that the first `k` contribute.
  function KeptBefore(runes: seq<int>, k: nat, isSpace: int -> bool): (s: seq<int>)
    requires k <= |runes|
  {
    if k == 0 then []
    else if Kept(runes, k - 1, isSpace) then KeptBefore(runes, k - 1, isSpace) + [k - 1]
    else KeptBefore(runes, k - 1, isSpace)
  }

  // The kept runes stay in order.
  lemma {:induction false} KeptInOrder(runes: seq<int>, k: nat, isSpace: int -> bool)
    requires k <= |runes|
    ensures var s := KeptBefore(runes, k, isSpace); Within(s, k) && Increasing(s)
  {
    if k > 0 {
      KeptInOrder(runes, k - 1, isSpace);
    }
  }

  // The bytes taken by the first `k` runes.
  function Width(runes: seq<int>, k: nat): nat
    requires k <= |runes|
  {
    if k == 0 then 0 else Width(runes, k - 1) + RuneLen(runes[k - 1])
  }

  lemma {:induction false} WidthIsByteAt(text: string, k: nat)
    requires Valid(text) && k <= |Runes(text)|
    ensures Width(Runes(text), k) == ByteAt(text, k)
  {
    if k > 0 {
      WidthIsByteAt(text, k - 1);
      RuneLenAt(text, k - 1);
    }
  }

  lemma {:induction false} WidthIsIncreasing(runes: seq<int>, j: nat, k: nat)
    requires j <= k <= |runes|
    ensures Width(runes, j) + (k - j) <= Width(runes, k)
    decreases k
  {
    if j < k {
      WidthIsIncreasing(runes, j, k - 1);
    }
  }

  ghost predicate Within(kept: seq<int>, n: nat) {
    forall i :: 0 <= i < |kept| ==> 0 <= kept[i] < n
  }

  // Where each kept rune begins and ends in the original.
  function StartsOf(runes: seq<int>, kept: seq<int>): (s: seq<int>)
    ensures |s| == |kept|
  {
    seq(|kept|, i requires 0 <= i < |kept| => if 0 <= kept[i] < |runes| then Width(runes, kept[i]) else 0)
  }

  function EndsOf(runes: seq<int>, kept: seq<int>): (s: seq<int>)
    ensures |s| == |kept|
  {
    seq(|kept|, i requires 0 <= i < |kept| => if 0 <= kept[i] < |runes| then Width(runes, kept[i] + 1) else 0)
  }

  // What each kept rune is written as, and where that begins.
  function WrittenOf(runes: seq<int>, kept: seq<int>, isSpace: int -> bool, lower: int -> int): (s: seq<int>)
    ensures |s| == |kept|
  {
    seq(|kept|, i requires 0 <= i < |kept| =>
      if 0 <= kept[i] < |runes| then Written(runes[kept[i]], isSpace, lower) else 0)
  }

  function WidthsOf(norm: seq<int>): (s: seq<int>)
    ensures |s| == |norm|
  {
    if norm == [] then [] else WidthsOf(norm[..|norm| - 1]) + [Width(norm, |norm| - 1)]
  }

  // Rune `i` of the normalized text stems from rune `kept[i]` of the original.
  ghost predicate NormalizedFrom(t: Text, runes: seq<int>, kept: seq<int>, isSpace: int -> bool, lower: int -> int) {
    && t.origOffsets == StartsOf(runes, kept)
    && t.origEnds == EndsOf(runes, kept)
    && t.normalized == WrittenOf(runes, kept, isSpace, lower)
    && t.normByteOffsets == WidthsOf(t.normalized)
  }

  ghost predicate IsNormalized(t: Text, runes: seq<int>, isSpace: int -> bool, lower: int -> int) {
    NormalizedFrom(t, runes, KeptBefore(runes, |runes|, isSpace), isSpace, lower)
  }

  method New(original: string, isSpace: int -> bool, lower: int -> int) returns (t: Text)
    ensures t.original == original && IsNormalized(t, Decoded(original), isSpace, lower)
  {
    t := NewFromRunes(original, Decoded(original), isSpace, lower);
  }

  method NewFromRunes(original: string, runes: seq<int>, isSpace: int -> bool, lower: int -> int) returns (t: Text)
    ensures t.original == original && IsNormalized(t, runes, isSpace, lower)
  {
    t := Text(original, [], [], [], []);
    var byteOff, normByteOff := 0, 0;
    var prevSpace := false;
    ghost var kept: seq<int> := [];
    for k := 0 to |runes|
      invariant byteOff == Width(runes, k) && normByteOff == NormalizedLen(t) && t.original == original
      invariant prevSpace == (k > 0 && isSpace(runes[k - 1]))
      invariant kept == KeptBefore(runes, k, isSpace)
      invariant NormalizedFrom(t, runes, kept, isSpace, lower)
    {
      var r := runes[k];
      var rlen := RuneLen(r);
      if !IsDash(r) && isSpace(r) && prevSpace {
        byteOff := byteOff + rlen;
        continue;
      }
      var written := Written(r, isSpace, lower);
      t := Append(t, written, byteOff, rlen, normByteOff, runes, kept, k, isSpace, lower);
      kept := kept + [k];
      byteOff := byteOff + rlen;
      normByteOff := normByteOff + RuneLen(written);
      prevSpace := isSpace(r);
    }
  }

  // The four appends of one rune.
  method Append(t: Text, written: int, byteOff: int, rlen: int, normByteOff: int, ghost runes: seq<int>,
                ghost kept: seq<int>, ghost k: nat, ghost isSpace: int -> bool, ghost lower: int -> int)
    returns (t': Text)
    requires k < |runes| && NormalizedFrom(t, runes, kept, isSpace, lower)
    requires written == Written(runes[k], isSpace, lower)
    requires byteOff == Width(runes, k) && rlen == RuneLen(runes[k]) && normByteOff == NormalizedLen(t)
    ensures NormalizedFrom(t', runes, kept + [k], isSpace, lower) && t'.original == t.original
    ensures NormalizedLen(t') == NormalizedLen(t) + RuneLen(written)
  {
    KeepNext(t, runes, kept, k, isSpace, lower);
    WidthSnoc(t.normalized, written);
    t' := Text(t.original, t.normalized + [written], t.origOffsets + [byteOff], t.origEnds + [byteOff + rlen],
               t.normByteOffsets + [normByteOff]);
  }

  // One more kept rune.
  lemma KeepNext(t: Text, runes: seq<int>, kept: seq<int>, k: nat, isSpace: int -> bool, lower: int -> int)
    requires k < |runes| && NormalizedFrom(t, runes, kept, isSpace, lower)
    ensures var written := Written(runes[k], isSpace, lower);
      NormalizedFrom(
        Text(t.original, t.normalized + [written], t.origOffsets + [Width(runes, k)],
             t.origEnds + [Width(runes, k) + RuneLen(runes[k])], t.normByteOffsets + [NormalizedLen(t)]),
        runes, kept + [k], isSpace, lower)
  {
    KeptSnoc(runes, kept, k, isSpace, lower);
    WidthsSnoc(t.normalized, Written(runes[k], isSpace, lower));
  }

  lemma KeptSnoc(runes: seq<int>, kept: seq<int>, k: nat, isSpace: int -> bool, lower: int -> int)
    requires k < |runes|
    ensures StartsOf(runes, kept + [k]) == StartsOf(runes, kept) + [Width(runes, k)]
    ensures EndsOf(runes, kept + [k]) == EndsOf(runes, kept) + [Width(runes, k) + RuneLen(runes[k])]
    ensures WrittenOf(runes, kept + [k], isSpace, lower)
         == WrittenOf(runes, kept, isSpace, lower) + [Written(runes[k], isSpace, lower)]
  {
  }

  lemma WidthsSnoc(norm: seq<int>, written: int)
    ensures WidthsOf(norm + [written]) == WidthsOf(norm) + [Width(norm, |norm|)]
  {
    var all := norm + [written];
    assert all[..|all| - 1] == norm;
    WidthOfPrefix(norm, [written], |norm|);
  }

  lemma {:induction false} WidthsAt(norm: seq<int>, i: nat)
    requires i < |norm|
    ensures WidthsOf(norm)[i] == Width(norm, i)
    decreases |norm|
  {
    var init, last := norm[..|norm| - 1], norm[|norm| - 1];
    if i < |init| {
      WidthsAt(init, i);
      assert norm == init + [last];
      WidthOfPrefix(init, [last], i);
    }
  }

  lemma WidthSnoc(norm: seq<int>, written: int)
    ensures Width(norm + [written], |norm| + 1) == Width(norm, |norm|) + RuneLen(written)
  {
    WidthOfPrefix(norm, [written], |norm|);
  }

  lemma {:induction false} WidthOfPrefix(xs: seq<int>, ys: seq<int>, k: nat)
    requires k <= |xs|
    ensures Width(xs + ys, k) == Width(xs, k)
  {
    if k > 0 {
      WidthOfPrefix(xs, ys, k - 1);
    }
  }

  // ----- the shape of the maps

  ghost predicate Increasing(s: seq<int>) {
    forall i, j :: 0 <= i < j < |s| ==> s[i] < s[j]
  }

  // `len(Normalized)`.
  function NormalizedLen(t: Text): nat {
    Width(t.normalized, |t.normalized|)
  }

  ghost predicate WellMapped(t: Text) {
    && |t.origOffsets| == |t.origEnds| == |t.normByteOffsets|
    && (forall i :: 0 <= i < |t.origOffsets| ==> 0 <= t.origOffsets[i] < t.origEnds[i] <= |t.original|)
    && (forall i, j :: 0 <= i < j < |t.origOffsets| ==> t.origEnds[i] <= t.origOffsets[j])
    && Increasing(t.origOffsets) && Increasing(t.normByteOffsets)
    && (forall i :: 0 <= i < |t.normByteOffsets| ==> t.normByteOffsets[i] < NormalizedLen(t))
  }

  lemma NormalizedIsWellMapped(t: Text, isSpace: int -> bool, lower: int -> int)
    requires Valid(t.original) && IsNormalized(t, Decoded(t.original), isSpace, lower)
    ensures WellMapped(t)
  {
    DecodedIsRunes(t.original);
    var runes := Runes(t.original);
    WidthIsByteAt(t.original, |runes|);
    ByteAtEnds(t.original);
    KeptInOrder(runes, |runes|, isSpace);
    MappedByWidth(t, runes, KeptBefore(runes, |runes|, isSpace));
  }

  lemma {:induction false} WidthOfCons(r: int, rs: seq<int>, k: nat)
    requires k <= |rs|
    ensures Width([r] + rs, k + 1) == RuneLen(r) + Width(rs, k)
  {
    if k > 0 {
      WidthOfCons(r, rs, k - 1);
    }
  }

  // The running offset counts a byte outside UTF-8 as the three bytes of U+FFFD, so
  // it arrives at the end of the text exactly when the text is valid UTF-8.
  lemma {:induction false} OffsetsAreExactWhenValid(s: string)
    ensures Width(Decoded(s), |Decoded(s)|) >= |s|
    ensures Width(Decoded(s), |Decoded(s)|) == |s| <==> Valid(s)
    decreases |s|
  {
    if s != "" {
      var n := if FirstLen(s) == 0 then 1 else FirstLen(s);
      OffsetsAreExactWhenValid(s[n..]);
      WidthOfCons(FirstRune(s), Decoded(s[n..]), |Decoded(s[n..])|);
      if FirstLen(s) > 0 {
        RuneLenIsFirstLen(s);
      }
    }
  }

  // ----- what the ranges are worth

  // The bytes of the rune `s` begins with.
  function FirstSize(s: string): (n: nat)
    requires s != ""
    ensures 1 <= n <= |s|
  {
    if FirstLen(s) == 0 then 1 else FirstLen(s)
  }

  // Where rune `k` of `s` really begins: behind the bytes of the runes before it.
  function TrueStart(s: string, k: nat): (at: nat)
    requires k <= |Decoded(s)|
    ensures at <= |s|
    decreases |s|
  {
    if k == 0 then 0 else FirstSize(s) + TrueStart(s[FirstSize(s)..], k - 1)
  }

  lemma {:induction false} ValidStartsAreTrue(s: string, k: nat)
    requires Valid(s) && k <= |Decoded(s)|
    ensures Width(Decoded(s), k) == TrueStart(s, k)
    decreases |s|
  {
    if k > 0 {
      var n := FirstLen(s);
      ValidStartsAreTrue(s[n..], k - 1);
      WidthOfCons(FirstRune(s), Decoded(s[n..]), k - 1);
      RuneLenIsFirstLen(s);
    }
  }

  // A byte outside UTF-8 is a rune of one byte that is counted as three.
  lemma {:induction false} BadByte(s: string) returns (k: nat)
    requires !Valid(s)
    ensures k < |Decoded(s)| && Decoded(s)[k] == 0xFFFD && TrueStart(s, k + 1) == TrueStart(s, k) + 1
    decreases |s|
  {
    var n := FirstSize(s);
    if FirstLen(s) == 0 {
      k := 0;
      assert TrueStart(s[n..], 0) == 0;
    } else {
      var j := BadByte(s[n..]);
      k := j + 1;
    }
  }

  lemma {:induction false} KeptIsListed(runes: seq<int>, n: nat, isSpace: int -> bool, k: nat) returns (i: nat)
    requires k < n <= |runes| && Kept(runes, k, isSpace)
    ensures i < |KeptBefore(runes, n, isSpace)| && KeptBefore(runes, n, isSpace)[i] == k
  {
    if k == n - 1 {
      i := |KeptBefore(runes, n - 1, isSpace)|;
    } else {
      i := KeptIsListed(runes, n - 1, isSpace, k);
    }
  }

  // The runes of the original that stand in the normalized text.
  function KeptRunes(t: Text, isSpace: int -> bool): seq<int> {
    KeptBefore(Decoded(t.original), |Decoded(t.original)|, isSpace)
  }

  // The span of rune `i` of the normalized text is where its rune of the original is.
  ghost predicate ExactAt(t: Text, isSpace: int -> bool, i: nat)
    requires |t.origEnds| == |t.origOffsets|
  {
    && i < |KeptRunes(t, isSpace)|
    && var k := KeptRunes(t, isSpace)[i];
      && 0 <= k < |Decoded(t.original)|
      && MapSpan(t, i, i + 1) == (TrueStart(t.original, k), TrueStart(t.original, k + 1))
  }

  lemma SpanOfRune(t: Text, isSpace: int -> bool, lower: int -> int, i: nat)
    requires IsNormalized(t, Decoded(t.original), isSpace, lower) && i < |KeptRunes(t, isSpace)|
    ensures var runes := Decoded(t.original); var k := KeptRunes(t, isSpace)[i];
      0 <= k < |runes| && MapSpan(t, i, i + 1) == (Width(runes, k), Width(runes, k) + RuneLen(runes[k]))
  {
    KeptInOrder(Decoded(t.original), |Decoded(t.original)|, isSpace);
    assert t.origOffsets[i] == StartsOf(Decoded(t.original), KeptRunes(t, isSpace))[i];
    assert t.origEnds[i] == EndsOf(Decoded(t.original), KeptRunes(t, isSpace))[i];
  }

  // `MapSpan` gives every rune of the normalized text its true place in the original
  // exactly when the original is valid UTF-8. (U+FFFD is not white space.)
  lemma SpansAreExactWhenValid(t: Text, isSpace: int -> bool, lower: int -> int)
    requires IsNormalized(t, Decoded(t.original), isSpace, lower) && !isSpace(0xFFFD)
    ensures |t.origEnds| == |t.origOffsets| == |KeptRunes(t, isSpace)|
    ensures Valid(t.original) <==> forall i: nat :: i < |t.origOffsets| ==> ExactAt(t, isSpace, i)
  {
    if Valid(t.original) {
      forall i: nat | i < |KeptRunes(t, isSpace)| ensures ExactAt(t, isSpace, i) {
        ValidIsExact(t, isSpace, lower, i);
      }
    } else {
      var i := InvalidIsInexact(t, isSpace, lower);
    }
  }

  lemma ValidIsExact(t: Text, isSpace: int -> bool, lower: int -> int, i: nat)
    requires IsNormalized(t, Decoded(t.original), isSpace, lower) && Valid(t.original)
    requires i < |KeptRunes(t, isSpace)|
    ensures ExactAt(t, isSpace, i)
  {
    SpanOfRune(t, isSpace, lower, i);
    var k := KeptRunes(t, isSpace)[i];
    ValidStartsAreTrue(t.original, k);
    ValidStartsAreTrue(t.original, k + 1);
  }

  lemma InvalidIsInexact(t: Text, isSpace: int -> bool, lower: int -> int) returns (i: nat)
    requires IsNormalized(t, Decoded(t.original), isSpace, lower) && !isSpace(0xFFFD) && !Valid(t.original)
    ensures i < |KeptRunes(t, isSpace)| && !ExactAt(t, isSpace, i)
  {
    var k := BadByte(t.original);
    i := KeptIsListed(Decoded(t.original), |Decoded(t.original)|, isSpace, k);
    SpanOfRune(t, isSpace, lower, i);
  }

  // The hyphen and what Unicode has in its place.
  const DASHES := {
    0x2D, 0xAD, 0x2010, 0x2011, 0x2012, 0x2013, 0x2014, 0x2015, 0x2212, 0xFE58, 0xFE63, 0xFF0D
  }

  lemma DashesAreListed(r: int)
    ensures IsDash(r) <==> r in DASHES
  {
  }

  // What the normalized text says, rune by rune. A white space right behind another is
  // dropped and nothing else is; what stays is in order, as a hyphen for any dash, a
  // space for any white space, and in lower case otherwise.
  lemma RunesAreRewritten(t: Text, isSpace: int -> bool, lower: int -> int) returns (from: seq<int>)
    requires IsNormalized(t, Decoded(t.original), isSpace, lower)
    ensures |from| == |t.normalized| && Increasing(from) && Within(from, |Decoded(t.original)|)
    ensures forall k :: k in from <==> 0 <= k < |Decoded(t.original)| && !Repeated(Decoded(t.original), k, isSpace)
    ensures forall i :: 0 <= i < |from| ==>
      var r := Decoded(t.original)[from[i]];
      t.normalized[i] == if r in DASHES then 0x2D else if isSpace(r) then 0x20 else lower(r)
  {
    var runes := Decoded(t.original);
    from := KeptRunes(t, isSpace);
    KeptInOrder(runes, |runes|, isSpace);
    forall k ensures k in from <==> 0 <= k < |runes| && !Repeated(runes, k, isSpace) {
      if 0 <= k < |runes| {
        KeptExactly(runes, isSpace, k);
      }
    }
    forall i | 0 <= i < |from|
      ensures var r := runes[from[i]];
        t.normalized[i] == if r in DASHES then 0x2D else if isSpace(r) then 0x20 else lower(r)
    {
      WrittenExactly(runes[from[i]], isSpace, lower);
    }
  }

  // A white space behind another.
  predicate Repeated(runes: seq<int>, k: int, isSpace: int -> bool) {
    0 < k < |runes| && isSpace(runes[k - 1]) && isSpace(runes[k]) && runes[k] !in DASHES
  }

  lemma KeptExactly(runes: seq<int>, isSpace: int -> bool, k: nat)
    requires k < |runes|
    ensures k in KeptBefore(runes, |runes|, isSpace) <==> !Repeated(runes, k, isSpace)
  {
    KeptMembers(runes, |runes|, isSpace, k);
    DashesAreListed(runes[k]);
  }

  lemma WrittenExactly(r: int, isSpace: int -> bool, lower: int -> int)
    ensures Written(r, isSpace, lower) == if r in DASHES then 0x2D else if isSpace(r) then 0x20 else lower(r)
  {
    DashesAreListed(r);
  }

  lemma {:induction false} KeptMembers(runes: seq<int>, n: nat, isSpace: int -> bool, k: nat)
    requires k < |runes| && n <= |runes|
    ensures k in KeptBefore(runes, n, isSpace) <==> k < n && Kept(runes, k, isSpace)
  {
    if n > 0 {
      KeptMembers(runes, n - 1, isSpace, k);
    }
  }

  // One such byte is enough for a span to leave the text.
  lemma InvalidTextEscapes(t: Text, isSpace: int -> bool, lower: int -> int)
    requires t.original == [0xFF as char] && IsNormalized(t, Decoded(t.original), isSpace, lower)
    requires !isSpace(0xFFFD)
    ensures MapSpan(t, 0, 1) == (0, 3) && |t.original| == 1
  {
    var runes: seq<int> := [0xFFFD];
    assert Decoded(t.original) == runes;
    assert KeptBefore(runes, 0, isSpace) == [] && KeptBefore(runes, 1, isSpace) == [0];
    assert Width(runes, 0) == 0 && Width(runes, 1) == 3;
  }

  lemma MappedByWidth(t: Text, runes: seq<int>, kept: seq<int>)
    requires Within(kept, |runes|) && Increasing(kept) && |t.normalized| == |kept|
    requires t.origOffsets == StartsOf(runes, kept) && t.origEnds == EndsOf(runes, kept)
    requires t.normByteOffsets == WidthsOf(t.normalized)
    requires Width(runes, |runes|) == |t.original|
    ensures WellMapped(t)
  {
    RangesInOrder(runes, kept);
    OffsetsInNormalized(t.normalized);
    StartsIncrease(StartsOf(runes, kept), EndsOf(runes, kept));
  }

  lemma RangesInOrder(runes: seq<int>, kept: seq<int>)
    requires Within(kept, |runes|) && Increasing(kept)
    ensures var starts, ends := StartsOf(runes, kept), EndsOf(runes, kept);
      && (forall i :: 0 <= i < |kept| ==> 0 <= starts[i] < ends[i] <= Width(runes, |runes|))
      && (forall i, j :: 0 <= i < j < |kept| ==> ends[i] <= starts[j])
  {
    forall i | 0 <= i < |kept|
      ensures 0 <= Width(runes, kept[i]) < Width(runes, kept[i] + 1) <= Width(runes, |runes|)
    {
      WidthIsIncreasing(runes, kept[i], kept[i] + 1);
      WidthIsIncreasing(runes, kept[i] + 1, |runes|);
    }
    forall i, j | 0 <= i < j < |kept| ensures Width(runes, kept[i] + 1) <= Width(runes, kept[j]) {
      WidthIsIncreasing(runes, kept[i] + 1, kept[j]);
    }
  }

  lemma StartsIncrease(starts: seq<int>, ends: seq<int>)
    requires |starts| == |ends| && forall i :: 0 <= i < |starts| ==> starts[i] < ends[i]
    requires forall i, j :: 0 <= i < j < |starts| ==> ends[i] <= starts[j]
    ensures Increasing(starts)
  {
  }

  lemma OffsetsInNormalized(norm: seq<int>)
    ensures Increasing(WidthsOf(norm))
    ensures forall i :: 0 <= i < |norm| ==> WidthsOf(norm)[i] < Width(norm, |norm|)
  {
    forall i | 0 <= i < |norm| ensures WidthsOf(norm)[i] < Width(norm, |norm|) {
      WidthsAt(norm, i);
      WidthIsIncreasing(norm, i, |norm|);
    }
    forall i, j | 0 <= i < j < |norm| ensures WidthsOf(norm)[i] < WidthsOf(norm)[j] {
      WidthsAt(norm, i);
      WidthsAt(norm, j);
      WidthIsIncreasing(norm, i, j);
    }
  }

  // ----- the lookups

  // How many elements of `s` are below `x`.
  function Rank(s: seq<int>, x: int): (r: nat)
    ensures r <= |s|
  {
    if s == [] then 0
    else (if s[|s| - 1] < x then 1 else 0) + Rank(s[..|s| - 1], x)
  }

  lemma {:induction false} RankSplits(s: seq<int>, x: int, r: nat)
    requires r <= |s|
    requires forall i :: 0 <= i < r ==> s[i] < x
    requires forall i :: r <= i < |s| ==> s[i] >= x
    ensures Rank(s, x) == r
  {
    if s != [] {
      RankSplits(s[..|s| - 1], x, if r == |s| then r - 1 else r);
    }
  }

  // The binary search of `ByteToRune` and `OriginalToNorm`.
  method FirstAtLeast(s: seq<int>, x: int) returns (lo: nat)
    requires Increasing(s)
    ensures lo == Rank(s, x)
  {
    lo := 0;
    var hi := |s|;
    while lo < hi
      invariant lo <= hi <= |s|
      invariant forall i :: 0 <= i < lo ==> s[i] < x
      invariant forall i :: hi <= i < |s| ==> s[i] >= x
    {
      var mid := (lo + hi) / 2;
      if s[mid] < x {
        lo := mid + 1;
      } else {
        hi := mid;
      }
    }
    RankSplits(s, x, lo);
  }

  method ByteToRune(t: Text, byteOff: int) returns (rune: nat)
    requires WellMapped(t)
    ensures rune == Rank(t.normByteOffsets, byteOff)
  {
    if |t.normByteOffsets| == 0 {
      return 0;
    }
    rune := FirstAtLeast(t.normByteOffsets, byteOff);
  }

  method OriginalToNorm(t: Text, origOffset: int) returns (rune: nat)
    requires WellMapped(t)
    ensures rune == Rank(t.origOffsets, origOffset)
  {
    rune := FirstAtLeast(t.origOffsets, origOffset);
  }

  function RuneToByte(t: Text, runeIdx: int): int {
    if runeIdx < 0 then 0
    else if runeIdx >= |t.normByteOffsets| then NormalizedLen(t)
    else t.normByteOffsets[runeIdx]
  }

  function MapSpan(t: Text, normStart: int, normEnd: int): (int, int)
    requires |t.origEnds| == |t.origOffsets|
  {
    var n := |t.origOffsets|;
    if n == 0 then (0, 0)
    else
      var s := if normStart < 0 then 0 else normStart;
      var e := if normEnd > n then n else normEnd;
      if s >= n then (|t.original|, |t.original|)
      else (t.origOffsets[s], if e > 0 then t.origEnds[e - 1] else |t.original|)
  }

  // ----- the maps invert each other

  // A normalized range maps to an original span that is not empty, and the ends of
  // that span lead back to the range.
  lemma MapSpanInverts(t: Text, a: nat, b: nat)
    requires WellMapped(t) && a < b <= |t.origOffsets|
    ensures var (s, e) := MapSpan(t, a, b);
      0 <= s < e <= |t.original| && Rank(t.origOffsets, s) == a && Rank(t.origOffsets, e) == b
  {
    var (s, e) := MapSpan(t, a, b);
    RankSplits(t.origOffsets, s, a);
    RankSplits(t.origOffsets, e, b);
    assert t.origOffsets[a] <= t.origOffsets[b - 1] < t.origEnds[b - 1];
  }

  lemma MapSpanKeepsDisjoint(t: Text, a: nat, b: nat, c: nat, d: nat)
    requires WellMapped(t) && a < b <= c < d <= |t.origOffsets|
    ensures MapSpan(t, a, b).1 <= MapSpan(t, c, d).0
  {
  }

  lemma ByteToRuneInvertsRuneToByte(t: Text, i: nat)
    requires WellMapped(t) && i <= |t.normByteOffsets|
    ensures Rank(t.normByteOffsets, RuneToByte(t, i)) == i
  {
    RankSplits(t.normByteOffsets, RuneToByte(t, i), i);
  }
}
