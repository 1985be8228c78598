/** What resolving overlaps means, position by position, with no reference to how
    it is computed.

    Over every byte the winner is the `candidateLess`-least span there. A
    resolution consists of the maximal runs of bytes with one winner. */
module Resolution {
  import opened Pii
  import opened CandidateOrder
  import opened Sequences
  import opened Sets
  import Utf8

  // ----- definitions

  // `validateSpan`: in range, not empty, and not cutting a UTF-8 sequence.
  predicate ValidSpan(text: string, start: int, end: int) {
    0 <= start < end <= |text| && Utf8.Valid(text[start..end])
  }

  // A replacement that passes the entry checks against its text.
  predicate Sound(text: string, r: Replacement) {
    ValidSpan(text, r.start, r.end) && text[r.start..r.end] == r.original
  }

  ghost predicate AllSound(text: string, rs: seq<Replacement>) {
    forall r :: r in rs ==> Sound(text, r)
  }

  ghost predicate Covered(rs: seq<Replacement>, p: int) {
    exists r :: r in rs && Covers(r, p)
  }

  // `w` wins byte `p`.
  ghost predicate Wins(rs: seq<Replacement>, p: int, w: Replacement) {
    && w in rs && Covers(w, p)
    && forall r :: r in rs && Covers(r, p) ==> !CandidateLess(r, w)
  }

  // `[s, e)` is a maximal run of bytes won by `w`.
  ghost predicate MaximalRun(rs: seq<Replacement>, w: Replacement, s: int, e: int) {
    && s < e
    && (forall p :: s <= p < e ==> Wins(rs, p, w))
    && !Wins(rs, s - 1, w)
    && !Wins(rs, e, w)
  }

  // `r` is the part `[r.start, r.end)` of `w`.
  ghost predicate PartOf(text: string, w: Replacement, r: Replacement) {
    && 0 <= r.start < r.end <= |text|
    && r == w.(start := r.start, end := r.end, original := text[r.start..r.end])
  }

  ghost predicate WinningPart(text: string, rs: seq<Replacement>, w: Replacement, r: Replacement) {
    w in rs && PartOf(text, w, r) && MaximalRun(rs, w, r.start, r.end)
  }

  ghost predicate IsPiece(text: string, rs: seq<Replacement>, r: Replacement) {
    exists w :: WinningPart(text, rs, w, r)
  }

  ghost predicate PairwiseDisjoint(rs: seq<Replacement>) {
    forall i, j :: 0 <= i < j < |rs| ==> !SpansOverlap(rs[i], rs[j])
  }

  ghost predicate Resolves(text: string, rs: seq<Replacement>, pieces: seq<Replacement>) {
    && (forall i :: 0 <= i < |pieces| ==> IsPiece(text, rs, pieces[i]))
    && PairwiseDisjoint(pieces)
    && (forall p :: Covered(rs, p) ==> Covered(pieces, p))
  }

  // Left to right.
  ghost predicate InTextOrder(pieces: seq<Replacement>) {
    forall i, j :: 0 <= i < j < |pieces| ==> pieces[i].end <= pieces[j].start
  }

  // ----- winners

  lemma WinnerIsUnique(text: string, rs: seq<Replacement>, p: int, v: Replacement, w: Replacement)
    requires AllSound(text, rs)
    requires Wins(rs, p, v) && Wins(rs, p, w)
    ensures v == w
  {
    CandidateLessIsStrictTotal(v, w, w);
    SoundKeysDiffer(text, v, w);
  }

  lemma SoundKeysDiffer(text: string, a: Replacement, b: Replacement)
    requires Sound(text, a) && Sound(text, b)
    ensures KeyOf(a) == KeyOf(b) ==> a == b
  {
  }

  lemma {:induction false} WinnerExists(rs: seq<Replacement>, p: int) returns (w: Replacement)
    requires Covered(rs, p)
    ensures Wins(rs, p, w)
  {
    var n := |rs| - 1;
    var init, last := rs[..n], rs[n];
    assert rs == init + [last];
    if Covered(init, p) {
      w := WinnerExists(init, p);
      forall r | r in rs && Covers(r, p)
        ensures !CandidateLess(r, if Covers(last, p) && CandidateLess(last, w) then last else w)
      {
        CandidateLessIsStrictTotal(r, last, w);
        CandidateLessIsStrictTotal(last, r, w);
        assert r in init || r == last;
      }
      if Covers(last, p) && CandidateLess(last, w) {
        w := last;
      }
    } else {
      w := last;
      forall r | r in rs && Covers(r, p) ensures !CandidateLess(r, w) {
        CandidateLessIsStrictTotal(last, last, last);
        assert r in init || r == last;
      }
    }
  }

  // ----- a resolution is determined by the set of its candidates

  ghost predicate SameMembers(rs: seq<Replacement>, ss: seq<Replacement>) {
    forall r :: r in rs <==> r in ss
  }

  ghost predicate SameWinners(rs: seq<Replacement>, ss: seq<Replacement>) {
    forall p, w :: Wins(rs, p, w) <==> Wins(ss, p, w)
  }

  lemma SameWinnersSameResolution(text: string, rs: seq<Replacement>, ss: seq<Replacement>, pieces: seq<Replacement>)
    requires SameWinners(rs, ss) && Resolves(text, rs, pieces)
    ensures Resolves(text, ss, pieces)
  {
    forall i | 0 <= i < |pieces| ensures IsPiece(text, ss, pieces[i]) {
      var r := pieces[i];
      var w :| WinningPart(text, rs, w, r);
      assert Wins(rs, r.start, w);
      assert forall p :: r.start <= p < r.end ==> Wins(rs, p, w);
      assert WinningPart(text, ss, w, r);
    }
    forall p | Covered(ss, p) ensures Covered(pieces, p) {
      var w := WinnerExists(ss, p);
      assert Wins(rs, p, w);
    }
  }

  // Two pieces that share a byte are one piece.
  lemma PieceIsDetermined(text: string, rs: seq<Replacement>, r: Replacement, s: Replacement, p: int)
    requires AllSound(text, rs)
    requires IsPiece(text, rs, r) && IsPiece(text, rs, s) && Covers(r, p) && Covers(s, p)
    ensures r == s
  {
    var v :| WinningPart(text, rs, v, r);
    var w :| WinningPart(text, rs, w, s);
    WinnerIsUnique(text, rs, p, v, w);
  }

  lemma PieceCarriesOver(text: string, rs: seq<Replacement>, xs: seq<Replacement>, ys: seq<Replacement>, r: Replacement)
    requires AllSound(text, rs) && Resolves(text, rs, xs) && Resolves(text, rs, ys)
    requires r in xs
    ensures r in ys
  {
    assert IsPiece(text, rs, r);
    var w :| WinningPart(text, rs, w, r);
    assert Wins(rs, r.start, w) && Covered(rs, r.start);
    var s :| s in ys && Covers(s, r.start);
    PieceIsDetermined(text, rs, r, s, r.start);
  }

  lemma TailMembers(s: seq<Replacement>, r: Replacement)
    requires InTextOrder(s) && s != []
    requires forall r :: r in s ==> r.start < r.end
    ensures r in s[1..] <==> r in s && r != s[0]
  {
    if r in s[1..] {
      var i :| 0 <= i < |s[1..]| && s[1..][i] == r;
      assert s[i + 1] == r && s[0] in s;
    }
  }

  lemma {:induction false} SameOrderedPieces(xs: seq<Replacement>, ys: seq<Replacement>)
    requires InTextOrder(xs) && InTextOrder(ys)
    requires forall r :: r in xs <==> r in ys
    requires forall r :: r in xs ==> r.start < r.end
    ensures xs == ys
  {
    EmptyTogether(xs, ys);
    if xs != [] {
      assert xs[0] in ys && ys[0] in xs;
      var i :| 0 <= i < |ys| && ys[i] == xs[0];
      var j :| 0 <= j < |xs| && xs[j] == ys[0];
      assert xs[0] == ys[0];
      forall r ensures r in xs[1..] <==> r in ys[1..] {
        TailMembers(xs, r);
        TailMembers(ys, r);
      }
      SameOrderedPieces(xs[1..], ys[1..]);
    }
  }

  // There is exactly one resolution in text order.
  lemma ResolutionIsUnique(text: string, rs: seq<Replacement>, xs: seq<Replacement>, ys: seq<Replacement>)
    requires AllSound(text, rs)
    requires Resolves(text, rs, xs) && InTextOrder(xs)
    requires Resolves(text, rs, ys) && InTextOrder(ys)
    ensures xs == ys
  {
    forall r ensures r in xs <==> r in ys {
      if r in xs {
        PieceCarriesOver(text, rs, xs, ys, r);
      }
      if r in ys {
        PieceCarriesOver(text, rs, ys, xs, r);
      }
    }
    forall r | r in xs ensures r.start < r.end {
      assert IsPiece(text, rs, r);
    }
    SameOrderedPieces(xs, ys);
  }

  // ----- where pieces begin and end

  // A piece begins where a candidate begins, or where a better one ends.
  lemma PieceStart(text: string, rs: seq<Replacement>, w: Replacement, r: Replacement) returns (e: Replacement)
    requires AllSound(text, rs) && WinningPart(text, rs, w, r)
    ensures e in rs
    ensures (e == w && r.start == w.start) || (Covers(w, r.start - 1) && e.end == r.start && e.start < r.start)
  {
    assert Wins(rs, r.start, w);
    if Covers(w, r.start - 1) {
      e :| e in rs && Covers(e, r.start - 1) && CandidateLess(e, w);
      assert !Covers(e, r.start);
    } else {
      e := w;
    }
  }

  lemma PieceEnd(text: string, rs: seq<Replacement>, w: Replacement, r: Replacement) returns (e: Replacement)
    requires AllSound(text, rs) && WinningPart(text, rs, w, r)
    ensures e in rs
    ensures (e == w && r.end == w.end) || (Covers(w, r.end) && e.start == r.end)
  {
    assert Wins(rs, r.end - 1, w);
    if Covers(w, r.end) {
      e :| e in rs && Covers(e, r.end) && CandidateLess(e, w);
      assert !Covers(e, r.end - 1);
    } else {
      e := w;
    }
  }

  // No piece cuts a UTF-8 sequence, although the cuts fall wherever other spans end.
  lemma PieceIsSound(text: string, rs: seq<Replacement>, r: Replacement)
    requires AllSound(text, rs) && IsPiece(text, rs, r)
    ensures Sound(text, r)
  {
    var w :| WinningPart(text, rs, w, r);
    assert Wins(rs, r.start, w) && Wins(rs, r.end - 1, w);
    var a := PieceStart(text, rs, w, r);
    if a != w || r.start != w.start {
      Utf8.OverlapEndsOnBoundary(text, w.start, w.end, a.start, a.end);
    }
    var b := PieceEnd(text, rs, w, r);
    if b != w || r.end != w.end {
      Utf8.ValidStart(text[b.start..b.end]);
    }
    Utf8.ValidPiece(text, w.start, w.end, r.start, r.end);
  }

  // ----- how many pieces there can be

  function Endpoints(rs: seq<Replacement>): (s: set<int>)
    ensures |s| <= 2 * |rs|
    ensures forall r :: r in rs ==> r.start in s && r.end in s
  {
    if rs == [] then {}
    else
      var r := rs[|rs| - 1];
      var init := rs[..|rs| - 1];
      assert rs == init + [r];
      Endpoints(init) + {r.start} + {r.end}
  }

  function Starts(rs: seq<Replacement>): set<int> {
    set i | 0 <= i < |rs| :: rs[i].start
  }

  lemma StartsSnoc(init: seq<Replacement>, r: Replacement)
    ensures Starts(init + [r]) == Starts(init) + {r.start}
  {
    var pieces := init + [r];
    forall x | x in Starts(pieces) ensures x in Starts(init) + {r.start} {
      var i :| 0 <= i < |pieces| && x == pieces[i].start;
      assert i < |init| ==> init[i].start == x;
    }
    assert pieces[|init|] == r;
    forall x | x in Starts(init) ensures x in Starts(pieces) {
      var i :| 0 <= i < |init| && x == init[i].start;
      assert pieces[i].start == x;
    }
  }

  lemma {:induction false} StartsCount(pieces: seq<Replacement>)
    requires forall i, j :: 0 <= i < j < |pieces| ==> pieces[i].start != pieces[j].start
    ensures |Starts(pieces)| == |pieces|
  {
    if pieces != [] {
      var n := |pieces| - 1;
      StartsCount(pieces[..n]);
      assert pieces == pieces[..n] + [pieces[n]];
      StartsSnoc(pieces[..n], pieces[n]);
    }
  }

  // `n` candidates leave at most `2n - 1` pieces.
  lemma PieceCount(text: string, rs: seq<Replacement>, pieces: seq<Replacement>)
    requires AllSound(text, rs) && Resolves(text, rs, pieces) && rs != []
    ensures |pieces| <= 2 * |rs| - 1
  {
    var ends := Endpoints(rs);
    assert rs[0] in rs && rs[0].start in ends;
    var m := GreatestOf(ends);
    forall x | x in Starts(pieces) ensures x in ends - {m} {
      var i :| 0 <= i < |pieces| && pieces[i].start == x;
      var r := pieces[i];
      assert IsPiece(text, rs, r);
      var w :| WinningPart(text, rs, w, r);
      var e := PieceStart(text, rs, w, r);
      assert Wins(rs, r.start, w) && w.end in ends;
    }
    forall i, j | 0 <= i < j < |pieces| ensures pieces[i].start != pieces[j].start {
      assert IsPiece(text, rs, pieces[i]) && IsPiece(text, rs, pieces[j]);
      assert !SpansOverlap(pieces[i], pieces[j]);
    }
    StartsCount(pieces);
    SubsetSize(Starts(pieces), ends - {m});
  }

  // ----- what a reader of the plan sees

  // Every byte of a piece is won by the candidate the piece came from.
  lemma PiecesFollowWinners(text: string, rs: seq<Replacement>, pieces: seq<Replacement>, p: int)
    requires AllSound(text, rs) && Resolves(text, rs, pieces)
    ensures Covered(rs, p) <==> Covered(pieces, p)
    ensures forall r, w :: r in pieces && Covers(r, p) && Wins(rs, p, w) ==>
                             PartOf(text, w, r)
  {
    if Covered(pieces, p) {
      var r :| r in pieces && Covers(r, p);
      assert IsPiece(text, rs, r);
      var w :| WinningPart(text, rs, w, r);
      assert Wins(rs, p, w);
    }
    forall r, w | r in pieces && Covers(r, p) && Wins(rs, p, w) ensures PartOf(text, w, r) {
      assert IsPiece(text, rs, r);
      var v :| WinningPart(text, rs, v, r);
      WinnerIsUnique(text, rs, p, v, w);
    }
  }
}
