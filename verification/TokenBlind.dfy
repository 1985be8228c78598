/** The tokens a detector's plan comes with do not matter: the combined plan only
    depends on the spans, kinds, sources and confidences. */
module TokenBlind {
  import opened Pii
  import opened Ordering
  import opened CandidateOrder
  import opened Resolution
  import opened Allocation
  import opened Tokenising
  import opened Merge

  function Erase(r: Replacement): Replacement {
    r.(token := "")
  }

  function EraseAll(rs: seq<Replacement>): (es: seq<Replacement>)
    ensures |es| == |rs|
  {
    seq(|rs|, i requires 0 <= i < |rs| => Erase(rs[i]))
  }

  lemma EraseMembers(rs: seq<Replacement>)
    ensures forall r :: r in rs ==> Erase(r) in EraseAll(rs)
    ensures forall e :: e in EraseAll(rs) ==> exists r :: r in rs && Erase(r) == e
  {
    forall r | r in rs ensures Erase(r) in EraseAll(rs) {
      var i :| 0 <= i < |rs| && rs[i] == r;
      assert EraseAll(rs)[i] == Erase(r);
    }
    forall e | e in EraseAll(rs) ensures exists r :: r in rs && Erase(r) == e {
      var i :| 0 <= i < |rs| && EraseAll(rs)[i] == e;
      assert rs[i] in rs && Erase(rs[i]) == e;
    }
  }

  lemma ErasedSound(text: string, rs: seq<Replacement>)
    requires AllSound(text, rs)
    ensures AllSound(text, EraseAll(rs))
  {
    EraseMembers(rs);
    forall e | e in EraseAll(rs) ensures Sound(text, e) {
      var r :| r in rs && Erase(r) == e;
    }
  }

  // The token is the last field compared.
  lemma ErasedLess(a: Replacement, b: Replacement)
    ensures CandidateLess(Erase(a), Erase(b)) ==> CandidateLess(a, b)
  {
    StringLessTotal("", "");
  }

  lemma WinnerSurvivesErasing(rs: seq<Replacement>, p: int, w: Replacement)
    requires Wins(rs, p, w)
    ensures Wins(EraseAll(rs), p, Erase(w))
  {
    EraseMembers(rs);
    forall e | e in EraseAll(rs) && Covers(e, p) ensures !CandidateLess(e, Erase(w)) {
      var r :| r in rs && Erase(r) == e;
      ErasedLess(r, w);
    }
  }

  // A byte next to one that `w` wins: erased winners cannot tell more than `w` itself.
  lemma ErasedWinnerIsWinner(text: string, rs: seq<Replacement>, w: Replacement, p: int, q: int)
    requires AllSound(text, rs) && Wins(rs, p, w) && Wins(EraseAll(rs), q, Erase(w))
    ensures Wins(rs, q, w)
  {
    EraseMembers(rs);
    assert Covers(w, q) && w in rs;
    var v := WinnerExists(rs, q);
    WinnerSurvivesErasing(rs, q, v);
    ErasedSound(text, rs);
    WinnerIsUnique(text, EraseAll(rs), q, Erase(v), Erase(w));
    assert Covers(v, p);
    CandidateLessIsStrictTotal(v, w, w);
    SoundKeysDiffer(text, v, w);
  }

  lemma ErasedPiece(text: string, rs: seq<Replacement>, r: Replacement)
    requires AllSound(text, rs) && IsPiece(text, rs, r)
    ensures IsPiece(text, EraseAll(rs), Erase(r))
  {
    EraseMembers(rs);
    var w :| WinningPart(text, rs, w, r);
    forall p | r.start <= p < r.end ensures Wins(EraseAll(rs), p, Erase(w)) {
      assert Wins(rs, p, w);
      WinnerSurvivesErasing(rs, p, w);
    }
    forall q | q == r.start - 1 || q == r.end ensures !Wins(EraseAll(rs), q, Erase(w)) {
      assert Wins(rs, r.start, w);
      if Wins(EraseAll(rs), q, Erase(w)) {
        ErasedWinnerIsWinner(text, rs, w, r.start, q);
      }
    }
    assert WinningPart(text, EraseAll(rs), Erase(w), Erase(r));
  }

  lemma ErasedResolution(text: string, rs: seq<Replacement>, pieces: seq<Replacement>)
    requires AllSound(text, rs) && Resolves(text, rs, pieces)
    ensures Resolves(text, EraseAll(rs), EraseAll(pieces))
  {
    EraseMembers(rs);
    EraseMembers(pieces);
    forall i | 0 <= i < |pieces| ensures IsPiece(text, EraseAll(rs), EraseAll(pieces)[i]) {
      ErasedPiece(text, rs, pieces[i]);
    }
    forall i, j | 0 <= i < j < |pieces| ensures !SpansOverlap(EraseAll(pieces)[i], EraseAll(pieces)[j]) {
      assert !SpansOverlap(pieces[i], pieces[j]);
    }
    forall p | Covered(EraseAll(rs), p) ensures Covered(EraseAll(pieces), p) {
      var e :| e in EraseAll(rs) && Covers(e, p);
      var r :| r in rs && Erase(r) == e;
      assert Covered(rs, p);
      var q :| q in pieces && Covers(q, p);
      assert Covers(Erase(q), p) && Erase(q) in EraseAll(pieces);
    }
  }

  lemma {:induction false} ErasedStates(text: string, pieces: seq<Replacement>, k: nat)
    requires k <= |pieces|
    ensures StateAfter(text, EraseAll(pieces), k) == StateAfter(text, pieces, k)
  {
    if k > 0 {
      ErasedStates(text, pieces, k - 1);
    }
  }

  lemma ErasedTokenised(text: string, pieces: seq<Replacement>)
    ensures Tokenised(text, EraseAll(pieces)) == Tokenised(text, pieces)
  {
    forall i | 0 <= i < |pieces|
      ensures Tokenised(text, EraseAll(pieces))[i] == Tokenised(text, pieces)[i]
    {
      ErasedStates(text, pieces, i + 1);
      assert EraseAll(pieces)[i] == Erase(pieces[i]);
    }
  }

  // Two families of replacements that differ only in their tokens, their order and
  // repetitions combine to one and the same plan.
  lemma CombineIgnoresTokens(text: string, rs: seq<Replacement>, ss: seq<Replacement>,
                             x: seq<Replacement>, y: seq<Replacement>)
    requires AllSound(text, rs) && AllSound(text, ss)
    requires SameMembers(EraseAll(rs), EraseAll(ss))
    requires IsCombinedPlan(text, rs, x) && IsCombinedPlan(text, ss, y)
    ensures x == y
  {
    var xs: seq<Replacement> :| Resolves(text, rs, xs) && InTextOrder(xs) && x == Tokenised(text, xs);
    var ys: seq<Replacement> :| Resolves(text, ss, ys) && InTextOrder(ys) && y == Tokenised(text, ys);
    ErasedResolution(text, rs, xs);
    ErasedResolution(text, ss, ys);
    ErasedSound(text, rs);
    SameMembersSameResolution(text, EraseAll(ss), EraseAll(rs), EraseAll(ys));
    ErasedOrder(xs);
    ErasedOrder(ys);
    ResolutionIsUnique(text, EraseAll(rs), EraseAll(xs), EraseAll(ys));
    ErasedTokenised(text, xs);
    ErasedTokenised(text, ys);
  }

  lemma ErasedOrder(pieces: seq<Replacement>)
    requires InTextOrder(pieces)
    ensures InTextOrder(EraseAll(pieces))
  {
    forall i, j | 0 <= i < j < |pieces| ensures EraseAll(pieces)[i].end <= EraseAll(pieces)[j].start {
      assert pieces[i].end <= pieces[j].start;
    }
  }
}
