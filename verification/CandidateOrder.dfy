/** The priority order of overlapping candidates. */
module CandidateOrder {
  import opened Ordering
  import opened Pii

  // The fields `candidateLess` compares, most significant first.
  datatype Key = Key(
    priority: int, primary: bool, confidence: real, length: int,
    start: int, end: int, kind: string, source: string, token: string)

  function KeyOf(r: Replacement): Key {
    Key(TypePriority(r.kind), r.source == PrimarySource(r.kind), r.confidence, r.end - r.start,
        r.start, r.end, r.kind, r.source, r.token)
  }

  predicate KeyLess(a: Key, b: Key) {
    if a.priority != b.priority then a.priority > b.priority
    else if a.primary != b.primary then a.primary
    else if a.confidence != b.confidence then a.confidence > b.confidence
    else if a.length != b.length then a.length > b.length
    else if a.start != b.start then a.start < b.start
    else if a.end != b.end then a.end < b.end
    else if a.kind != b.kind then StringLess(a.kind, b.kind)
    else if a.source != b.source then StringLess(a.source, b.source)
    else StringLess(a.token, b.token)
  }

  predicate CandidateLess(a: Replacement, b: Replacement) {
    KeyLess(KeyOf(a), KeyOf(b))
  }

  lemma KeyLessTotal(a: Key, b: Key)
    ensures a == b || KeyLess(a, b) || KeyLess(b, a)
    ensures !(KeyLess(a, b) && KeyLess(b, a))
    ensures !KeyLess(a, a)
  {
    StringLessTotal(a.kind, b.kind);
    StringLessTotal(a.source, b.source);
    StringLessTotal(a.token, b.token);
    StringLessTotal(a.token, a.token);
  }

  lemma KeyLessTransitive(a: Key, b: Key, c: Key)
    requires KeyLess(a, b) && KeyLess(b, c)
    ensures KeyLess(a, c)
  {
    StringLessTotal(a.kind, c.kind);
    StringLessTotal(a.source, c.source);
    if StringLess(a.kind, b.kind) && StringLess(b.kind, c.kind) {
      StringLessTransitive(a.kind, b.kind, c.kind);
    }
    if StringLess(a.source, b.source) && StringLess(b.source, c.source) {
      StringLessTransitive(a.source, b.source, c.source);
    }
    if StringLess(a.token, b.token) && StringLess(b.token, c.token) {
      StringLessTransitive(a.token, b.token, c.token);
    }
    StringLessTotal(a.kind, b.kind);
    StringLessTotal(a.source, b.source);
    StringLessTotal(b.kind, c.kind);
    StringLessTotal(b.source, c.source);
  }

  // `candidateLess` is a strict total order on the fields it compares.
  lemma CandidateLessIsStrictTotal(a: Replacement, b: Replacement, c: Replacement)
    ensures KeyOf(a) == KeyOf(b) || CandidateLess(a, b) || CandidateLess(b, a)
    ensures !(CandidateLess(a, b) && CandidateLess(b, a))
    ensures KeyOf(a) == KeyOf(b) ==> !CandidateLess(a, b)
    ensures CandidateLess(a, b) && CandidateLess(b, c) ==> CandidateLess(a, c)
  {
    KeyLessTotal(KeyOf(a), KeyOf(b));
    if CandidateLess(a, b) && CandidateLess(b, c) {
      KeyLessTransitive(KeyOf(a), KeyOf(b), KeyOf(c));
    }
  }

  lemma CandidateLessIsWeakOrder()
    ensures StrictWeakOrder(CandidateLess)
  {
    forall a: Replacement, b: Replacement, c: Replacement
      ensures !CandidateLess(a, a)
      ensures CandidateLess(a, c) ==> CandidateLess(a, b) || CandidateLess(b, c)
      ensures !(CandidateLess(a, b) && CandidateLess(b, a))
    {
      CandidateLessIsStrictTotal(a, b, c);
      CandidateLessIsStrictTotal(b, a, c);
      CandidateLessIsStrictTotal(a, a, a);
      CandidateLessIsStrictTotal(b, c, a);
    }
  }

  // What coming first means, field by field: checked formats and whole names and
  // addresses before their parts, and parts before the rest; then the detector that
  // knows the kind best, the confidence, the length, the place, and the names.
  lemma PreferenceIsLexicographic(w: Replacement, a: Replacement)
    requires !CandidateLess(a, w)
    ensures a.kind in CHECKED_KINDS || a.kind in WHOLE_KINDS ==> w.kind in CHECKED_KINDS || w.kind in WHOLE_KINDS
    ensures a.kind in PART_KINDS ==> w.kind in CHECKED_KINDS || w.kind in WHOLE_KINDS || w.kind in PART_KINDS
    ensures
      var sameRank := ((w.kind in CHECKED_KINDS || w.kind in WHOLE_KINDS)
                       == (a.kind in CHECKED_KINDS || a.kind in WHOLE_KINDS))
                      && (w.kind in PART_KINDS) == (a.kind in PART_KINDS);
      var wPrimary := w.source == if w.kind in CHECKED_KINDS then "regex" else "ml";
      var aPrimary := a.source == if a.kind in CHECKED_KINDS then "regex" else "ml";
      sameRank ==>
        && (aPrimary ==> wPrimary)
        && (aPrimary == wPrimary ==>
              && w.confidence >= a.confidence
              && (w.confidence == a.confidence ==>
                    && w.end - w.start >= a.end - a.start
                    && (w.end - w.start == a.end - a.start ==>
                          && w.start <= a.start
                          && (w.start == a.start ==>
                                && !StringLess(a.kind, w.kind)
                                && (w.kind == a.kind ==>
                                      && !StringLess(a.source, w.source)
                                      && (w.source == a.source ==> !StringLess(a.token, w.token)))))))
  {
    StringLessTotal(w.kind, a.kind);
    StringLessTotal(w.source, a.source);
    StringLessTotal(w.token, a.token);
    PartKindsAreNoOthers(w.kind);
    PartKindsAreNoOthers(a.kind);
  }

  lemma PartKindsAreNoOthers(kind: string)
    ensures kind in PART_KINDS ==> kind !in CHECKED_KINDS && kind !in WHOLE_KINDS
  {
  }

  // `pickWinner`, applied to two replacements with one span and one kind.
  function PickWinner(a: Replacement, b: Replacement): Replacement {
    var primaryA := PrimarySource(a.kind);
    var primaryB := PrimarySource(b.kind);
    if a.source == primaryA && b.source != primaryB then a
    else if b.source == primaryB && a.source != primaryA then b
    else if a.confidence != b.confidence then if a.confidence > b.confidence then a else b
    else if a.source != b.source then if StringLess(a.source, b.source) then a else b
    else if StringLess(a.token, b.token) then a
    else b
  }

  // Of two candidates with one span and one kind, the one `candidateLess` puts first wins.
  lemma PickWinnerIsLeast(a: Replacement, b: Replacement)
    requires a.start == b.start && a.end == b.end && a.kind == b.kind
    ensures PickWinner(a, b) == a || PickWinner(a, b) == b
    ensures !CandidateLess(a, PickWinner(a, b)) && !CandidateLess(b, PickWinner(a, b))
  {
    StringLessTotal(a.source, b.source);
    StringLessTotal(a.token, b.token);
    StringLessTotal(a.token, a.token);
    StringLessTotal(b.token, b.token);
  }
}
