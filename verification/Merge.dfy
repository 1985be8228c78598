/** Merging the replacement plans of the two detectors into one. */
module Merge {
  import opened Wrappers
  import opened Ordering
  import opened Pii
  import opened CandidateOrder
  import opened Resolution
  import opened Tokenising
  import Tokens

  // ----- dropping duplicates

  function PrintInt(n: int): string {
    if n < 0 then "-" + Tokens.Decimal(-n) else Tokens.Decimal(n)
  }

  function DedupeKey(r: Replacement): string {
    PrintInt(r.start) + ":" + (PrintInt(r.end) + ":" + (r.kind + ":" + r.original))
  }

  lemma CutAtColon(d: string, s: string, e: string, t: string)
    requires Tokens.AllDigits(d) && Tokens.AllDigits(e) && d + ":" + s == e + ":" + t
    ensures d == e && s == t
  {
    var whole := d + ":" + s;
    assert whole[|d|] == ':' && whole[|e|] == ':';
    assert forall i :: 0 <= i < |d| ==> whole[i] == d[i];
    assert forall i :: 0 <= i < |e| ==> whole[i] == e[i];
    assert |d| == |e|;
    assert whole[..|d|] == d && whole[..|e|] == e;
    assert whole[|d| + 1..] == s && whole[|e| + 1..] == t;
  }

  // The printed key loses nothing, although a kind or an original may hold a colon.
  lemma DedupeKeyInjective(text: string, a: Replacement, b: Replacement)
    requires Sound(text, a) && Sound(text, b) && DedupeKey(a) == DedupeKey(b)
    ensures a.start == b.start && a.end == b.end && a.kind == b.kind
  {
    NumberAhead(a.start, PrintInt(a.end) + ":" + (a.kind + ":" + a.original),
                b.start, PrintInt(b.end) + ":" + (b.kind + ":" + b.original));
    NumberAhead(a.end, a.kind + ":" + a.original, b.end, b.kind + ":" + b.original);
    SameTail(a.kind, b.kind, a.original);
  }

  lemma NumberAhead(m: nat, s: string, n: nat, t: string)
    requires PrintInt(m) + ":" + s == PrintInt(n) + ":" + t
    ensures m == n && s == t
  {
    Tokens.DecimalIsDigits(m);
    Tokens.DecimalIsDigits(n);
    CutAtColon(PrintInt(m), s, PrintInt(n), t);
    Tokens.DecimalInjective(m, n);
  }

  lemma SameTail(s: string, t: string, tail: string)
    requires s + ":" + tail == t + ":" + tail
    ensures s == t
  {
    assert |s + ":" + tail| == |t + ":" + tail|;
    assert (s + ":" + tail)[..|s|] == s && (t + ":" + tail)[..|t|] == t;
  }

  // `d` makes `r` superfluous.
  predicate Supersedes(d: Replacement, r: Replacement) {
    d.start == r.start && d.end == r.end && d.kind == r.kind && !CandidateLess(r, d)
  }

  ghost predicate SupersededIn(ds: seq<Replacement>, r: Replacement) {
    exists d :: d in ds && Supersedes(d, r)
  }

  ghost predicate Deduped(rs: seq<Replacement>, ds: seq<Replacement>) {
    && (forall d :: d in ds ==> d in rs)
    && (forall r :: r in rs ==> SupersededIn(ds, r))
  }

  lemma SupersedesTransitive(c: Replacement, d: Replacement, r: Replacement)
    requires Supersedes(c, d) && Supersedes(d, r)
    ensures Supersedes(c, r)
  {
    CandidateLessIsWeakOrder();
    assert CandidateLess(r, c) ==> CandidateLess(r, d) || CandidateLess(d, c);
  }

  // Dropping duplicates changes no winner.
  lemma DedupeKeepsWinners(text: string, rs: seq<Replacement>, ds: seq<Replacement>)
    requires AllSound(text, rs) && Deduped(rs, ds)
    ensures SameWinners(rs, ds)
  {
    forall p, w ensures Wins(rs, p, w) <==> Wins(ds, p, w) {
      if Wins(rs, p, w) {
        WinnerIsKept(text, rs, ds, p, w);
      }
      if Wins(ds, p, w) {
        WinnerWasWinner(rs, ds, p, w);
      }
    }
  }

  lemma WinnerIsKept(text: string, rs: seq<Replacement>, ds: seq<Replacement>, p: int, w: Replacement)
    requires AllSound(text, rs) && Deduped(rs, ds) && Wins(rs, p, w)
    ensures Wins(ds, p, w)
  {
    assert SupersededIn(ds, w);
    var d :| d in ds && Supersedes(d, w);
    CandidateLessIsStrictTotal(d, w, w);
    SoundKeysDiffer(text, d, w);
  }

  lemma WinnerWasWinner(rs: seq<Replacement>, ds: seq<Replacement>, p: int, w: Replacement)
    requires Deduped(rs, ds) && Wins(ds, p, w)
    ensures Wins(rs, p, w)
  {
    forall r | r in rs && Covers(r, p) ensures !CandidateLess(r, w) {
      assert SupersededIn(ds, r);
      var d :| d in ds && Supersedes(d, r);
      assert Covers(d, p) && !CandidateLess(d, w);
      CandidateLessIsWeakOrder();
      assert CandidateLess(r, w) ==> CandidateLess(r, d) || CandidateLess(d, w);
    }
  }

  // The winner of two with one key supersedes what either of them superseded.
  lemma WinnerSupersedes(seen: seq<Replacement>, key: string, existing: Replacement, r: Replacement)
    requires existing.start == r.start && existing.end == r.end && existing.kind == r.kind
    requires forall q :: q in seen && DedupeKey(q) == key ==> Supersedes(existing, q)
    ensures Supersedes(PickWinner(existing, r), r)
    ensures forall q :: q in seen && DedupeKey(q) == key ==> Supersedes(PickWinner(existing, r), q)
  {
    PickWinnerIsLeast(existing, r);
    forall q | q in seen && DedupeKey(q) == key ensures Supersedes(PickWinner(existing, r), q) {
      SupersedesTransitive(PickWinner(existing, r), existing, q);
    }
  }

  function ByKeys(byKey: map<string, Replacement>, order: seq<string>): seq<Replacement>
    requires forall k :: k in order ==> k in byKey
  {
    seq(|order|, i requires 0 <= i < |order| => byKey[order[i]])
  }

  // What the loop knows once it has gone through `seen`.
  ghost predicate Collected(seen: seq<Replacement>, byKey: map<string, Replacement>, order: seq<string>) {
    && (forall k :: k in byKey <==> k in order)
    && (forall k :: k in byKey ==> byKey[k] in seen && DedupeKey(byKey[k]) == k)
    && forall r :: r in seen ==> DedupeKey(r) in byKey && Supersedes(byKey[DedupeKey(r)], r)
  }

  lemma CollectFirst(seen: seq<Replacement>, byKey: map<string, Replacement>, order: seq<string>, r: Replacement)
    requires Collected(seen, byKey, order) && DedupeKey(r) !in byKey
    ensures Collected(seen + [r], byKey[DedupeKey(r) := r], order + [DedupeKey(r)])
  {
    CandidateLessIsStrictTotal(r, r, r);
  }

  lemma CollectAgain(text: string, seen: seq<Replacement>, byKey: map<string, Replacement>, order: seq<string>,
                     r: Replacement)
    requires Collected(seen, byKey, order) && DedupeKey(r) in byKey && AllSound(text, seen + [r])
    ensures var key := DedupeKey(r);
      Collected(seen + [r], byKey[key := PickWinner(byKey[key], r)], order)
  {
    var key := DedupeKey(r);
    var existing := byKey[key];
    assert existing in seen + [r] && r in seen + [r];
    DedupeKeyInjective(text, existing, r);
    WinnerSupersedes(seen, key, existing, r);
    PickWinnerIsLeast(existing, r);
  }

  lemma CollectedIsDeduped(rs: seq<Replacement>, byKey: map<string, Replacement>, order: seq<string>)
    requires Collected(rs, byKey, order)
    ensures Deduped(rs, ByKeys(byKey, order))
  {
    var ds := ByKeys(byKey, order);
    forall r | r in rs ensures SupersededIn(ds, r) {
      var j :| 0 <= j < |order| && order[j] == DedupeKey(r);
      assert ds[j] == byKey[DedupeKey(r)];
    }
  }

  method Dedupe(text: string, rs: seq<Replacement>) returns (ds: seq<Replacement>)
    requires AllSound(text, rs)
    ensures Deduped(rs, ds)
  {
    var byKey: map<string, Replacement> := map[];
    var order: seq<string> := [];
    for i := 0 to |rs|
      invariant Collected(rs[..i], byKey, order)
    {
      var r := rs[i];
      assert rs[..i + 1] == rs[..i] + [r];
      var key := DedupeKey(r);
      if key !in byKey {
        CollectFirst(rs[..i], byKey, order, r);
        byKey := byKey[key := r];
        order := order + [key];
      } else {
        CollectAgain(text, rs[..i], byKey, order, r);
        byKey := byKey[key := PickWinner(byKey[key], r)];
      }
    }
    assert rs[..|rs|] == rs;
    CollectedIsDeduped(rs, byKey, order);
    ds := ByKeys(byKey, order);
  }

  // ----- the parts of a candidate that are still free

  ghost predicate InSome(out: seq<(int, int)>, p: int) {
    exists i :: 0 <= i < |out| && out[i].0 <= p < out[i].1
  }

  // `out` are the maximal stretches of `c` that `selected` leaves uncovered.
  ghost predicate FreeStretches(c: Replacement, selected: seq<Replacement>, out: seq<(int, int)>) {
    && (forall i :: 0 <= i < |out| ==> c.start <= out[i].0 < out[i].1 <= c.end)
    && (forall i, j :: 0 <= i < j < |out| ==> out[i].1 < out[j].0)
    && (forall p :: InSome(out, p) <==> Covers(c, p) && !Covered(selected, p))
  }

  predicate StartLess(a: Replacement, b: Replacement) {
    if a.start != b.start then a.start < b.start else a.end < b.end
  }

  // What the scan knows once it has dealt with everything left of `cursor`.
  ghost predicate ScannedTo(c: Replacement, selected: seq<Replacement>, cursor: int, out: seq<(int, int)>) {
    && c.start <= cursor
    && (forall i :: 0 <= i < |out| ==> c.start <= out[i].0 < out[i].1 <= c.end && out[i].1 < cursor)
    && (forall i, j :: 0 <= i < j < |out| ==> out[i].1 < out[j].0)
    && (forall p :: InSome(out, p) <==> Covers(c, p) && p < cursor && !Covered(selected, p))
  }

  lemma InSomeSnoc(out: seq<(int, int)>, last: (int, int), p: int)
    ensures InSome(out + [last], p) <==> InSome(out, p) || last.0 <= p < last.1
  {
    var all := out + [last];
    if last.0 <= p < last.1 {
      assert all[|out|] == last;
    }
    if InSome(out, p) {
      var i :| 0 <= i < |out| && out[i].0 <= p < out[i].1;
      assert all[i] == out[i];
    }
  }

  method UncoveredSpans(c: Replacement, selected: seq<Replacement>) returns (out: seq<(int, int)>)
    requires c.start < c.end
    requires forall s :: s in selected ==> s.start < s.end
    ensures FreeStretches(c, selected, out)
  {
    var sorted := SortSlice(selected, StartLess);
    PermutationMembers(sorted, selected);
    out := [];
    var cursor := c.start;
    var k := 0;
    while k < |sorted|
      invariant 0 <= k <= |sorted|
      invariant ScannedTo(c, selected, cursor, out)
      invariant forall j :: 0 <= j < k ==> sorted[j].end <= cursor
    {
      var s := sorted[k];
      assert s in selected;
      if s.end <= cursor {
        k := k + 1;
        continue;
      }
      if s.start >= c.end {
        break;
      }
      ghost var was := out;
      if s.start > cursor {
        forall p | cursor <= p < s.start ensures !Covered(selected, p) {
          NothingBefore(sorted, selected, k, cursor, p);
        }
        out := out + [(cursor, if s.start < c.end then s.start else c.end)];
      }
      ScanPast(c, selected, cursor, was, s);
      cursor := s.end;
      if cursor >= c.end {
        break;
      }
      k := k + 1;
    }
    if cursor < c.end {
      forall p | cursor <= p < c.end ensures !Covered(selected, p) {
        NothingBefore(sorted, selected, k, cursor, p);
      }
      ScanGap(c, selected, cursor, out, c.end);
      out := out + [(cursor, c.end)];
    }
  }

  // A stretch in front of the next selected span, or of the end, is free.
  lemma ScanGap(c: Replacement, selected: seq<Replacement>, cursor: int, out: seq<(int, int)>, next: int)
    requires ScannedTo(c, selected, cursor, out) && cursor < next <= c.end
    requires forall p :: cursor <= p < next ==> !Covered(selected, p)
    ensures var out' := out + [(cursor, next)];
      && (forall i :: 0 <= i < |out'| ==> c.start <= out'[i].0 < out'[i].1 <= c.end && out'[i].1 <= next)
      && (forall i, j :: 0 <= i < j < |out'| ==> out'[i].1 < out'[j].0)
      && (forall p :: InSome(out', p) <==> Covers(c, p) && p < next && !Covered(selected, p))
  {
    forall p ensures InSome(out + [(cursor, next)], p) <==> InSome(out, p) || cursor <= p < next {
      InSomeSnoc(out, (cursor, next), p);
    }
  }

  // Going past the next selected span, with what is free in front of it noted.
  lemma ScanPast(c: Replacement, selected: seq<Replacement>, cursor: int, out: seq<(int, int)>, s: Replacement)
    requires ScannedTo(c, selected, cursor, out) && s in selected
    requires s.start < s.end && s.start < c.end && cursor < s.end
    requires forall p :: cursor <= p < s.start ==> !Covered(selected, p)
    ensures ScannedTo(c, selected, s.end, if s.start > cursor then out + [(cursor, s.start)] else out)
  {
    if s.start > cursor {
      ScanGap(c, selected, cursor, out, s.start);
    }
    forall p | s.start <= p < s.end ensures Covered(selected, p) {
      assert Covers(s, p);
    }
  }

  lemma NothingBefore(sorted: seq<Replacement>, selected: seq<Replacement>, k: nat, cursor: int, p: int)
    requires Sorted(sorted, StartLess) && k <= |sorted|
    requires forall s :: s in sorted <==> s in selected
    requires forall j :: 0 <= j < k ==> sorted[j].end <= cursor
    requires cursor <= p && (k < |sorted| ==> p < sorted[k].start)
    ensures !Covered(selected, p)
  {
    forall s | s in selected ensures !Covers(s, p) {
      var j :| 0 <= j < |sorted| && sorted[j] == s;
      if j > k {
        assert !StartLess(sorted[j], sorted[k]);
      }
    }
  }

  // ----- resolving overlaps

  function PartsOf(text: string, c: Replacement, out: seq<(int, int)>): seq<Replacement>
    requires forall i :: 0 <= i < |out| ==> 0 <= out[i].0 <= out[i].1 <= |text|
  {
    seq(|out|, i requires 0 <= i < |out| =>
      c.(start := out[i].0, end := out[i].1, original := text[out[i].0..out[i].1]))
  }

  // A candidate that comes later in the order takes no byte from those before it.
  lemma LaterCandidate(rs: seq<Replacement>, c: Replacement, text: string, p: int, w: Replacement)
    requires AllSound(text, rs + [c])
    requires forall r :: r in rs ==> !CandidateLess(c, r)
    ensures Covered(rs, p) ==> (Wins(rs + [c], p, w) <==> Wins(rs, p, w))
    ensures !Covered(rs, p) ==> (Wins(rs + [c], p, w) <==> w == c && Covers(c, p))
  {
    assert forall r :: r in rs + [c] <==> r in rs || r == c;
    CandidateLessIsStrictTotal(c, c, c);
    if Covered(rs, p) {
      var v := WinnerExists(rs, p);
      assert Wins(rs + [c], p, v);
      if Wins(rs + [c], p, w) {
        WinnerIsUnique(text, rs + [c], p, v, w);
      }
    }
  }

  lemma OldPiecesStay(text: string, rs: seq<Replacement>, c: Replacement, r: Replacement)
    requires AllSound(text, rs + [c]) && IsPiece(text, rs, r)
    requires forall r :: r in rs ==> !CandidateLess(c, r)
    ensures IsPiece(text, rs + [c], r)
  {
    var w :| WinningPart(text, rs, w, r);
    assert forall r :: r in rs ==> r in rs + [c];
    forall p ensures Wins(rs + [c], p, w) <==> Wins(rs, p, w) {
      LaterCandidate(rs, c, text, p, w);
    }
    assert WinningPart(text, rs + [c], w, r);
  }

  lemma NewPartIsPiece(text: string, rs: seq<Replacement>, c: Replacement, pieces: seq<Replacement>,
                       out: seq<(int, int)>, i: nat)
    requires AllSound(text, rs + [c]) && Resolves(text, rs, pieces)
    requires forall r :: r in rs ==> !CandidateLess(c, r)
    requires FreeStretches(c, pieces, out) && i < |out|
    requires 0 <= out[i].0 && out[i].1 <= |text|
    ensures IsPiece(text, rs + [c], c.(start := out[i].0, end := out[i].1, original := text[out[i].0..out[i].1]))
  {
    var s, e := out[i].0, out[i].1;
    var r := c.(start := s, end := e, original := text[s..e]);
    forall p ensures s <= p < e ==> Wins(rs + [c], p, c)
             ensures p == s - 1 || p == e ==> !Wins(rs + [c], p, c)
    {
      PiecesFollowWinnersCovered(text, rs, c, pieces, p);
      LaterCandidate(rs, c, text, p, c);
      if Covered(rs, p) && Wins(rs, p, c) {
        assert Covered(rs, s) by { assert Covers(c, s) by { assert InSome(out, s); } }
        PiecesFollowWinnersCovered(text, rs, c, pieces, s);
        assert InSome(out, s);
      }
      if s <= p < e {
        assert InSome(out, p);
      }
      if p == s - 1 || p == e {
        assert !InSome(out, p);
      }
    }
    assert c in rs + [c];
    assert WinningPart(text, rs + [c], c, r);
  }

  lemma PiecesFollowWinnersCovered(text: string, rs: seq<Replacement>, c: Replacement, pieces: seq<Replacement>, p: int)
    requires AllSound(text, rs + [c]) && Resolves(text, rs, pieces)
    ensures Covered(rs, p) <==> Covered(pieces, p)
  {
    forall r | r in rs ensures Sound(text, r) {
      assert r in rs + [c];
    }
    PiecesFollowWinners(text, rs, pieces, p);
  }

  // Adding the free stretches of the next candidate keeps the resolution.
  lemma PartsAreDisjoint(text: string, rs: seq<Replacement>, c: Replacement, pieces: seq<Replacement>,
                         out: seq<(int, int)>)
    requires Resolves(text, rs, pieces) && FreeStretches(c, pieces, out)
    requires forall i :: 0 <= i < |out| ==> 0 <= out[i].0 <= out[i].1 <= |text|
    ensures PairwiseDisjoint(pieces + PartsOf(text, c, out))
  {
    var all := pieces + PartsOf(text, c, out);
    forall i, j | 0 <= i < j < |all| ensures !SpansOverlap(all[i], all[j]) {
      if i < |pieces| <= j {
        assert IsPiece(text, rs, pieces[i]);
        var m := if all[i].start < all[j].start then all[j].start else all[i].start;
        assert Covers(pieces[i], m) ==> Covered(pieces, m);
        var u := out[j - |pieces|];
        assert u.0 <= m < u.1 ==> InSome(out, m);
      }
    }
  }

  lemma AddCandidate(text: string, rs: seq<Replacement>, c: Replacement, pieces: seq<Replacement>, out: seq<(int, int)>)
    requires AllSound(text, rs + [c]) && Resolves(text, rs, pieces)
    requires forall r :: r in rs ==> !CandidateLess(c, r)
    requires FreeStretches(c, pieces, out)
    requires forall i :: 0 <= i < |out| ==> 0 <= out[i].0 <= out[i].1 <= |text|
    ensures Resolves(text, rs + [c], pieces + PartsOf(text, c, out))
  {
    var parts := PartsOf(text, c, out);
    var all := pieces + parts;
    forall i | 0 <= i < |all| ensures IsPiece(text, rs + [c], all[i]) {
      if i < |pieces| {
        OldPiecesStay(text, rs, c, pieces[i]);
      } else {
        NewPartIsPiece(text, rs, c, pieces, out, i - |pieces|);
      }
    }
    PartsAreDisjoint(text, rs, c, pieces, out);
    forall p | Covered(rs + [c], p) ensures Covered(all, p) {
      PiecesFollowWinnersCovered(text, rs, c, pieces, p);
      if Covered(pieces, p) {
        var r :| r in pieces && Covers(r, p);
        assert r in all;
      } else {
        assert !Covered(rs, p);
        var r :| r in rs + [c] && Covers(r, p);
        assert r == c by { assert r in rs ==> Covered(rs, p); }
        assert InSome(out, p);
        var i :| 0 <= i < |out| && out[i].0 <= p < out[i].1;
        assert all[|pieces| + i] == parts[i] && Covers(parts[i], p);
      }
    }
  }

  // What is known when it is the turn of candidate `k`.
  lemma NextCandidate(text: string, candidates: seq<Replacement>, k: nat, selected: seq<Replacement>)
    requires AllSound(text, candidates) && Sorted(candidates, CandidateLess) && k < |candidates|
    requires Resolves(text, candidates[..k], selected)
    ensures candidates[..k + 1] == candidates[..k] + [candidates[k]]
    ensures AllSound(text, candidates[..k] + [candidates[k]]) && Sound(text, candidates[k])
    ensures forall r :: r in candidates[..k] ==> !CandidateLess(candidates[k], r)
    ensures forall s :: s in selected ==> s.start < s.end
  {
    forall s | s in selected ensures s.start < s.end {
      assert IsPiece(text, candidates[..k], s);
    }
  }

  method ResolveOverlaps(text: string, replacements: seq<Replacement>) returns (selected: seq<Replacement>)
    requires AllSound(text, replacements)
    ensures Resolves(text, replacements, selected)
  {
    CandidateLessIsWeakOrder();
    var candidates := SortSlice(replacements, CandidateLess);
    PermutationMembers(candidates, replacements);
    selected := [];
    for k := 0 to |candidates|
      invariant Resolves(text, candidates[..k], selected)
    {
      var c := candidates[k];
      NextCandidate(text, candidates, k, selected);
      var out := UncoveredSpans(c, selected);
      AddCandidate(text, candidates[..k], c, selected, out);
      ghost var before := selected;
      for i := 0 to |out|
        invariant selected == before + PartsOf(text, c, out)[..i]
      {
        var u := out[i];
        selected := selected + [c.(start := u.0, end := u.1, original := text[u.0..u.1])];
      }
      assert PartsOf(text, c, out)[..|out|] == PartsOf(text, c, out);
    }
    assert candidates[..|candidates|] == candidates;
    SameMembersSameResolution(text, candidates, replacements, selected);
  }

  lemma SameMembersSameResolution(text: string, rs: seq<Replacement>, ss: seq<Replacement>, pieces: seq<Replacement>)
    requires SameMembers(rs, ss) && Resolves(text, rs, pieces)
    ensures Resolves(text, ss, pieces)
  {
    SameWinnersSameResolution(text, rs, ss, pieces);
  }

  // ----- combining the plans

  predicate Accepts(policy: Policy, kind: string, confidence: real) {
    kind in policy.allowedKinds && !(confidence < policy.minConfidence)
  }

  // The replacements the policy lets through, in order.
  function Accepted(policy: Policy, rs: seq<Replacement>): (a: seq<Replacement>)
    ensures forall r :: r in a <==> r in rs && Accepts(policy, r.kind, r.confidence)
    ensures |a| <= |rs|
  {
    if rs == [] then []
    else
      var init, r := rs[..|rs| - 1], rs[|rs| - 1];
      assert rs == init + [r];
      if Accepts(policy, r.kind, r.confidence) then Accepted(policy, init) + [r] else Accepted(policy, init)
  }

  predicate TextLess(a: Replacement, b: Replacement) {
    if a.start != b.start then a.start < b.start
    else if a.end != b.end then a.end > b.end
    else StringLess(a.kind, b.kind)
  }

  lemma TextLessIsWeakOrder()
    ensures StrictWeakOrder(TextLess)
  {
    forall a: Replacement, b: Replacement, c: Replacement
      ensures !TextLess(a, a)
      ensures TextLess(a, c) ==> TextLess(a, b) || TextLess(b, c)
      ensures !(TextLess(a, b) && TextLess(b, a))
    {
      StringLessTotal(a.kind, a.kind);
      StringLessTotal(a.kind, b.kind);
      StringLessTotal(b.kind, c.kind);
      StringLessTotal(a.kind, c.kind);
      if StringLess(c.kind, b.kind) && StringLess(b.kind, a.kind) {
        StringLessTransitive(c.kind, b.kind, a.kind);
      }
    }
  }

  // `plan` is the one resolution of the accepted replacements, in text order,
  // with fresh tokens.
  ghost predicate IsCombinedPlan(text: string, accepted: seq<Replacement>, plan: seq<Replacement>) {
    exists pieces :: && Resolves(text, accepted, pieces) && InTextOrder(pieces)
                     && plan == Tokenised(text, pieces)
  }

  ghost predicate CombineSpec(text: string, rs: seq<Replacement>, policy: Policy,
                              result: Result<seq<Replacement>, Error>)
  {
    match result
    case Ok(plan) => AllSound(text, rs) && IsCombinedPlan(text, Accepted(policy, rs), plan)
    case Err(error) => !AllSound(text, rs) && error == InvalidSpan
  }

  lemma OrderedAfterSort(text: string, rs: seq<Replacement>, selected: seq<Replacement>, sorted: seq<Replacement>)
    requires Resolves(text, rs, selected)
    requires Sorted(sorted, TextLess) && Permutation(sorted, selected)
    ensures Resolves(text, rs, sorted) && InTextOrder(sorted)
  {
    PermutationMembers(sorted, selected);
    forall i | 0 <= i < |sorted| ensures IsPiece(text, rs, sorted[i]) && sorted[i].start < sorted[i].end {
      assert sorted[i] in selected;
      var k :| 0 <= k < |selected| && selected[k] == sorted[i];
    }
    forall i, j | 0 <= i < j < |selected| ensures selected[i] != selected[j] {
      assert IsPiece(text, rs, selected[i]);
      assert !SpansOverlap(selected[i], selected[j]);
    }
    DistinctPermutation(selected, sorted);
    forall i, j | 0 <= i < j < |sorted| ensures sorted[i].end <= sorted[j].start {
      assert sorted[i] in selected && sorted[j] in selected;
      var k :| 0 <= k < |selected| && selected[k] == sorted[i];
      var l :| 0 <= l < |selected| && selected[l] == sorted[j];
      assert k != l;
      assert !SpansOverlap(selected[k], selected[l]) && !TextLess(sorted[j], sorted[i]);
    }
    forall p | Covered(rs, p) ensures Covered(sorted, p) {
      var r :| r in selected && Covers(r, p);
      assert r in sorted;
    }
  }

  // The first loop: every replacement is checked, then those the policy lets through are kept.
  method Screen(text: string, combined: seq<Replacement>, policy: Policy)
    returns (result: Result<seq<Replacement>, Error>)
    ensures result.Ok? <==> AllSound(text, combined)
    ensures result.Ok? ==> result.value == Accepted(policy, combined)
    ensures result.Err? ==> result.error == InvalidSpan
  {
    var validated: seq<Replacement> := [];
    for i := 0 to |combined|
      invariant AllSound(text, combined[..i])
      invariant validated == Accepted(policy, combined[..i])
    {
      var r := combined[i];
      assert combined[..i + 1] == combined[..i] + [r];
      if !ValidSpan(text, r.start, r.end) || text[r.start..r.end] != r.original {
        assert r in combined && !Sound(text, r);
        return Err(InvalidSpan);
      }
      if r.kind !in policy.allowedKinds {
        continue;
      }
      if r.confidence < policy.minConfidence {
        continue;
      }
      validated := validated + [r];
    }
    assert combined[..|combined|] == combined;
    return Ok(validated);
  }

  method CombinePlans(text: string, mlPlan: seq<Replacement>, backendPlan: seq<Replacement>, policy: Policy)
    returns (result: Result<seq<Replacement>, Error>)
    ensures CombineSpec(text, mlPlan + backendPlan, policy, result)
    ensures result.Ok? ==> forall p :: Covered(result.value, p) <==> WantedOver(mlPlan + backendPlan, policy, p)
  {
    var combined := mlPlan + backendPlan;
    var screened := Screen(text, combined, policy);
    if screened.Err? {
      return Err(screened.error);
    }
    var validated := screened.value;
    var merged := Dedupe(text, validated);
    var selected := ResolveOverlaps(text, merged);
    DedupeKeepsWinners(text, validated, merged);
    SameWinnersSameResolution(text, merged, validated, selected);
    TextLessIsWeakOrder();
    var sorted := SortSlice(selected, TextLess);
    OrderedAfterSort(text, validated, selected, sorted);
    var plan := NormalizeTokens(text, sorted);
    HidesWhatIsWanted(text, combined, policy, plan);
    return Ok(plan);
  }

  // The plan depends only on which replacements there are: not on their order,
  // not on how often one is repeated, and not on which detector's list holds them.
  lemma CombineIsOrderIndependent(text: string, rs: seq<Replacement>, ss: seq<Replacement>, policy: Policy,
                                  x: Result<seq<Replacement>, Error>, y: Result<seq<Replacement>, Error>)
    requires SameMembers(rs, ss)
    requires CombineSpec(text, rs, policy, x) && CombineSpec(text, ss, policy, y)
    ensures x == y
  {
    if x.Ok? {
      var a, b := Accepted(policy, rs), Accepted(policy, ss);
      var xs :| Resolves(text, a, xs) && InTextOrder(xs) && x.value == Tokenised(text, xs);
      var ys :| Resolves(text, b, ys) && InTextOrder(ys) && y.value == Tokenised(text, ys);
      SameMembersSameResolution(text, b, a, ys);
      ResolutionIsUnique(text, a, xs, ys);
    }
  }

  // Leaving duplicates in would change nothing.
  lemma DedupeNeverMatters(text: string, rs: seq<Replacement>, ds: seq<Replacement>,
                           x: seq<Replacement>, y: seq<Replacement>)
    requires AllSound(text, rs) && Deduped(rs, ds)
    requires IsCombinedPlan(text, rs, x) && IsCombinedPlan(text, ds, y)
    ensures x == y
  {
    var xs :| Resolves(text, rs, xs) && InTextOrder(xs) && x == Tokenised(text, xs);
    var ys :| Resolves(text, ds, ys) && InTextOrder(ys) && y == Tokenised(text, ys);
    DedupeKeepsWinners(text, rs, ds);
    SameWinnersSameResolution(text, ds, rs, ys);
    ResolutionIsUnique(text, rs, xs, ys);
  }

  // ----- the plan, byte by byte

  // `r` hides a part of the text that `w` covers, and bears its marks.
  predicate Hides(text: string, w: Replacement, r: Replacement) {
    && r.kind == w.kind && r.source == w.source && r.confidence == w.confidence
    && w.start <= r.start < r.end <= w.end
    && 0 <= r.start && r.end <= |text| && r.original == text[r.start..r.end]
  }

  // A byte of the text is hidden exactly when an accepted span covers it, by a
  // piece that bears the marks of the first such span in the candidate order.
  lemma PlanIsPointwiseCorrect(text: string, accepted: seq<Replacement>, plan: seq<Replacement>, p: int)
    requires AllSound(text, accepted) && IsCombinedPlan(text, accepted, plan)
    ensures Covered(accepted, p) <==> Covered(plan, p)
    ensures Covered(accepted, p) ==> exists w :: Wins(accepted, p, w)
    ensures forall r, w :: r in plan && Covers(r, p) && Wins(accepted, p, w) ==> Hides(text, w, r)
  {
    var pieces :| Resolves(text, accepted, pieces) && InTextOrder(pieces) && plan == Tokenised(text, pieces);
    PiecesFollowWinners(text, accepted, pieces, p);
    TokensMoveNothing(text, pieces, p);
    if Covered(accepted, p) {
      var w := WinnerExists(accepted, p);
    }
    forall r, w | r in plan && Covers(r, p) && Wins(accepted, p, w) ensures Hides(text, w, r) {
      var i :| 0 <= i < |plan| && plan[i] == r;
      PlannedPieceHides(text, accepted, w, pieces, i, p);
    }
  }

  lemma PieceFromWinner(text: string, accepted: seq<Replacement>, plan: seq<Replacement>, p: int,
                        r: Replacement, a: Replacement)
    returns (w: Replacement)
    requires AllSound(text, accepted) && IsCombinedPlan(text, accepted, plan)
    requires r in plan && Covers(r, p) && a in accepted && Covers(a, p)
    ensures w in accepted && Covers(w, p) && Hides(text, w, r) && !CandidateLess(a, w)
  {
    PlanIsPointwiseCorrect(text, accepted, plan, p);
    w :| Wins(accepted, p, w);
  }

  // A span over the byte is of an allowed kind and confident enough.
  ghost predicate WantedOver(rs: seq<Replacement>, policy: Policy, p: int) {
    exists a :: a in rs && a.kind in policy.allowedKinds && a.confidence >= policy.minConfidence
                && a.start <= p < a.end
  }

  lemma HidesWhatIsWanted(text: string, rs: seq<Replacement>, policy: Policy, plan: seq<Replacement>)
    requires AllSound(text, rs) && IsCombinedPlan(text, Accepted(policy, rs), plan)
    ensures forall p :: Covered(plan, p) <==> WantedOver(rs, policy, p)
  {
    var accepted := Accepted(policy, rs);
    forall p ensures Covered(plan, p) <==> WantedOver(rs, policy, p) {
      PlanIsPointwiseCorrect(text, accepted, plan, p);
      if Covered(accepted, p) {
        var a :| a in accepted && Covers(a, p);
      }
      if a :| a in rs && a.kind in policy.allowedKinds && a.confidence >= policy.minConfidence
              && a.start <= p < a.end
      {
        assert a in accepted && Covers(a, p);
      }
    }
  }

  // Which accepted span a hidden byte goes to, in terms of the spans themselves: the
  // one the piece was cut from is before every other accepted span over that byte.
  lemma PieceComesFromFirst(text: string, accepted: seq<Replacement>, plan: seq<Replacement>, p: int,
                            r: Replacement, a: Replacement)
    returns (w: Replacement)
    requires AllSound(text, accepted) && IsCombinedPlan(text, accepted, plan)
    requires r in plan && Covers(r, p) && a in accepted && Covers(a, p)
    ensures w in accepted && Covers(w, p)
    ensures r.kind == w.kind && r.source == w.source && r.confidence == w.confidence
    ensures w.start <= r.start < r.end <= w.end
    ensures a.kind in CHECKED_KINDS || a.kind in WHOLE_KINDS ==> w.kind in CHECKED_KINDS || w.kind in WHOLE_KINDS
    ensures a.kind in PART_KINDS ==> w.kind in CHECKED_KINDS || w.kind in WHOLE_KINDS || w.kind in PART_KINDS
    ensures
      var sameRank := ((w.kind in CHECKED_KINDS || w.kind in WHOLE_KINDS)
                       == (a.kind in CHECKED_KINDS || a.kind in WHOLE_KINDS))
                      && (w.kind in PART_KINDS) == (a.kind in PART_KINDS);
      var wPrimary := w.source == if w.kind in CHECKED_KINDS then "regex" else "ml";
      var aPrimary := a.source == if a.kind in CHECKED_KINDS then "regex" else "ml";
      sameRank ==>
        && (aPrimary ==> wPrimary)
        && (aPrimary == wPrimary ==>
              && w.confidence >= a.confidence
              && (w.confidence == a.confidence ==>
                    && w.end - w.start >= a.end - a.start
                    && (w.end - w.start == a.end - a.start ==>
                          && w.start <= a.start
                          && (w.start == a.start ==>
                                && !StringLess(a.kind, w.kind)
                                && (w.kind == a.kind ==>
                                      && !StringLess(a.source, w.source)
                                      && (w.source == a.source ==> !StringLess(a.token, w.token)))))))
  {
    w := PieceFromWinner(text, accepted, plan, p, r, a);
    PreferenceIsLexicographic(w, a);
  }

  lemma PlannedPieceHides(text: string, accepted: seq<Replacement>, w: Replacement, pieces: seq<Replacement>,
                          i: nat, p: int)
    requires AllSound(text, accepted) && Resolves(text, accepted, pieces) && i < |pieces|
    requires Covers(Tokenised(text, pieces)[i], p) && Wins(accepted, p, w)
    ensures Hides(text, w, Tokenised(text, pieces)[i])
  {
    assert IsPiece(text, accepted, pieces[i]);
    PieceHides(text, accepted, w, pieces[i], p);
  }

  lemma TokensMoveNothing(text: string, pieces: seq<Replacement>, p: int)
    ensures Covered(Tokenised(text, pieces), p) <==> Covered(pieces, p)
  {
    var plan := Tokenised(text, pieces);
    if Covered(pieces, p) {
      var i :| 0 <= i < |pieces| && Covers(pieces[i], p);
      assert plan[i] in plan && Covers(plan[i], p);
    }
    if Covered(plan, p) {
      var i :| 0 <= i < |plan| && Covers(plan[i], p);
      assert pieces[i] in pieces && Covers(pieces[i], p);
    }
  }

  lemma PieceHides(text: string, accepted: seq<Replacement>, w: Replacement, r: Replacement, p: int)
    requires AllSound(text, accepted) && IsPiece(text, accepted, r) && Covers(r, p) && Wins(accepted, p, w)
    ensures Hides(text, w, r)
  {
    var v :| WinningPart(text, accepted, v, r);
    WinnerIsUnique(text, accepted, p, v, w);
    assert Wins(accepted, r.start, v) && Wins(accepted, r.end - 1, v);
  }

  // Disjoint, in text order, sound for the text, at most 2n - 1 of them.
  lemma PlanShape(text: string, accepted: seq<Replacement>, plan: seq<Replacement>)
    requires AllSound(text, accepted) && IsCombinedPlan(text, accepted, plan)
    ensures InTextOrder(plan) && AllSound(text, plan)
    ensures accepted != [] ==> |plan| <= 2 * |accepted| - 1
  {
    var pieces: seq<Replacement> :|
      Resolves(text, accepted, pieces) && InTextOrder(pieces) && plan == Tokenised(text, pieces);
    forall i | 0 <= i < |pieces| ensures Sound(text, pieces[i]) {
      assert IsPiece(text, accepted, pieces[i]);
      PieceIsSound(text, accepted, pieces[i]);
    }
    TokensKeepShape(text, pieces);
    if accepted != [] {
      PieceCount(text, accepted, pieces);
    }
  }

  lemma TokensKeepShape(text: string, pieces: seq<Replacement>)
    requires InTextOrder(pieces) && forall i :: 0 <= i < |pieces| ==> Sound(text, pieces[i])
    ensures InTextOrder(Tokenised(text, pieces)) && AllSound(text, Tokenised(text, pieces))
  {
    var plan := Tokenised(text, pieces);
    assert forall i :: 0 <= i < |plan| ==> plan[i] == pieces[i].(token := plan[i].token);
    forall r | r in plan ensures Sound(text, r) {
      var i :| 0 <= i < |plan| && plan[i] == r;
      assert Sound(text, pieces[i]);
    }
  }
}
