/** Cutting a text into chunks for the detector. */
module Chunker {
  import opened Wrappers
  import opened Pii
  import opened Utf8

  datatype ChunkConfig = ChunkConfig(target: int, max: int, overlap: int)

  predicate ValidConfig(cfg: ChunkConfig) {
    0 < cfg.target <= cfg.max && 0 <= cfg.overlap < cfg.max
  }

  // Positions `start` and `end` count code points; `startByte` and `endByte` count bytes.
  datatype TextChunk = TextChunk(text: string, start: nat, end: nat, startByte: nat, endByte: nat)

  // ----- where a chunk ends

  predicate IsBoundary(runes: seq<int>, cp: int) {
    && 0 < cp < |runes|
    && var prev := runes[cp - 1];
       || prev == '\n' as int
       || ((prev == '.' as int || prev == '?' as int || prev == '!' as int)
           && (runes[cp] == ' ' as int || runes[cp] == '\n' as int))
  }

  function SearchLow(start: nat, cfg: ChunkConfig): int {
    var low := start + cfg.target - cfg.overlap;
    if low < start + 1 then start + 1 else low
  }

  function SearchHigh(n: nat, start: nat, cfg: ChunkConfig): int {
    if start + cfg.max > n then n else start + cfg.max
  }

  function Distance(cp: int, target: int): int {
    if cp < target then target - cp else cp - target
  }

  // A boundary within the search range.
  predicate Candidate(runes: seq<int>, start: nat, cfg: ChunkConfig, cp: int) {
    SearchLow(start, cfg) <= cp <= SearchHigh(|runes|, start, cfg) && IsBoundary(runes, cp)
  }

  // The candidate nearest the target; of two equally near, the earlier.
  ghost predicate Nearest(runes: seq<int>, start: nat, cfg: ChunkConfig, cp: int) {
    && Candidate(runes, start, cfg, cp)
    && forall other :: Candidate(runes, start, cfg, other) && other != cp ==>
         var d, e := Distance(cp, start + cfg.target), Distance(other, start + cfg.target);
         d < e || (d == e && cp < other)
  }

  ghost predicate ChunkEnds(runes: seq<int>, start: nat, cfg: ChunkConfig, end: int, safe: bool) {
    if start + cfg.target >= |runes| then
      end == |runes| && safe
    else if safe then
      Nearest(runes, start, cfg, end)
    else
      end == SearchHigh(|runes|, start, cfg) && forall cp :: !Candidate(runes, start, cfg, cp)
  }

  method FindChunkEnd(runes: seq<int>, start: nat, cfg: ChunkConfig) returns (end: nat, safe: bool)
    requires ValidConfig(cfg) && start < |runes|
    ensures ChunkEnds(runes, start, cfg, end, safe)
    ensures start < end <= |runes| && end - start <= cfg.max
  {
    if start + cfg.target >= |runes| {
      return |runes|, true;
    }
    var maxEnd := SearchHigh(|runes|, start, cfg);
    var low := SearchLow(start, cfg);
    var best := -1;
    var bestDist := 0;
    var cp := low;
    while cp <= maxEnd
      invariant low <= cp <= maxEnd + 1
      invariant best < cp
      invariant best == -1 ==> forall c :: low <= c < cp ==> !IsBoundary(runes, c)
      invariant best != -1 ==>
        && Candidate(runes, start, cfg, best)
        && bestDist == Distance(best, start + cfg.target)
        && forall c :: low <= c < cp && IsBoundary(runes, c) && c != best ==>
             var e := Distance(c, start + cfg.target);
             bestDist < e || (bestDist == e && best < c)
    {
      if IsBoundary(runes, cp) {
        var dist := Distance(cp, start + cfg.target);
        if best == -1 || dist < bestDist {
          bestDist := dist;
          best := cp;
        }
      }
      cp := cp + 1;
    }
    if best >= 0 {
      return best, true;
    }
    return maxEnd, false;
  }

  // ----- the chunks of a text

  ghost predicate ChunkOf(text: string, cfg: ChunkConfig, c: TextChunk)
    requires Valid(text)
  {
    && c.start < c.end <= |Chars(text)| && c.end - c.start <= cfg.max
    && c.startByte == ByteAt(text, c.start) && c.endByte == ByteAt(text, c.end)
    && c.startByte <= c.endByte <= |text|
    && c.text == text[c.startByte..c.endByte]
  }

  // One chunk ends on a safe cut, and the next begins there; or it ends on a forced
  // cut, and the next repeats the overlap.
  ghost predicate Follows(runes: seq<int>, cfg: ChunkConfig, c: TextChunk, d: TextChunk) {
    && c.end < |runes|
    && ((ChunkEnds(runes, c.start, cfg, c.end, true) && d.start == c.end)
        || (ChunkEnds(runes, c.start, cfg, c.end, false) && d.start == c.end - cfg.overlap))
  }

  ghost predicate IsChain(text: string, cfg: ChunkConfig, chunks: seq<TextChunk>)
    requires Valid(text)
  {
    && (forall i :: 0 <= i < |chunks| ==> ChunkOf(text, cfg, chunks[i]))
    && (chunks != [] ==> chunks[0].start == 0)
    && (forall i :: 0 <= i < |chunks| - 1 ==> Follows(Runes(text), cfg, chunks[i], chunks[i + 1]))
    && (chunks != [] ==>
          var last := chunks[|chunks| - 1];
          exists safe :: ChunkEnds(Runes(text), last.start, cfg, last.end, safe))
  }

  ghost predicate IsSplit(text: string, cfg: ChunkConfig, chunks: seq<TextChunk>)
    requires Valid(text)
  {
    && IsChain(text, cfg, chunks)
    && (chunks == [] <==> text == "")
    && (chunks != [] ==> chunks[|chunks| - 1].end == |Chars(text)|)
  }

  ghost predicate SplitSpec(text: string, cfg: ChunkConfig, result: Result<seq<TextChunk>, Error>) {
    match result
    case Ok(chunks) => ValidConfig(cfg) && Valid(text) && IsSplit(text, cfg, chunks)
    case Err(BadConfig) => !ValidConfig(cfg)
    case Err(error) => error == InvalidText && ValidConfig(cfg) && !Valid(text)
  }

  function Offsets(text: string): (s: seq<nat>)
    requires Valid(text)
    ensures |s| == |Chars(text)| + 1
  {
    seq(|Chars(text)| + 1, k requires 0 <= k <= |Chars(text)| => ByteAt(text, k))
  }

  // One step of the range over a text.
  lemma NextOffset(text: string, k: nat)
    requires Valid(text) && k < |Chars(text)|
    ensures ByteAt(text, k) < |text| && FirstLen(text[ByteAt(text, k)..]) > 0
    ensures ByteAt(text, k + 1) == ByteAt(text, k) + FirstLen(text[ByteAt(text, k)..])
  {
    SliceAt(text, k, k + 1);
    HeadOfRest(text, k);
  }

  // `for i := range text`.
  method RangeOffsets(text: string) returns (offsets: seq<nat>)
    requires Valid(text)
    ensures offsets == Offsets(text)
  {
    offsets := [];
    var i := 0;
    ByteAtEnds(text);
    while i < |text|
      invariant |offsets| <= |Chars(text)|
      invariant i == ByteAt(text, |offsets|) && i <= |text|
      invariant offsets == Offsets(text)[..|offsets|]
      invariant |offsets| == |Chars(text)| ==> i == |text|
    {
      NextOffset(text, |offsets|);
      offsets := offsets + [i];
      i := i + FirstLen(text[i..]);
    }
    if |offsets| < |Chars(text)| {
      SliceAt(text, |offsets|, |Chars(text)|);
    }
    offsets := offsets + [|text|];
  }

  // Decoding at the offset of code point `k` finds code point `k`.
  lemma HeadOfRest(text: string, k: nat)
    requires Valid(text) && k < |Chars(text)|
    ensures ByteAt(text, k) <= |text|
    ensures FirstLen(text[ByteAt(text, k)..]) == |Chars(text)[k]| > 0
    ensures ByteAt(text, k + 1) == ByteAt(text, k) + |Chars(text)[k]|
  {
    var cs := Chars(text);
    ByteAtEnds(text);
    SliceAt(text, k, |cs|);
    assert text[ByteAt(text, k)..|text|] == text[ByteAt(text, k)..];
    assert cs[k..] == cs[k..|cs|];
    assert cs[k..][0] == cs[k];
    CharsFlatten(text);
    assert IsChar(cs[k]);
    FirstLenOfConcat(cs[k], Flatten(cs[k..][1..]));
    FlattenSnoc(cs, k);
  }

  method SplitText(text: string, cfg: ChunkConfig) returns (result: Result<seq<TextChunk>, Error>)
    ensures SplitSpec(text, cfg, result)
    ensures result == Err(BadConfig) <==>
      !(cfg.target > 0 && cfg.max > 0 && cfg.target <= cfg.max && 0 <= cfg.overlap < cfg.max)
  {
    if !ValidConfig(cfg) {
      return Err(BadConfig);
    }
    if text == "" {
      return Ok([]);
    }
    if !Valid(text) {
      return Err(InvalidText);
    }
    var runes := Runes(text);
    var byteOffsets := RangeOffsets(text);
    ByteAtEnds(text);
    var chunks: seq<TextChunk> := [];
    var start, startByte := 0, 0;
    while true
      invariant start < |runes| && startByte == ByteAt(text, start)
      invariant IsChain(text, cfg, chunks)
      invariant chunks == [] ==> start == 0
      invariant chunks != [] ==>
        var last := chunks[|chunks| - 1];
        && last.end < |runes|
        && ((ChunkEnds(runes, last.start, cfg, last.end, true) && start == last.end)
            || (ChunkEnds(runes, last.start, cfg, last.end, false) && start == last.end - cfg.overlap))
      decreases |runes| - start
    {
      var end, safe := FindChunkEnd(runes, start, cfg);
      var endByte := byteOffsets[end];
      SliceAt(text, start, end);
      var chunk := TextChunk(text[startByte..endByte], start, end, startByte, endByte);
      ChainSnoc(text, cfg, chunks, chunk, safe);
      chunks := chunks + [chunk];
      if end >= |runes| {
        break;
      }
      if safe {
        start := end;
      } else {
        start := end - cfg.overlap;
      }
      startByte := byteOffsets[start];
    }
    return Ok(chunks);
  }

  lemma ChainSnoc(text: string, cfg: ChunkConfig, chunks: seq<TextChunk>, c: TextChunk, safe: bool)
    requires Valid(text) && IsChain(text, cfg, chunks) && ChunkOf(text, cfg, c)
    requires chunks == [] ==> c.start == 0
    requires chunks != [] ==> Follows(Runes(text), cfg, chunks[|chunks| - 1], c)
    requires ChunkEnds(Runes(text), c.start, cfg, c.end, safe)
    ensures IsChain(text, cfg, chunks + [c])
  {
    var all := chunks + [c];
    assert all[|all| - 1] == c && forall i :: 0 <= i < |chunks| ==> all[i] == chunks[i];
    assert ChunkEnds(Runes(text), all[|all| - 1].start, cfg, all[|all| - 1].end, safe);
  }

  // ----- what the chunks guarantee

  // Chunks move forward and leave no gap.
  lemma ChunksAdvance(text: string, cfg: ChunkConfig, chunks: seq<TextChunk>, i: nat)
    requires ValidConfig(cfg) && Valid(text) && IsSplit(text, cfg, chunks) && i < |chunks| - 1
    ensures chunks[i].start < chunks[i + 1].start <= chunks[i].end
    ensures chunks[i].end < chunks[i + 1].end
  {
    var c, d := chunks[i], chunks[i + 1];
    assert Follows(Runes(text), cfg, c, d) && ChunkOf(text, cfg, c) && ChunkOf(text, cfg, d);
    assert exists safe :: ChunkEnds(Runes(text), d.start, cfg, d.end, safe) by {
      if i + 1 < |chunks| - 1 {
        assert Follows(Runes(text), cfg, d, chunks[i + 2]);
      }
    }
    if d.start != c.end {
      // `c` could have used any boundary up to its end that `d` can use.
      assert forall cp :: Candidate(Runes(text), d.start, cfg, cp) && cp <= c.end ==>
                            Candidate(Runes(text), c.start, cfg, cp);
    }
  }

  // The end of a chunk, and whether it is a safe cut, are determined by its start.
  lemma OneEnd(runes: seq<int>, start: nat, cfg: ChunkConfig, e: int, s: bool, f: int, t: bool)
    requires ChunkEnds(runes, start, cfg, e, s) && ChunkEnds(runes, start, cfg, f, t)
    ensures e == f && s == t
  {
    assert s ==> start + cfg.target >= |runes| || Candidate(runes, start, cfg, e);
    assert t ==> start + cfg.target >= |runes| || Candidate(runes, start, cfg, f);
  }

  lemma NextStart(text: string, cfg: ChunkConfig, c: TextChunk, d: TextChunk, e: TextChunk)
    requires Valid(text) && Follows(Runes(text), cfg, c, d) && Follows(Runes(text), cfg, c, e)
    ensures d.start == e.start
  {
    if ChunkEnds(Runes(text), c.start, cfg, c.end, true) && ChunkEnds(Runes(text), c.start, cfg, c.end, false) {
      OneEnd(Runes(text), c.start, cfg, c.end, true, c.end, false);
    }
  }

  lemma EndsSomehow(text: string, cfg: ChunkConfig, chunks: seq<TextChunk>, i: nat) returns (safe: bool)
    requires Valid(text) && IsSplit(text, cfg, chunks) && i < |chunks|
    ensures ChunkEnds(Runes(text), chunks[i].start, cfg, chunks[i].end, safe)
  {
    if i < |chunks| - 1 {
      assert Follows(Runes(text), cfg, chunks[i], chunks[i + 1]);
      safe := if ChunkEnds(Runes(text), chunks[i].start, cfg, chunks[i].end, true) then true else false;
    } else {
      safe :| ChunkEnds(Runes(text), chunks[i].start, cfg, chunks[i].end, safe);
    }
  }

  lemma {:induction false} SameChunk(text: string, cfg: ChunkConfig, xs: seq<TextChunk>, ys: seq<TextChunk>, i: nat)
    requires Valid(text) && IsSplit(text, cfg, xs) && IsSplit(text, cfg, ys)
    requires i < |xs| && i < |ys|
    ensures xs[i] == ys[i]
  {
    if i > 0 {
      SameChunk(text, cfg, xs, ys, i - 1);
      assert Follows(Runes(text), cfg, xs[i - 1], xs[i]) && Follows(Runes(text), cfg, ys[i - 1], ys[i]);
      NextStart(text, cfg, xs[i - 1], xs[i], ys[i]);
    }
    var s := EndsSomehow(text, cfg, xs, i);
    var t := EndsSomehow(text, cfg, ys, i);
    OneEnd(Runes(text), xs[i].start, cfg, xs[i].end, s, ys[i].end, t);
    assert ChunkOf(text, cfg, xs[i]) && ChunkOf(text, cfg, ys[i]);
  }

  lemma NoLonger(text: string, cfg: ChunkConfig, xs: seq<TextChunk>, ys: seq<TextChunk>)
    requires Valid(text) && IsSplit(text, cfg, xs) && IsSplit(text, cfg, ys)
    ensures |ys| <= |xs|
  {
    if |xs| < |ys| && xs != [] {
      var n := |xs| - 1;
      assert Follows(Runes(text), cfg, ys[n], ys[n + 1]);
      SameChunk(text, cfg, xs, ys, n);
    }
  }

  // A text has exactly one split.
  lemma SplitIsUnique(text: string, cfg: ChunkConfig, xs: seq<TextChunk>, ys: seq<TextChunk>)
    requires Valid(text) && IsSplit(text, cfg, xs) && IsSplit(text, cfg, ys)
    ensures xs == ys
  {
    NoLonger(text, cfg, xs, ys);
    NoLonger(text, cfg, ys, xs);
    forall i | 0 <= i < |xs| ensures xs[i] == ys[i] {
      SameChunk(text, cfg, xs, ys, i);
    }
  }

  // A code point range is cut apart by the end of chunk `i`.
  predicate Straddles(chunks: seq<TextChunk>, i: nat, a: nat, b: nat)
    requires i < |chunks|
  {
    a < chunks[i].end < b
  }

  ghost predicate SafeCut(runes: seq<int>, cfg: ChunkConfig, c: TextChunk) {
    ChunkEnds(runes, c.start, cfg, c.end, true)
  }

  lemma {:induction false} WindowFrom(text: string, cfg: ChunkConfig, chunks: seq<TextChunk>, a: nat, b: nat, i: nat)
    returns (k: nat)
    requires ValidConfig(cfg) && Valid(text) && IsSplit(text, cfg, chunks)
    requires a < b <= |Runes(text)| && b - a <= cfg.overlap + 1
    requires forall j :: 0 <= j < |chunks| && SafeCut(Runes(text), cfg, chunks[j]) ==> !Straddles(chunks, j, a, b)
    requires i < |chunks| && chunks[i].start <= a
    ensures k < |chunks| && chunks[k].start <= a && b <= chunks[k].end
    decreases |chunks| - i
  {
    if b <= chunks[i].end {
      k := i;
    } else {
      assert ChunkOf(text, cfg, chunks[i]);
      assert i < |chunks| - 1;
      assert Follows(Runes(text), cfg, chunks[i], chunks[i + 1]);
      k := WindowFrom(text, cfg, chunks, a, b, i + 1);
    }
  }

  // Everything at most one code point longer than the overlap that no safe cut runs
  // through is seen whole by some chunk.
  lemma ShortWindowsAreWhole(text: string, cfg: ChunkConfig, chunks: seq<TextChunk>, a: nat, b: nat)
    requires ValidConfig(cfg) && Valid(text) && IsSplit(text, cfg, chunks)
    requires a < b <= |Runes(text)| && b - a <= cfg.overlap + 1
    requires forall j :: 0 <= j < |chunks| && SafeCut(Runes(text), cfg, chunks[j]) ==> !Straddles(chunks, j, a, b)
    ensures exists k :: 0 <= k < |chunks| && chunks[k].start <= a && b <= chunks[k].end
  {
    var k := WindowFrom(text, cfg, chunks, a, b, 0);
  }

  // Where a chunk ends, in terms of the code points alone. One that reaches the end of
  // the text from the target on takes all of it. Otherwise it stops behind a line break,
  // or behind a full stop, question or exclamation mark that a space or a line break
  // follows: the nearest to the target between the target less the overlap and the
  // maximum, the earlier of two. With no such place there it stops at the maximum, and
  // only then does the next chunk repeat the overlap.
  lemma ChunkStopsNearTarget(text: string, cfg: ChunkConfig, chunks: seq<TextChunk>, i: nat)
    requires ValidConfig(cfg) && Valid(text) && IsSplit(text, cfg, chunks) && i < |chunks|
    ensures
      var runes, start, end := Runes(text), chunks[i].start, chunks[i].end;
      var goal := start + cfg.target;
      var low := if cfg.overlap < cfg.target then goal - cfg.overlap else start + 1;
      var high := if start + cfg.max < |runes| then start + cfg.max else |runes|;
      if goal >= |runes| then
        end == |runes|
      else if exists cp :: low <= cp <= high && cp < |runes| && StopsAt(runes, cp) then
        && low <= end <= high && end < |runes| && StopsAt(runes, end)
        && (forall cp :: low <= cp <= high && cp < |runes| && StopsAt(runes, cp) ==>
              var near := if end < goal then goal - end else end - goal;
              var far := if cp < goal then goal - cp else cp - goal;
              near < far || (near == far && end <= cp))
        && i < |chunks| - 1 && chunks[i + 1].start == end
      else
        && end == high
        && (end < |runes| ==> i < |chunks| - 1 && chunks[i + 1].start == end - cfg.overlap)
    ensures chunks[0].start == 0
  {
    var runes, start, end := Runes(text), chunks[i].start, chunks[i].end;
    var safe := EndsSomehow(text, cfg, chunks, i);
    assert ChunkOf(text, cfg, chunks[i]);
    forall cp ensures Candidate(runes, start, cfg, cp) <==>
      && SearchLow(start, cfg) <= cp <= SearchHigh(|runes|, start, cfg) && cp < |runes| && StopsAt(runes, cp)
    {
    }
    if i < |chunks| - 1 {
      assert Follows(runes, cfg, chunks[i], chunks[i + 1]);
      if ChunkEnds(runes, start, cfg, end, true) && ChunkEnds(runes, start, cfg, end, false) {
        OneEnd(runes, start, cfg, end, true, end, false);
      }
    }
  }

  // Behind a line break (10), or behind `.`, `?` or `!` (46, 63, 33) in front of a
  // space (32) or a line break.
  predicate StopsAt(runes: seq<int>, cp: int)
    requires cp < |runes|
  {
    && 0 < cp
    && (runes[cp - 1] == 10 || (runes[cp - 1] in {46, 63, 33} && runes[cp] in {32, 10}))
  }
}
