/** One batch from the jobs to their answers: the ids on the wire, the reply, and the
    one result each job gets. */
module Delivery {
  import opened Wrappers
  import opened Pii
  import opened Tokens
  import opened Masking
  import opened Transport
  import Utf8

  type JobResult = Result<ChunkResult, Error>

  // What the remote call comes back with: a transport error, or a response (or none).
  type Reply = Result<Option<WireResponse>, Error>

  // ----- ids on the wire

  function BatchID(n: nat): string {
    "batch-" + Decimal(n)
  }

  function TransportID(batchID: string, i: nat): string {
    batchID + "-" + Decimal(i)
  }

  lemma TransportIDsDiffer(batchID: string, i: nat, j: nat)
    requires i != j
    ensures TransportID(batchID, i) != TransportID(batchID, j)
  {
    if TransportID(batchID, i) == TransportID(batchID, j) {
      var n := |batchID| + 1;
      assert Decimal(i) == TransportID(batchID, i)[n..] == TransportID(batchID, j)[n..] == Decimal(j);
      DecimalInjective(i, j);
    }
  }

  // The batch as it is sent: every text under an id of its own.
  function Sent(batchID: string, batch: seq<Item>): (items: seq<Item>)
    ensures |items| == |batch|
  {
    seq(|batch|, i requires 0 <= i < |batch| => Item(TransportID(batchID, i), batch[i].text))
  }

  lemma {:induction false} LengthOf(items: seq<Item>, i: nat)
    requires i < |items|
    requires forall j :: 0 <= j < |items| && j != i ==> items[j].chunkID != items[i].chunkID
    ensures items[i].chunkID in Lengths(items)
    ensures Lengths(items)[items[i].chunkID] == CodePoints(items[i].text)
  {
    var n := |items| - 1;
    if i < n {
      LengthOf(items[..n], i);
    }
  }

  // ----- who gets what

  // What a job is told of the answer to its own text.
  function Received(item: Item, w: WireResult): JobResult
    requires w.errorCode == ERROR_NONE ==>
      forall i :: 0 <= i < |w.entities| ==> EntityOk(CodePoints(item.text), w.entities[i])
  {
    if w.errorCode != ERROR_NONE then Err(DetectorUnavailable)
    else Ok(ChunkResult(item.chunkID, "", ToEntities(CodePoints(item.text), w.entities)))
  }

  // `d` is what job `i` is told of the answer in place `k`.
  ghost predicate OwnAnswer(batchID: string, batch: seq<Item>, rs: seq<Option<WireResult>>, i: nat, k: nat,
                            d: JobResult)
    requires i < |batch|
  {
    && Answers(rs, k, TransportID(batchID, i))
    && (rs[k].value.errorCode == ERROR_NONE ==>
          forall e :: 0 <= e < |rs[k].value.entities| ==> EntityOk(CodePoints(batch[i].text), rs[k].value.entities[e]))
    && d == Received(batch[i], rs[k].value)
  }

  // The result job `i` has to get.
  ghost predicate Delivers(batchID: string, batch: seq<Item>, reply: Reply, i: nat, d: JobResult)
    requires i < |batch|
  {
    match reply
    case Err(e) => d == Err(e)
    case Ok(resp) =>
      if Acceptable(batchID, Sent(batchID, batch), resp)
      then exists k :: 0 <= k < |batch| && OwnAnswer(batchID, batch, resp.value.results, i, k, d)
      else d == Err(InvalidMLResponse)
  }

  // What a job is told of a checked result.
  function Told(item: Item, r: ChunkResult): JobResult {
    if r.errorCode != "" then Err(DetectorUnavailable) else Ok(r.(chunkID := item.chunkID))
  }

  lemma ErrorNamesAreNotEmpty(code: int)
    requires 0 <= code < |ERROR_NAMES|
    ensures ERROR_NAMES[code] != ""
  {
  }

  lemma OwnLength(batchID: string, batch: seq<Item>, i: nat)
    requires i < |batch|
    ensures var id := TransportID(batchID, i);
      id in Lengths(Sent(batchID, batch)) && Lengths(Sent(batchID, batch))[id] == CodePoints(batch[i].text)
  {
    var items := Sent(batchID, batch);
    forall j | 0 <= j < |items| && j != i ensures items[j].chunkID != items[i].chunkID {
      TransportIDsDiffer(batchID, i, j);
    }
    LengthOf(items, i);
  }

  // The checked result under the id of job `i` is the answer to the text of job `i`.
  lemma CheckedIsOwn(batchID: string, batch: seq<Item>, rs: seq<Option<WireResult>>, i: nat, k: nat)
    requires i < |batch| && Answers(rs, k, TransportID(batchID, i))
    requires ResultOk(Lengths(Sent(batchID, batch)), rs[k])
    ensures OwnAnswer(batchID, batch, rs, i, k, Told(batch[i], ToResult(Lengths(Sent(batchID, batch)), rs[k])))
  {
    OwnLength(batchID, batch, i);
    ErrorNamesAreNotEmpty(rs[k].value.errorCode);
  }

  lemma EachIsAnswered(batchID: string, batch: seq<Item>, resp: Option<WireResponse>, i: nat) returns (k: nat)
    requires i < |batch| && Acceptable(batchID, Sent(batchID, batch), resp)
    ensures k < |batch| && Answers(resp.value.results, k, TransportID(batchID, i))
  {
    AcceptedIsPermutation(batchID, Sent(batchID, batch), resp);
    assert Sent(batchID, batch)[i].chunkID == TransportID(batchID, i);
    k :| 0 <= k < |resp.value.results| && Answers(resp.value.results, k, TransportID(batchID, i));
  }

  // One answer under the id of job `i`, so one result that is due.
  lemma OneResultIsDue(batchID: string, batch: seq<Item>, reply: Reply, i: nat, d: JobResult, e: JobResult)
    requires i < |batch|
    requires Delivers(batchID, batch, reply, i, d) && Delivers(batchID, batch, reply, i, e)
    ensures d == e
  {
    if reply.Ok? && Acceptable(batchID, Sent(batchID, batch), reply.value) {
      var rs := reply.value.value.results;
      var k :| 0 <= k < |batch| && OwnAnswer(batchID, batch, rs, i, k, d);
      var m :| 0 <= m < |batch| && OwnAnswer(batchID, batch, rs, i, m, e);
      assert k == m by {
        assert rs[k].value.chunkID == rs[m].value.chunkID;
      }
    }
  }

  // `p` lists the places of `rs` in another order.
  ghost predicate Reorders(p: seq<nat>, rs: seq<Option<WireResult>>, other: seq<Option<WireResult>>) {
    && |p| == |rs| == |other|
    && (forall i :: 0 <= i < |p| ==> p[i] < |rs| && other[i] == rs[p[i]])
    && forall i, j :: 0 <= i < j < |p| ==> p[i] != p[j]
  }

  lemma ReorderedIsAcceptable(batchID: string, items: seq<Item>, resp: WireResponse, p: seq<nat>,
                              other: seq<Option<WireResult>>)
    requires Acceptable(batchID, items, Some(resp)) && Reorders(p, resp.results, other)
    ensures Acceptable(batchID, items, Some(resp.(results := other)))
  {
    forall i | 0 <= i < |items| ensures ResultOk(Lengths(items), other[i]) {
      assert other[i] == resp.results[p[i]];
    }
    forall i, j | 0 <= i < j < |other| && other[i].Some? && other[j].Some?
      ensures other[i].value.chunkID != other[j].value.chunkID
    {
      assert other[i] == resp.results[p[i]] && other[j] == resp.results[p[j]];
      assert if p[i] < p[j] then p[i] < p[j] else p[j] < p[i];
    }
  }

  // In whatever order the answers come, each job gets the same result.
  lemma OrderOfAnswersIsIrrelevant(batchID: string, batch: seq<Item>, resp: WireResponse,
                                   p: seq<nat>, other: seq<Option<WireResult>>, i: nat, d: JobResult)
    requires i < |batch| && Acceptable(batchID, Sent(batchID, batch), Some(resp))
    requires Reorders(p, resp.results, other)
    ensures Delivers(batchID, batch, Ok(Some(resp)), i, d) <==>
            Delivers(batchID, batch, Ok(Some(resp.(results := other))), i, d)
  {
    ReorderedIsAcceptable(batchID, Sent(batchID, batch), resp, p, other);
    var k := EachIsAnswered(batchID, batch, Some(resp), i);
    var m := EachIsAnswered(batchID, batch, Some(resp.(results := other)), i);
    assert other[m] == resp.results[p[m]];
    assert p[m] == k by {
      assert resp.results[p[m]].value.chunkID == resp.results[k].value.chunkID;
    }
    CheckedIsOwn(batchID, batch, resp.results, i, k);
    CheckedIsOwn(batchID, batch, other, i, m);
    var due := Told(batch[i], ToResult(Lengths(Sent(batchID, batch)), other[m]));
    if Delivers(batchID, batch, Ok(Some(resp)), i, d) {
      OneResultIsDue(batchID, batch, Ok(Some(resp)), i, d, due);
    }
    if Delivers(batchID, batch, Ok(Some(resp.(results := other))), i, d) {
      OneResultIsDue(batchID, batch, Ok(Some(resp.(results := other))), i, d, due);
    }
  }

  // ----- what the wire accepts, the extractor accepts

  // The row of the extractor's table for each wire type.
  const ROWS: seq<nat> := [
    0, 0, 1, 2, 3, 4, 5, 6, 7, 8, 14, 15, 16, 17, 18, 19, 20, 26, 21, 22, 27, 23, 24, 25, 9, 11,
    12, 13, 28, 29
  ]

  lemma WireTypesAreKnown(typ: int)
    requires 0 < typ < |TYPE_NAMES|
    ensures MapMLType(TYPE_NAMES[typ]).Some?
  {
    assert TYPE_NAMES[typ] == ML_TYPES[ROWS[typ]].0;
    TypeIsFound(ML_TYPES, TYPE_NAMES[typ], ROWS[typ]);
  }

  // A result that a job gets carries the caller's own id, and every entity in it
  // passes the entry checks of the extractor against the caller's own text.
  lemma DeliveredIsDetectable(batchID: string, batch: seq<Item>, reply: Reply, i: nat, d: JobResult)
    requires i < |batch| && Delivers(batchID, batch, reply, i, d) && d.Ok?
    requires Utf8.Valid(batch[i].text)
    ensures d.value.chunkID == batch[i].chunkID
    ensures AllInRange(|Utf8.Chars(batch[i].text)|, d.value.entities)
  {
    var rs := reply.value.value.results;
    var k :| 0 <= k < |batch| && OwnAnswer(batchID, batch, rs, i, k, d);
    Utf8.DecodedIsRunes(batch[i].text);
    forall e | 0 <= e < |d.value.entities|
      ensures InRange(|Utf8.Chars(batch[i].text)|, d.value.entities[e])
    {
      assert EntityOk(CodePoints(batch[i].text), rs[k].value.entities[e]);
      WireTypesAreKnown(rs[k].value.entities[e].value.typ);
    }
  }

  // ----- the batcher

  // A send on a channel with room for one value: on a full channel it would wait.
  method Send(channels: array<Option<JobResult>>, i: nat, r: JobResult)
    requires i < channels.Length && channels[i] == None
    modifies channels
    ensures channels[..] == old(channels[..])[i := Some(r)]
  {
    channels[i] := Some(r);
  }

  // Every result under its own id; of two with one id, the later.
  ghost predicate Indexes(byChunk: map<string, ChunkResult>, results: seq<ChunkResult>) {
    forall k :: 0 <= k < |results| ==>
      results[k].chunkID in byChunk && LastUnder(results, k, byChunk[results[k].chunkID])
  }

  ghost predicate LastUnder(results: seq<ChunkResult>, k: nat, r: ChunkResult)
    requires k < |results|
  {
    exists j :: k <= j < |results| && results[j] == r && results[j].chunkID == results[k].chunkID
  }

  lemma IndexNext(byChunk: map<string, ChunkResult>, results: seq<ChunkResult>, r: ChunkResult)
    requires Indexes(byChunk, results)
    ensures Indexes(byChunk[r.chunkID := r], results + [r])
  {
    var done := results + [r];
    forall k | 0 <= k < |done|
      ensures LastUnder(done, k, byChunk[r.chunkID := r][done[k].chunkID])
    {
      if done[k].chunkID == r.chunkID {
        assert done[|results|] == r;
      } else {
        LastStays(results, r, k, byChunk[done[k].chunkID]);
      }
    }
  }

  lemma LastStays(results: seq<ChunkResult>, r: ChunkResult, k: nat, last: ChunkResult)
    requires k < |results| && LastUnder(results, k, last)
    ensures LastUnder(results + [r], k, last)
  {
    var j :| k <= j < |results| && results[j] == last && results[j].chunkID == results[k].chunkID;
    assert (results + [r])[j] == last;
  }

  method ByChunk(results: seq<ChunkResult>) returns (byChunk: map<string, ChunkResult>)
    ensures Indexes(byChunk, results)
  {
    byChunk := map[];
    for n := 0 to |results|
      invariant Indexes(byChunk, results[..n])
    {
      assert results[..n + 1] == results[..n] + [results[n]];
      IndexNext(byChunk, results[..n], results[n]);
      byChunk := byChunk[results[n].chunkID := results[n]];
    }
    assert results[..|results|] == results;
  }

  // `ProcessBatchV2` of the client: the call, then the checks of the response.
  method Call(batchID: string, items: seq<Item>, reply: Reply) returns (result: Result<seq<ChunkResult>, Error>)
    ensures reply.Err? ==> result == Err(reply.error)
    ensures reply.Ok? ==> (result.Ok? <==> Acceptable(batchID, items, reply.value))
    ensures reply.Ok? && result.Err? ==> result.error == InvalidMLResponse
    ensures result.Ok? ==>
      && |result.value| == |items|
      && forall k :: 0 <= k < |items| ==> result.value[k] == ToResult(Lengths(items), reply.value.value.results[k])
  {
    if reply.Err? {
      return Err(reply.error);
    }
    result := FromGRPCResponse(batchID, items, reply.value);
  }

  // What a job is told when its answer is looked up by id.
  function LookUp(byChunk: map<string, ChunkResult>, id: string, item: Item): JobResult {
    if id !in byChunk then Err(DetectorUnavailable) else Told(item, byChunk[id])
  }

  // When no id comes twice, the index holds every result.
  lemma IndexFinds(byChunk: map<string, ChunkResult>, results: seq<ChunkResult>, k: nat)
    requires k < |results| && Indexes(byChunk, results)
    requires forall j :: k < j < |results| ==> results[j].chunkID != results[k].chunkID
    ensures results[k].chunkID in byChunk && byChunk[results[k].chunkID] == results[k]
  {
    assert LastUnder(results, k, byChunk[results[k].chunkID]);
  }

  lemma CheckedAreDistinct(lengths: map<string, nat>, rs: seq<Option<WireResult>>, results: seq<ChunkResult>, k: nat)
    requires k < |rs| == |results| && DistinctIds(rs)
    requires forall j :: 0 <= j < |rs| ==> ResultOk(lengths, rs[j]) && results[j] == ToResult(lengths, rs[j])
    ensures rs[k].Some? && results[k].chunkID == rs[k].value.chunkID
    ensures forall j :: k < j < |results| ==> results[j].chunkID != results[k].chunkID
  {
    assert ResultOk(lengths, rs[k]);
    forall j | k < j < |results| ensures results[j].chunkID != results[k].chunkID {
      assert ResultOk(lengths, rs[j]);
    }
  }

  // After the checks of the response the look-up always finds the job's own answer.
  lemma LookUpIsDue(batchID: string, batch: seq<Item>, resp: Option<WireResponse>,
                    results: seq<ChunkResult>, byChunk: map<string, ChunkResult>, i: nat)
    requires i < |batch| == |results| && Acceptable(batchID, Sent(batchID, batch), resp)
    requires forall k :: 0 <= k < |batch| ==>
      results[k] == ToResult(Lengths(Sent(batchID, batch)), resp.value.results[k])
    requires Indexes(byChunk, results)
    ensures Delivers(batchID, batch, Ok(resp), i, LookUp(byChunk, TransportID(batchID, i), batch[i]))
  {
    var rs, lengths := resp.value.results, Lengths(Sent(batchID, batch));
    var k := EachIsAnswered(batchID, batch, resp, i);
    CheckedAreDistinct(lengths, rs, results, k);
    IndexFinds(byChunk, results, k);
    CheckedIsOwn(batchID, batch, rs, i, k);
    assert OwnAnswer(batchID, batch, rs, i, k, Told(batch[i], results[k]));
  }

  method SendAll(batch: seq<Item>, transportIDs: seq<string>, byChunk: map<string, ChunkResult>,
                 channels: array<Option<JobResult>>)
    requires |transportIDs| == channels.Length == |batch| && forall i :: 0 <= i < |batch| ==> channels[i] == None
    modifies channels
    ensures forall i :: 0 <= i < |batch| ==> channels[i] == Some(LookUp(byChunk, transportIDs[i], batch[i]))
  {
    for i := 0 to |batch|
      invariant forall j :: 0 <= j < i ==> channels[j] == Some(LookUp(byChunk, transportIDs[j], batch[j]))
      invariant forall j :: i <= j < |batch| ==> channels[j] == None
    {
      if transportIDs[i] !in byChunk {
        Send(channels, i, Err(DetectorUnavailable));
        continue;
      }
      var r := byChunk[transportIDs[i]];
      if r.errorCode != "" {
        Send(channels, i, Err(DetectorUnavailable));
        continue;
      }
      r := r.(chunkID := batch[i].chunkID);
      Send(channels, i, Ok(r));
    }
  }

  method FailAll(error: Error, channels: array<Option<JobResult>>)
    requires forall i :: 0 <= i < channels.Length ==> channels[i] == None
    modifies channels
    ensures forall i :: 0 <= i < channels.Length ==> channels[i] == Some(Err(error))
  {
    for i := 0 to channels.Length
      invariant forall j :: 0 <= j < i ==> channels[j] == Some(Err(error))
      invariant forall j :: i <= j < channels.Length ==> channels[j] == None
    {
      Send(channels, i, Err(error));
    }
  }

  method Request(batchID: string, batch: seq<Item>) returns (transportIDs: seq<string>, items: seq<Item>)
    ensures items == Sent(batchID, batch)
    ensures |transportIDs| == |batch| && forall i :: 0 <= i < |batch| ==> transportIDs[i] == TransportID(batchID, i)
  {
    items := [];
    transportIDs := [];
    for i := 0 to |batch|
      invariant |items| == |transportIDs| == i
      invariant forall j :: 0 <= j < i ==> transportIDs[j] == TransportID(batchID, j)
      invariant forall j :: 0 <= j < i ==> items[j] == Item(TransportID(batchID, j), batch[j].text)
    {
      var transportID := TransportID(batchID, i);
      transportIDs := transportIDs + [transportID];
      items := items + [Item(transportID, batch[i].text)];
    }
  }

  class Batcher {
    var seqNo: nat

    constructor ()
      ensures seqNo == 0
    {
      seqNo := 0;
    }

    // Every job gets exactly one result, the one due to it. `remote` is what the other
    // side does with a batch; the channels of the jobs are empty.
    method ProcessBatch(batch: seq<Item>, remote: (string, seq<Item>) -> Reply, channels: array<Option<JobResult>>)
      requires channels.Length == |batch| && forall i :: 0 <= i < |batch| ==> channels[i] == None
      modifies this, channels
      ensures seqNo == old(seqNo) + 1
      ensures var id := BatchID(seqNo);
        forall i :: 0 <= i < |batch| ==>
          channels[i].Some? && Delivers(id, batch, remote(id, Sent(id, batch)), i, channels[i].value)
    {
      seqNo := seqNo + 1;
      var batchID := BatchID(seqNo);
      var transportIDs, items := Request(batchID, batch);
      var reply := remote(batchID, items);
      var resp := Call(batchID, items, reply);
      if resp.Err? {
        FailAll(resp.error, channels);
        return;
      }
      var byChunk := ByChunk(resp.value);
      SendAll(batch, transportIDs, byChunk, channels);
      forall i | 0 <= i < |batch|
        ensures channels[i].Some? && Delivers(batchID, batch, reply, i, channels[i].value)
      {
        LookUpIsDue(batchID, batch, reply.value, resp.value, byChunk, i);
      }
    }
  }

  // ----- the whole of it, from the reply to the results

  // An entity within the text and within the contract: a type and a confidence.
  predicate RightEntity(text: string, e: Option<WireEntity>) {
    && e.Some? && 1 <= e.value.typ <= 29
    && e.value.confidence.Some? && 0.0 <= e.value.confidence.value <= 1.0
    && 0 <= e.value.start < e.value.end <= |Utf8.Decoded(text)|
  }

  // An answer to text `j` of the batch: an error and no entities, or right entities.
  predicate RightAnswer(batchID: string, batch: seq<Item>, r: Option<WireResult>, j: nat)
    requires j < |batch|
  {
    && r.Some? && r.value.chunkID == batchID + "-" + Decimal(j)
    && (if r.value.errorCode == 1
        then forall e :: 0 <= e < |r.value.entities| ==> RightEntity(batch[j].text, r.value.entities[e])
        else 2 <= r.value.errorCode <= 4 && r.value.entities == [])
  }

  ghost predicate AnswersSome(batchID: string, batch: seq<Item>, r: Option<WireResult>) {
    exists j :: 0 <= j < |batch| && RightAnswer(batchID, batch, r, j)
  }

  // As many as texts, each an answer to some text, and no two under one id.
  ghost predicate RightAnswers(batchID: string, batch: seq<Item>, rs: seq<Option<WireResult>>) {
    && |rs| == |batch|
    && (forall k :: 0 <= k < |rs| ==> AnswersSome(batchID, batch, rs[k]))
    && (forall k, m :: 0 <= k < m < |rs| && rs[k].Some? && rs[m].Some? ==>
          rs[k].value.chunkID != rs[m].value.chunkID)
  }

  lemma ResultIsRight(batchID: string, batch: seq<Item>, r: Option<WireResult>)
    ensures ResultOk(Lengths(Sent(batchID, batch)), r) <==> AnswersSome(batchID, batch, r)
  {
    if ResultOk(Lengths(Sent(batchID, batch)), r) {
      var j :| 0 <= j < |batch| && Sent(batchID, batch)[j].chunkID == r.value.chunkID;
      OwnLength(batchID, batch, j);
      assert RightAnswer(batchID, batch, r, j);
    }
    if j :| 0 <= j < |batch| && RightAnswer(batchID, batch, r, j) {
      OwnLength(batchID, batch, j);
    }
  }

  lemma AcceptableIsRight(batchID: string, batch: seq<Item>, resp: Option<WireResponse>)
    ensures Acceptable(batchID, Sent(batchID, batch), resp) <==>
      && resp.Some? && resp.value.batchID == batchID && resp.value.modelVersion != "" && resp.value.offsetUnit == 1
      && RightAnswers(batchID, batch, resp.value.results)
  {
    if resp.Some? {
      forall k | 0 <= k < |resp.value.results|
        ensures ResultOk(Lengths(Sent(batchID, batch)), resp.value.results[k]) <==>
                  AnswersSome(batchID, batch, resp.value.results[k])
      {
        ResultIsRight(batchID, batch, resp.value.results[k]);
      }
    }
  }

  // What a job is told, in terms of the reply: a failed call is passed on; of a reply
  // that is not right in every part nothing is used; otherwise the job gets the entities
  // found in its own text, as they are, or an unavailable detector.
  lemma ToldExactly(batchID: string, batch: seq<Item>, reply: Reply, i: nat, d: JobResult)
    requires i < |batch| && Delivers(batchID, batch, reply, i, d)
    ensures match reply
      case Err(e) => d == Err(e)
      case Ok(None) => d == Err(InvalidMLResponse)
      case Ok(Some(resp)) =>
        if !(resp.batchID == batchID && resp.modelVersion != "" && resp.offsetUnit == 1
             && RightAnswers(batchID, batch, resp.results))
        then d == Err(InvalidMLResponse)
        else exists k :: 0 <= k < |resp.results| && RightAnswer(batchID, batch, resp.results[k], i)
                         && ToldOf(batch[i], resp.results[k].value, d)
  {
    if reply.Ok? {
      AcceptableIsRight(batchID, batch, reply.value);
      if Acceptable(batchID, Sent(batchID, batch), reply.value) {
        var rs := reply.value.value.results;
        var k :| 0 <= k < |batch| && OwnAnswer(batchID, batch, rs, i, k, d);
        assert ResultOk(Lengths(Sent(batchID, batch)), rs[k]);
        OwnLength(batchID, batch, i);
        assert RightAnswer(batchID, batch, rs[k], i) && ToldOf(batch[i], rs[k].value, d);
      }
    }
  }

  // `d` hands on what `w` says of `item`.
  predicate ToldOf(item: Item, w: WireResult, d: JobResult) {
    if w.errorCode != 1 then d == Err(DetectorUnavailable)
    else
      && d.Ok? && d.value.chunkID == item.chunkID && d.value.errorCode == ""
      && |d.value.entities| == |w.entities|
      && forall e :: 0 <= e < |w.entities| ==>
           && w.entities[e].Some? && 0 <= w.entities[e].value.typ < |TYPE_NAMES|
           && w.entities[e].value.confidence.Some?
           && d.value.entities[e] == MLEntity(TYPE_NAMES[w.entities[e].value.typ], w.entities[e].value.start,
                                              w.entities[e].value.end, w.entities[e].value.confidence.value)
  }
}
