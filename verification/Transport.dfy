/** One batch on the wire: what of a response is accepted, and who gets which result. */
module Transport {
  import opened Wrappers
  import opened Pii
  import opened Sets
  import opened Masking
  import Utf8

  datatype Item = Item(chunkID: string, text: string)

  // The response as it arrives. Anything may be missing; a confidence that is not a
  // number is `None`.
  datatype WireEntity = WireEntity(typ: int, start: int, end: int, confidence: Option<real>)
  datatype WireResult = WireResult(chunkID: string, errorCode: int, entities: seq<Option<WireEntity>>)
  datatype WireResponse = WireResponse(
    batchID: string, modelVersion: string, offsetUnit: int, results: seq<Option<WireResult>>)

  datatype ChunkResult = ChunkResult(chunkID: string, errorCode: string, entities: seq<MLEntity>)

  const OFFSET_UNIT_CODE_POINTS := 1
  const ERROR_NONE := 1
  const ERROR_NAMES: seq<string> := ["UNSPECIFIED", "NONE", "INVALID_TEXT", "TOO_LARGE", "MODEL_ERROR"]
  const TYPE_NAMES: seq<string> := [
    "unspecified", "full_name", "first_name", "last_name", "patronymic", "address", "city",
    "street", "house", "apartment", "place_of_birth", "citizenship", "passport_issuer",
    "cardholder_name", "email", "phone", "inn", "card", "passport", "department_code", "date",
    "driver_license", "cvv", "pin", "postal_code", "country", "region", "district",
    "date_of_birth", "passport_issue_date"
  ]

  // `utf8.RuneCountInString`.
  function CodePoints(text: string): nat {
    |Utf8.Decoded(text)|
  }

  // ----- what is accepted

  // The length of each requested chunk; of two with one id, the later counts.
  function Lengths(items: seq<Item>): (m: map<string, nat>)
    ensures forall id :: id in m <==> exists i :: 0 <= i < |items| && items[i].chunkID == id
  {
    if items == [] then map[]
    else
      var init, last := items[..|items| - 1], items[|items| - 1];
      assert items == init + [last];
      assert forall i :: 0 <= i < |init| ==> init[i] == items[i];
      Lengths(init)[last.chunkID := CodePoints(last.text)]
  }

  predicate EntityOk(length: nat, e: Option<WireEntity>) {
    && e.Some?
    && 0 < e.value.typ < |TYPE_NAMES|
    && e.value.confidence.Some? && 0.0 <= e.value.confidence.value <= 1.0
    && 0 <= e.value.start < e.value.end <= length
  }

  predicate ResultOk(lengths: map<string, nat>, r: Option<WireResult>) {
    && r.Some?
    && r.value.chunkID in lengths
    && 0 < r.value.errorCode < |ERROR_NAMES|
    && if r.value.errorCode != ERROR_NONE then r.value.entities == []
       else forall i :: 0 <= i < |r.value.entities| ==> EntityOk(lengths[r.value.chunkID], r.value.entities[i])
  }

  predicate HeaderOk(batchID: string, count: nat, resp: Option<WireResponse>) {
    && resp.Some?
    && resp.value.batchID == batchID && resp.value.modelVersion != ""
    && resp.value.offsetUnit == OFFSET_UNIT_CODE_POINTS
    && |resp.value.results| == count
  }

  ghost predicate DistinctIds(rs: seq<Option<WireResult>>) {
    forall i, j :: 0 <= i < j < |rs| && rs[i].Some? && rs[j].Some? ==> rs[i].value.chunkID != rs[j].value.chunkID
  }

  ghost predicate Acceptable(batchID: string, items: seq<Item>, resp: Option<WireResponse>) {
    && HeaderOk(batchID, |items|, resp)
    && (forall i :: 0 <= i < |items| ==> ResultOk(Lengths(items), resp.value.results[i]))
    && DistinctIds(resp.value.results)
  }

  function ToEntity(e: WireEntity): MLEntity
    requires 0 < e.typ < |TYPE_NAMES| && e.confidence.Some?
  {
    MLEntity(TYPE_NAMES[e.typ], e.start, e.end, e.confidence.value)
  }

  function ToEntities(length: nat, es: seq<Option<WireEntity>>): (out: seq<MLEntity>)
    requires forall i :: 0 <= i < |es| ==> EntityOk(length, es[i])
    ensures |out| == |es|
  {
    seq(|es|, i requires 0 <= i < |es| && EntityOk(length, es[i]) => ToEntity(es[i].value))
  }

  function ToResult(lengths: map<string, nat>, r: Option<WireResult>): ChunkResult
    requires ResultOk(lengths, r)
  {
    var w := r.value;
    if w.errorCode != ERROR_NONE then ChunkResult(w.chunkID, ERROR_NAMES[w.errorCode], [])
    else ChunkResult(w.chunkID, "", ToEntities(lengths[w.chunkID], w.entities))
  }

  predicate Answers(rs: seq<Option<WireResult>>, k: int, id: string) {
    0 <= k < |rs| && rs[k].Some? && rs[k].value.chunkID == id
  }

  predicate Answered(rs: seq<Option<WireResult>>, id: string) {
    exists k :: 0 <= k < |rs| && Answers(rs, k, id)
  }

  // ----- by pigeonhole, an accepted response answers every chunk once

  function ItemIds(items: seq<Item>): set<string> {
    set i | 0 <= i < |items| :: items[i].chunkID
  }

  function ResultIds(rs: seq<Option<WireResult>>): set<string> {
    set i | 0 <= i < |rs| && rs[i].Some? :: rs[i].value.chunkID
  }

  lemma {:induction false} ItemIdsSize(items: seq<Item>)
    ensures |ItemIds(items)| <= |items|
    ensures |ItemIds(items)| == |items| ==>
      forall i, j :: 0 <= i < j < |items| ==> items[i].chunkID != items[j].chunkID
  {
    if items != [] {
      var n := |items| - 1;
      var init, id := items[..n], items[n].chunkID;
      ItemIdsSize(init);
      assert ItemIds(items) == ItemIds(init) + {id} by {
        forall x | x in ItemIds(items) ensures x in ItemIds(init) + {id} {
          var i :| 0 <= i < |items| && items[i].chunkID == x;
          assert i < n ==> init[i].chunkID == x;
        }
        forall x | x in ItemIds(init) ensures x in ItemIds(items) {
          var i :| 0 <= i < n && init[i].chunkID == x;
          assert items[i].chunkID == x;
        }
      }
      if |ItemIds(items)| == |items| {
        assert id !in ItemIds(init);
        forall i, j | 0 <= i < j < |items| ensures items[i].chunkID != items[j].chunkID {
          assert init[i].chunkID in ItemIds(init);
          if j < n {
            assert init[j].chunkID == items[j].chunkID;
          }
        }
      }
    }
  }

  lemma ResultIdsSnoc(init: seq<Option<WireResult>>, r: Option<WireResult>)
    requires r.Some?
    ensures ResultIds(init + [r]) == ResultIds(init) + {r.value.chunkID}
  {
    var rs := init + [r];
    forall x | x in ResultIds(rs) ensures x in ResultIds(init) + {r.value.chunkID} {
      var i :| 0 <= i < |rs| && rs[i].Some? && rs[i].value.chunkID == x;
      assert i < |init| ==> init[i].value.chunkID == x;
    }
    assert rs[|init|] == r;
    forall x | x in ResultIds(init) ensures x in ResultIds(rs) {
      var i :| 0 <= i < |init| && init[i].Some? && init[i].value.chunkID == x;
      assert rs[i].value.chunkID == x;
    }
  }

  lemma {:induction false} ResultIdsSize(rs: seq<Option<WireResult>>)
    requires DistinctIds(rs) && forall i :: 0 <= i < |rs| ==> rs[i].Some?
    ensures |ResultIds(rs)| == |rs|
  {
    if rs != [] {
      var n := |rs| - 1;
      ResultIdsSize(rs[..n]);
      ResultIdsSnoc(rs[..n], rs[n]);
      assert rs == rs[..n] + [rs[n]];
      assert forall i :: 0 <= i < n ==> rs[..n][i].value.chunkID != rs[n].value.chunkID;
    }
  }

  lemma {:induction false} SameSizeSubset<T>(a: set<T>, b: set<T>)
    requires a <= b && |a| >= |b|
    ensures a == b
  {
    if b - a != {} {
      var x := Member(b - a);
      SubsetSize(a, b - {x});
    }
    assert b == a + (b - a);
  }

  // Distinct known ids, as many as there were chunks: each chunk has its result, and
  // the chunks' own ids were distinct.
  lemma AcceptedIsPermutation(batchID: string, items: seq<Item>, resp: Option<WireResponse>)
    requires Acceptable(batchID, items, resp)
    ensures ResultIds(resp.value.results) == ItemIds(items)
    ensures forall i, j :: 0 <= i < j < |items| ==> items[i].chunkID != items[j].chunkID
    ensures forall i :: 0 <= i < |items| ==> Answered(resp.value.results, items[i].chunkID)
  {
    var rs := resp.value.results;
    forall i | 0 <= i < |rs| ensures rs[i].Some? {
      assert ResultOk(Lengths(items), rs[i]);
    }
    ResultIdsSize(rs);
    ItemIdsSize(items);
    forall x | x in ResultIds(rs) ensures x in ItemIds(items) {
      var k :| 0 <= k < |rs| && rs[k].Some? && rs[k].value.chunkID == x;
      assert ResultOk(Lengths(items), rs[k]);
    }
    SameSizeSubset(ResultIds(rs), ItemIds(items));
    forall i | 0 <= i < |items| ensures Answered(rs, items[i].chunkID) {
      assert items[i].chunkID in ItemIds(items);
      var k :| 0 <= k < |rs| && rs[k].Some? && rs[k].value.chunkID == items[i].chunkID;
      assert Answers(rs, k, items[i].chunkID);
    }
  }

  // ----- checking a response

  method CheckEntities(length: nat, es: seq<Option<WireEntity>>) returns (out: Option<seq<MLEntity>>)
    ensures out.Some? <==> forall i :: 0 <= i < |es| ==> EntityOk(length, es[i])
    ensures out.Some? ==> out.value == ToEntities(length, es)
  {
    var entities: seq<MLEntity> := [];
    for i := 0 to |es|
      invariant forall j :: 0 <= j < i ==> EntityOk(length, es[j])
      invariant |entities| == i && forall j :: 0 <= j < i ==> entities[j] == ToEntity(es[j].value)
    {
      if es[i].None? {
        return None;
      }
      var e := es[i].value;
      if e.typ <= 0 || e.typ >= |TYPE_NAMES| {
        return None;
      }
      if e.confidence.None? || e.confidence.value < 0.0 || e.confidence.value > 1.0 {
        return None;
      }
      if e.start < 0 || e.end <= e.start || e.end > length {
        return None;
      }
      entities := entities + [ToEntity(e)];
    }
    return Some(entities);
  }

  // One result, the ids seen before it, and the lengths of the chunks.
  method CheckResult(seen: set<string>, lengths: map<string, nat>,
                     r: Option<WireResult>) returns (out: Option<ChunkResult>)
    ensures out.Some? <==> ResultOk(lengths, r) && r.value.chunkID !in seen
    ensures out.Some? ==> out.value == ToResult(lengths, r)
  {
    if r.None? {
      return None;
    }
    var w := r.value;
    if w.chunkID in seen {
      return None;
    }
    if w.chunkID !in lengths {
      return None;
    }
    if w.errorCode <= 0 || w.errorCode >= |ERROR_NAMES| {
      return None;
    }
    if w.errorCode != ERROR_NONE {
      if |w.entities| != 0 {
        return None;
      }
      return Some(ChunkResult(w.chunkID, ERROR_NAMES[w.errorCode], []));
    }
    var entities := CheckEntities(lengths[w.chunkID], w.entities);
    if entities.None? {
      return None;
    }
    return Some(ChunkResult(w.chunkID, "", entities.value));
  }

  method ChunkLengths(items: seq<Item>) returns (chunkLen: map<string, nat>)
    ensures chunkLen == Lengths(items)
  {
    chunkLen := map[];
    for i := 0 to |items|
      invariant chunkLen == Lengths(items[..i])
    {
      assert items[..i + 1][..i] == items[..i];
      chunkLen := chunkLen[items[i].chunkID := CodePoints(items[i].text)];
    }
    assert items[..|items|] == items;
  }

  // What is known once `n` results have passed.
  ghost predicate PassedUpTo(lengths: map<string, nat>, rs: seq<Option<WireResult>>, n: nat, seen: set<string>) {
    && n <= |rs|
    && (forall j :: 0 <= j < n ==> ResultOk(lengths, rs[j]) && rs[j].value.chunkID in seen)
    && (forall id :: id in seen ==> exists j :: 0 <= j < n && Answers(rs, j, id))
    && forall j, k :: 0 <= j < k < n ==> rs[j].value.chunkID != rs[k].value.chunkID
  }

  lemma OneMorePassed(lengths: map<string, nat>, rs: seq<Option<WireResult>>, n: nat, seen: set<string>)
    requires PassedUpTo(lengths, rs, n, seen) && n < |rs|
    requires ResultOk(lengths, rs[n]) && rs[n].value.chunkID !in seen
    ensures PassedUpTo(lengths, rs, n + 1, seen + {rs[n].value.chunkID})
  {
    assert Answers(rs, n, rs[n].value.chunkID);
  }

  lemma RepeatedId(lengths: map<string, nat>, rs: seq<Option<WireResult>>, n: nat, seen: set<string>)
    requires PassedUpTo(lengths, rs, n, seen) && n < |rs|
    requires ResultOk(lengths, rs[n]) && rs[n].value.chunkID in seen
    ensures !DistinctIds(rs)
  {
    var j :| 0 <= j < n && Answers(rs, j, rs[n].value.chunkID);
  }

  // All results: each one right, and no id twice.
  method CheckResults(lengths: map<string, nat>, rs: seq<Option<WireResult>>)
    returns (out: Option<seq<ChunkResult>>, seen: set<string>)
    ensures out.Some? <==> (forall i :: 0 <= i < |rs| ==> ResultOk(lengths, rs[i])) && DistinctIds(rs)
    ensures out.Some? ==> |out.value| == |rs| && forall i :: 0 <= i < |rs| ==> out.value[i] == ToResult(lengths, rs[i])
    ensures out.Some? ==> seen == ResultIds(rs)
  {
    seen := {};
    var results: seq<ChunkResult> := [];
    for i := 0 to |rs|
      invariant PassedUpTo(lengths, rs, i, seen)
      invariant |results| == i && forall j :: 0 <= j < i ==> results[j] == ToResult(lengths, rs[j])
    {
      var cr := CheckResult(seen, lengths, rs[i]);
      if cr.None? {
        if ResultOk(lengths, rs[i]) {
          RepeatedId(lengths, rs, i, seen);
        }
        return None, seen;
      }
      OneMorePassed(lengths, rs, i, seen);
      seen := seen + {rs[i].value.chunkID};
      results := results + [cr.value];
    }
    out := Some(results);
  }

  // The response is accepted exactly when it is acceptable: the last check of the
  // loop over the items, for a chunk without a result, can never fail.
  method FromGRPCResponse(batchID: string, items: seq<Item>, resp: Option<WireResponse>)
    returns (result: Result<seq<ChunkResult>, Error>)
    ensures result.Ok? <==> Acceptable(batchID, items, resp)
    ensures result.Ok? ==>
      && |result.value| == |items|
      && forall i :: 0 <= i < |items| ==> result.value[i] == ToResult(Lengths(items), resp.value.results[i])
    ensures result.Err? ==> result.error == InvalidMLResponse
  {
    if !HeaderOk(batchID, |items|, resp) {
      return Err(InvalidMLResponse);
    }
    var chunkLen := ChunkLengths(items);
    var out, seen := CheckResults(chunkLen, resp.value.results);
    if out.None? {
      return Err(InvalidMLResponse);
    }
    AcceptedIsPermutation(batchID, items, resp);
    for i := 0 to |items| {
      assert items[i].chunkID in ItemIds(items);
      if items[i].chunkID !in seen {
        assert false;
      }
    }
    return Ok(out.value);
  }
}
