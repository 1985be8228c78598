/** Detections: from code points of a chunk to bytes of the text, and the checks on
    the way. `Pipeline` puts them together. */
module Masking {
  import opened Wrappers
  import opened Pii
  import opened Resolution
  import opened Chunker
  import opened Utf8

  // ----- entity types

  datatype NamedType =
    | FullName | BirthDate | BirthPlace | Passport | Citizenship | PassportIssuer
    | DepartmentCode | PassportIssueDate | DriverLicense | Address | Email | Phone | Inn
    | CardNumber | Cvv | Pin | CardholderName | Country | Region | District | City
    | Street | House | Apartment | PostalCode

  // A type the engine names, or any other string.
  datatype EntityType = Named(named: NamedType) | OtherType

  const ML_TYPES: seq<(string, NamedType)> := [
    ("full_name", FullName), ("first_name", FullName), ("last_name", FullName),
    ("patronymic", FullName), ("address", Address), ("city", City), ("street", Street),
    ("house", House), ("apartment", Apartment), ("postal_code", PostalCode),
    ("postcode", PostalCode), ("country", Country), ("region", Region),
    ("district", District), ("place_of_birth", BirthPlace), ("citizenship", Citizenship),
    ("passport_issuer", PassportIssuer), ("cardholder_name", CardholderName),
    ("email", Email), ("phone", Phone), ("inn", Inn), ("passport", Passport),
    ("department_code", DepartmentCode), ("driver_license", DriverLicense), ("cvv", Cvv),
    ("pin", Pin), ("card", CardNumber), ("date", BirthDate), ("date_of_birth", BirthDate),
    ("passport_issue_date", PassportIssueDate)
  ]

  function TypeIn(table: seq<(string, NamedType)>, t: string): Option<NamedType> {
    if table == [] then None
    else if table[0].0 == t then Some(table[0].1)
    else TypeIn(table[1..], t)
  }

  // `mapMLType`.
  function MapMLType(t: string): Option<NamedType> {
    TypeIn(ML_TYPES, t)
  }

  function KindOf(t: NamedType): string {
    match t
    case FullName => "full_name"
    case BirthDate => "date"
    case PassportIssueDate => "date"
    case BirthPlace => "place_of_birth"
    case Passport => "passport"
    case Citizenship => "citizenship"
    case PassportIssuer => "passport_issuer"
    case DepartmentCode => "department_code"
    case DriverLicense => "driver_license"
    case Address => "address"
    case City => "city"
    case Street => "street"
    case House => "house"
    case Apartment => "apartment"
    case PostalCode => "postal_code"
    case Country => "country"
    case Region => "region"
    case District => "district"
    case Email => "email"
    case Phone => "phone"
    case Inn => "inn"
    case CardNumber => "card"
    case Cvv => "cvv"
    case Pin => "pin"
    case CardholderName => "cardholder_name"
  }

  // `mapEntityType`.
  function MapEntityType(t: EntityType): Option<string> {
    match t
    case Named(n) => Some(KindOf(n))
    case OtherType => None
  }

  lemma EntityKindsAreKnown(t: NamedType)
    ensures IsKnownKind(KindOf(t))
  {
    var kind := KindOf(t);
    match t {
      case FullName => assert kind == WHOLE_KINDS[0];
      case Address => assert kind == WHOLE_KINDS[1];
      case BirthDate => assert kind == CHECKED_KINDS[6];
      case PassportIssueDate => assert kind == CHECKED_KINDS[6];
      case Passport => assert kind == CHECKED_KINDS[4];
      case DepartmentCode => assert kind == CHECKED_KINDS[5];
      case DriverLicense => assert kind == CHECKED_KINDS[7];
      case PostalCode => assert kind == CHECKED_KINDS[10];
      case Email => assert kind == CHECKED_KINDS[1];
      case Phone => assert kind == CHECKED_KINDS[0];
      case Inn => assert kind == CHECKED_KINDS[2];
      case CardNumber => assert kind == CHECKED_KINDS[3];
      case Cvv => assert kind == CHECKED_KINDS[8];
      case Pin => assert kind == CHECKED_KINDS[9];
      case City => assert kind == PART_KINDS[3];
      case Street => assert kind == PART_KINDS[4];
      case House => assert kind == PART_KINDS[5];
      case Apartment => assert kind == PART_KINDS[6];
      case BirthPlace => assert kind == PART_KINDS[7];
      case Citizenship => assert kind == PART_KINDS[8];
      case PassportIssuer => assert kind == PART_KINDS[9];
      case CardholderName => assert kind == PART_KINDS[10];
      case Country => assert kind == REGION_KINDS[0];
      case Region => assert kind == REGION_KINDS[1];
      case District => assert kind == REGION_KINDS[2];
    }
  }

  // ----- from code points of a chunk to bytes of the text

  datatype MLEntity = MLEntity(typ: string, start: int, end: int, confidence: real)

  // An entity as the engine reports it: byte offsets and the text it stands on.
  datatype Found = Found(typ: EntityType, text: string, start: int, end: int, score: real)

  predicate InRange(count: int, e: MLEntity) {
    MapMLType(e.typ).Some? && 0 <= e.start < e.end <= count
  }

  // `e` stated in bytes.
  function InBytes(text: string, e: MLEntity): Found
    requires Valid(text) && InRange(|Chars(text)|, e)
  {
    FoundAs(text, e, MapMLType(e.typ).value)
  }

  function FoundAs(text: string, e: MLEntity, t: NamedType): Found
    requires Valid(text) && 0 <= e.start < e.end <= |Chars(text)|
  {
    SliceAt(text, e.start, e.end);
    Found(Named(t), text[ByteAt(text, e.start)..ByteAt(text, e.end)],
          ByteAt(text, e.start), ByteAt(text, e.end), e.confidence)
  }

  ghost predicate AllInRange(count: int, es: seq<MLEntity>) {
    forall i :: 0 <= i < |es| ==> InRange(count, es[i])
  }

  // `buildByteOffsets`: the running sum of rune lengths.
  method BuildByteOffsets(text: string) returns (offsets: seq<nat>)
    requires Valid(text)
    ensures offsets == Offsets(text)
  {
    offsets := [];
    var off := 0;
    var runes := Runes(text);
    for k := 0 to |runes|
      invariant off == ByteAt(text, k)
      invariant offsets == Offsets(text)[..k]
    {
      offsets := offsets + [off];
      RuneLenAt(text, k);
      off := off + RuneLen(runes[k]);
    }
    ByteAtEnds(text);
    offsets := offsets + [|text|];
  }

  // The extractor's side of a detection on one chunk.
  method Detect(original: string, entities: seq<MLEntity>) returns (result: Result<seq<Found>, Error>)
    requires Valid(original)
    ensures original == "" ==> result == Ok([])
    ensures original != "" ==> (result.Ok? <==> AllInRange(|Chars(original)|, entities))
    ensures original != "" && result.Ok? ==>
      && |result.value| == |entities|
      && forall i :: 0 <= i < |entities| ==> result.value[i] == InBytes(original, entities[i])
    ensures result.Err? ==> result.error == InvalidMLResponse
  {
    if original == "" {
      return Ok([]);
    }
    var byteOffsets := BuildByteOffsets(original);
    var runes := Runes(original);
    var out: seq<Found> := [];
    for i := 0 to |entities|
      invariant |out| == i
      invariant forall j :: 0 <= j < i ==>
        InRange(|Chars(original)|, entities[j]) && out[j] == InBytes(original, entities[j])
    {
      var one := DetectOne(original, byteOffsets, |runes|, entities[i]);
      if one.Err? {
        return Err(one.error);
      }
      out := out + [one.value];
    }
    return Ok(out);
  }

  method DetectOne(original: string, byteOffsets: seq<nat>, count: nat, me: MLEntity)
    returns (result: Result<Found, Error>)
    requires Valid(original) && byteOffsets == Offsets(original) && count == |Chars(original)|
    ensures result.Ok? <==> InRange(count, me)
    ensures result.Ok? ==> result.value == InBytes(original, me)
    ensures result.Err? ==> result.error == InvalidMLResponse
  {
    var typ := MapMLType(me.typ);
    if typ.None? {
      return Err(InvalidMLResponse);
    }
    if me.start < 0 || me.end > count || me.start >= me.end {
      return Err(InvalidMLResponse);
    }
    SliceAt(original, me.start, me.end);
    var startByte, endByte := byteOffsets[me.start], byteOffsets[me.end];
    return Ok(Found(Named(typ.value), original[startByte..endByte], startByte, endByte, me.confidence));
  }

  // An entity that passes the checks of `processChunk` and `ruleEntitiesToPII`.
  predicate Checks(text: string, f: Found) {
    && MapEntityType(f.typ).Some?
    && ValidSpan(text, f.start, f.end)
    && text[f.start..f.end] == f.text
  }

  function Reported(f: Found, offset: int, source: string): Entity
    requires MapEntityType(f.typ).Some?
  {
    Entity(f.start + offset, f.end + offset, MapEntityType(f.typ).value, source, f.score)
  }

  ghost predicate AllCheck(text: string, found: seq<Found>) {
    forall i :: 0 <= i < |found| ==> Checks(text, found[i])
  }

  // The loop `processChunk` and `ruleEntitiesToPII` share: check, then report with
  // the offset of the text in the whole.
  method CheckAndReport(text: string, found: seq<Found>, offset: int, source: string)
    returns (result: Result<seq<Entity>, Error>)
    ensures result.Ok? <==> AllCheck(text, found)
    ensures result.Ok? ==>
      && |result.value| == |found|
      && forall i :: 0 <= i < |found| ==> result.value[i] == Reported(found[i], offset, source)
    ensures result.Err? ==> result.error == UnknownEntityType || result.error == InvalidSpan
  {
    var out: seq<Entity> := [];
    for i := 0 to |found|
      invariant |out| == i
      invariant forall j :: 0 <= j < i ==>
        Checks(text, found[j]) && out[j] == Reported(found[j], offset, source)
    {
      var en := found[i];
      var kind := MapEntityType(en.typ);
      if kind.None? {
        return Err(UnknownEntityType);
      }
      if en.start < 0 || en.end > |text| || en.start >= en.end {
        return Err(InvalidSpan);
      }
      if !Valid(text[en.start..en.end]) {
        return Err(InvalidSpan);
      }
      if text[en.start..en.end] != en.text {
        return Err(InvalidSpan);
      }
      out := out + [Entity(offset + en.start, offset + en.end, kind.value, source, en.score)];
    }
    return Ok(out);
  }

  // What the extractor returns always passes the checks that follow it.
  lemma DetectionsCheck(text: string, e: MLEntity)
    requires Valid(text) && InRange(|Chars(text)|, e)
    ensures Checks(text, InBytes(text, e))
  {
    SliceAt(text, e.start, e.end);
  }

  // What a detection of type `t` in a chunk says about the whole text.
  function Placed(text: string, c: TextChunk, e: MLEntity, t: NamedType): Entity
    requires Valid(text) && c.start + e.start <= c.start + e.end <= |Chars(text)| && 0 <= e.start
  {
    Entity(ByteAt(text, c.start + e.start), ByteAt(text, c.start + e.end), KindOf(t), SOURCE_ML, e.confidence)
  }

  function Global(text: string, c: TextChunk, e: MLEntity): Entity
    requires Valid(text) && c.start + e.start <= c.start + e.end <= |Chars(text)| && 0 <= e.start
    requires MapMLType(e.typ).Some?
  {
    Placed(text, c, e, MapMLType(e.typ).value)
  }

  lemma ChunkText(text: string, cfg: ChunkConfig, c: TextChunk)
    requires Valid(text) && ChunkOf(text, cfg, c)
    ensures Valid(c.text) && Chars(c.text) == Chars(text)[c.start..c.end]
  {
    SliceAt(text, c.start, c.end);
  }

  lemma OffsetInChunk(text: string, cfg: ChunkConfig, c: TextChunk, k: nat)
    requires Valid(text) && ChunkOf(text, cfg, c) && k <= c.end - c.start
    requires Valid(c.text) && |Chars(c.text)| == c.end - c.start
    ensures c.startByte + ByteAt(c.text, k) == ByteAt(text, c.start + k)
  {
    ChunkText(text, cfg, c);
    ByteAtOfSlice(text, c.start, c.end, k);
  }

  // Byte offsets within a chunk, shifted by the chunk's start, are those of the text.
  lemma DetectionIsGlobal(text: string, cfg: ChunkConfig, c: TextChunk, e: MLEntity)
    requires Valid(text) && ChunkOf(text, cfg, c) && InRange(c.end - c.start, e)
    requires Valid(c.text) && |Chars(c.text)| == c.end - c.start
    ensures MapEntityType(InBytes(c.text, e).typ).Some?
    ensures Reported(InBytes(c.text, e), c.startByte, SOURCE_ML) == Global(text, c, e)
  {
    SpanIsPlaced(text, cfg, c, e, MapMLType(e.typ).value);
  }

  lemma SpanIsPlaced(text: string, cfg: ChunkConfig, c: TextChunk, e: MLEntity, t: NamedType)
    requires Valid(text) && ChunkOf(text, cfg, c) && 0 <= e.start < e.end <= c.end - c.start
    requires Valid(c.text) && |Chars(c.text)| == c.end - c.start
    ensures Reported(FoundAs(c.text, e, t), c.startByte, SOURCE_ML) == Placed(text, c, e, t)
  {
    OffsetInChunk(text, cfg, c, e.start);
    OffsetInChunk(text, cfg, c, e.end);
    FoundIsPlaced(text, c, e, t);
  }

  lemma FoundIsPlaced(text: string, c: TextChunk, e: MLEntity, t: NamedType)
    requires Valid(text) && c.end <= |Chars(text)| && Valid(c.text) && |Chars(c.text)| == c.end - c.start
    requires 0 <= e.start < e.end <= c.end - c.start
    requires c.startByte + ByteAt(c.text, e.start) == ByteAt(text, c.start + e.start)
    requires c.startByte + ByteAt(c.text, e.end) == ByteAt(text, c.start + e.end)
    ensures Reported(FoundAs(c.text, e, t), c.startByte, SOURCE_ML) == Placed(text, c, e, t)
  {
  }

  lemma RunesBetween(text: string, i: nat, j: nat)
    requires Valid(text) && i < j <= |Chars(text)|
    ensures ValidSpan(text, ByteAt(text, i), ByteAt(text, j))
    ensures Runes(text[ByteAt(text, i)..ByteAt(text, j)]) == Runes(text)[i..j]
  {
    RuneSlice(text, i, j);
  }

  // The span of a detection slices exactly the code points the detector meant, and
  // never cuts a sequence.
  lemma GlobalSpan(text: string, c: TextChunk, e: MLEntity, t: NamedType)
    requires Valid(text) && c.start <= c.end <= |Chars(text)| && 0 <= e.start < e.end <= c.end - c.start
    ensures var g := Placed(text, c, e, t);
      && ValidSpan(text, g.start, g.end)
      && Runes(text[g.start..g.end]) == Runes(text)[c.start + e.start..c.start + e.end]
  {
    RunesBetween(text, c.start + e.start, c.start + e.end);
  }

  // ----- the two tables together

  // The kind a detector's type is masked as: the parts of a name count as the name, and
  // what has two names has one kind.
  predicate MaskedAs(t: string, kind: string) {
    kind == if t in {"first_name", "last_name", "patronymic"} then "full_name"
            else if t == "postcode" then "postal_code"
            else if t in {"date_of_birth", "passport_issue_date"} then "date"
            else t
  }

  predicate IsSecondName(t: string) {
    t in {"postcode", "date_of_birth", "passport_issue_date"}
  }

  lemma FirstRows(i: nat)
    requires i < 10
    ensures MaskedAs(ML_TYPES[i].0, KindOf(ML_TYPES[i].1)) && IsKnownKind(ML_TYPES[i].0)
  {
    NameRows(i);
    PlaceRows(i);
  }

  lemma NameRows(i: nat)
    ensures i < 4 ==> MaskedAs(ML_TYPES[i].0, KindOf(ML_TYPES[i].1)) && IsKnownKind(ML_TYPES[i].0)
  {
  }

  lemma PlaceRows(i: nat)
    ensures 4 <= i < 10 ==> MaskedAs(ML_TYPES[i].0, KindOf(ML_TYPES[i].1)) && IsKnownKind(ML_TYPES[i].0)
  {
  }

  lemma MiddleRows(i: nat)
    requires 10 <= i < 18
    ensures MaskedAs(ML_TYPES[i].0, KindOf(ML_TYPES[i].1))
    ensures IsKnownKind(ML_TYPES[i].0) || IsSecondName(ML_TYPES[i].0)
  {
  }

  lemma LastRows(i: nat)
    requires 18 <= i < 30
    ensures MaskedAs(ML_TYPES[i].0, KindOf(ML_TYPES[i].1))
    ensures IsKnownKind(ML_TYPES[i].0) || IsSecondName(ML_TYPES[i].0)
  {
  }

  lemma {:induction false} TypeIsInTable(table: seq<(string, NamedType)>, t: string) returns (i: nat)
    requires TypeIn(table, t).Some?
    ensures i < |table| && table[i].0 == t && table[i].1 == TypeIn(table, t).value
  {
    if table[0].0 == t {
      i := 0;
    } else {
      var j := TypeIsInTable(table[1..], t);
      i := j + 1;
    }
  }

  lemma {:induction false} TypeIsFound(table: seq<(string, NamedType)>, t: string, i: nat)
    requires i < |table| && table[i].0 == t
    ensures TypeIn(table, t).Some?
  {
    if table[0].0 != t {
      TypeIsFound(table[1..], t, i - 1);
    }
  }

  // The rows of the kinds in the extractor's table.
  const CHECKED_ROWS: seq<nat> := [19, 18, 20, 26, 21, 22, 27, 23, 24, 25, 9]
  const PART_ROWS: seq<nat> := [1, 2, 3, 5, 6, 7, 8, 14, 15, 16, 17]

  lemma CheckedKindHasRow(t: string) returns (i: nat)
    requires t in CHECKED_KINDS
    ensures i < |ML_TYPES| && ML_TYPES[i].0 == t
  {
    var k :| 0 <= k < |CHECKED_KINDS| && CHECKED_KINDS[k] == t;
    i := CHECKED_ROWS[k];
  }

  lemma PartKindHasRow(t: string) returns (i: nat)
    requires t in PART_KINDS
    ensures i < |ML_TYPES| && ML_TYPES[i].0 == t
  {
    var k :| 0 <= k < |PART_KINDS| && PART_KINDS[k] == t;
    i := PART_ROWS[k];
    if k < 6 {
      PersonPartRow(k);
    } else {
      OtherPartRow(k);
    }
  }

  lemma PersonPartRow(k: nat)
    requires k < 6
    ensures PART_ROWS[k] < |ML_TYPES| && ML_TYPES[PART_ROWS[k]].0 == PART_KINDS[k]
  {
  }

  lemma OtherPartRow(k: nat)
    requires 6 <= k < |PART_KINDS|
    ensures PART_ROWS[k] < |ML_TYPES| && ML_TYPES[PART_ROWS[k]].0 == PART_KINDS[k]
  {
  }

  lemma OtherKindHasRow(t: string) returns (i: nat)
    requires t in WHOLE_KINDS || t in REGION_KINDS || IsSecondName(t)
    ensures i < |ML_TYPES| && ML_TYPES[i].0 == t
  {
    if t in WHOLE_KINDS {
      i := if t == "full_name" then 0 else 4;
    } else if t in REGION_KINDS {
      i := if t == "country" then 11 else if t == "region" then 12 else 13;
    } else {
      i := if t == "postcode" then 10 else if t == "date_of_birth" then 28 else 29;
    }
  }

  // The types that pass are the known kinds and three second names, and each is masked
  // as its kind.
  lemma DetectedKind(t: string)
    ensures MapMLType(t).Some? <==> IsKnownKind(t) || IsSecondName(t)
    ensures MapMLType(t).Some? ==> MaskedAs(t, KindOf(MapMLType(t).value))
  {
    if MapMLType(t).Some? {
      var i := TypeIsInTable(ML_TYPES, t);
      if i < 10 {
        FirstRows(i);
      } else if i < 18 {
        MiddleRows(i);
      } else {
        LastRows(i);
      }
    } else if IsKnownKind(t) || IsSecondName(t) {
      var i;
      if t in CHECKED_KINDS {
        i := CheckedKindHasRow(t);
      } else if t in PART_KINDS {
        i := PartKindHasRow(t);
      } else {
        i := OtherKindHasRow(t);
      }
      TypeIsFound(ML_TYPES, t, i);
    }
  }
}
