/** The shared vocabulary of the service: kinds, sources, replacements, mappings
    and policies. */
module Pii {

  // The kinds a checked format recognises best.
  const CHECKED_KINDS: seq<string> := [
    "phone", "email", "inn", "card", "passport", "department_code", "date",
    "driver_license", "cvv", "pin", "postal_code"
  ]
  const WHOLE_KINDS: seq<string> := ["full_name", "address"]
  const PART_KINDS: seq<string> := [
    "first_name", "last_name", "patronymic", "city", "street", "house", "apartment",
    "place_of_birth", "citizenship", "passport_issuer", "cardholder_name"
  ]
  const REGION_KINDS: seq<string> := ["country", "region", "district"]

  predicate IsKnownKind(kind: string) {
    kind in CHECKED_KINDS || kind in WHOLE_KINDS || kind in PART_KINDS || kind in REGION_KINDS
  }

  // Lower-case letters and underscores: what every known kind is made of.
  predicate WellFormedKind(kind: string) {
    kind != "" && forall i :: 0 <= i < |kind| ==> 'a' <= kind[i] <= 'z' || kind[i] == '_'
  }

  lemma CheckedKindsAreWellFormed(kind: string)
    requires kind in CHECKED_KINDS
    ensures WellFormedKind(kind)
  {
    var i :| 0 <= i < |CHECKED_KINDS| && CHECKED_KINDS[i] == kind;
  }

  lemma PartKindsAreWellFormed(kind: string)
    requires kind in PART_KINDS
    ensures WellFormedKind(kind)
  {
    var i :| 0 <= i < |PART_KINDS| && PART_KINDS[i] == kind;
  }

  lemma KnownKindsAreWellFormed(kind: string)
    requires IsKnownKind(kind)
    ensures WellFormedKind(kind)
  {
    if kind in CHECKED_KINDS {
      CheckedKindsAreWellFormed(kind);
    } else if kind in PART_KINDS {
      PartKindsAreWellFormed(kind);
    }
  }

  const SOURCE_ML := "ml"
  const SOURCE_REG := "regex"

  function PrimarySource(kind: string): string {
    if kind in CHECKED_KINDS then SOURCE_REG else SOURCE_ML
  }

  function TypePriority(kind: string): int {
    if kind in CHECKED_KINDS || kind in WHOLE_KINDS then 2
    else if kind in PART_KINDS then 1
    else 0
  }

  datatype Error =
    | SessionNotFound
    | ProcessingInProgress
    | DetectorUnavailable
    | InvalidSpan
    | InvalidMLResponse
    | PolicyRejected
    | PayloadIDConflict
    | StoreUnavailable
    | DemaskingDisabled
    | UnknownToken
    | PayloadTooLarge
    | InvalidMaskKind
    | BadConfig
    | UnknownEntityType
    | InvalidText
    | Cancelled

  datatype Entity = Entity(start: int, end: int, kind: string, source: string, confidence: real)

  datatype Replacement = Replacement(
    start: int, end: int, token: string, original: string,
    kind: string, source: string, confidence: real)

  datatype TokenMapping = TokenMapping(
    token: string, original: string, kind: string, source: string, start: int, end: int)

  datatype Policy = Policy(allowedKinds: set<string>, detokenizationAllowed: bool, minConfidence: real)

  predicate Covers(r: Replacement, p: int) {
    r.start <= p < r.end
  }

  predicate SpansOverlap(a: Replacement, b: Replacement) {
    a.start < b.end && b.start < a.end
  }
}
