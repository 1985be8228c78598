# A verified model of the masking proxy

The proxy replaces personal data in a text by tokens such as `<PHONE_1>`, keeps what
each token stands for in a short-lived session, and puts the data back when the text
returns. This project states in Dafny what that machinery does and proves what it is for:

* **Mask and unmask** (`Merge`, `Resolution`, `Tokenising`, `Allocation`, `Apply`,
  `Detokenizer`, `RoundTrip`, `Pipeline`). Overlapping findings are cut so that every byte
  is hidden on behalf of the strongest finding over it, whatever the order of the findings;
  the pieces get tokens that the text does not contain; and detokenizing the masked text
  gives the text back byte for byte, or fails with an unknown token exactly when the text
  itself held something token-shaped in a stretch left unmasked. `MaskedText` says what the
  masked text is in terms of the text, the detections and the policy alone.
* **Chunks and offsets** (`Chunker`, `Masking`, `Normalize`, `Utf8`). The chunks cover the
  text and see every short window whole; offsets in code points of a chunk, in bytes of the
  text and in the normalized text convert into each other without loss.
* **Sessions** (`Store`, `StoreHistory`, `Requests`, `Processor`, `Sessions`, `Service`, `Demasking`,
  `Overwriting`). The
  lazily purged store answers as one that forgets each session at its expiry instant; above it,
  in every interleaving of concurrent requests, one session has one masking winner, a retry gets
  the first answer, and the masked text gets the payload back (`Demasking`); `Sessions` says what
  every later request under an id is answered and for how long, and `Overwriting` when that breaks.
* **The adaptive scheduler** (`Scheduler`, `SchedulerRuns`, `Admission`, `SchedulerRecovery`).
  Reservations are conserved over every run, admission follows from the outstanding tasks, the clock
  and the configuration, and degraded mode ends.
* **Batching** (`Batching`, `BatchingRuns`, `Collecting`, `Transport`, `Delivery`, `OwnAnswers`). Every
  queued job is answered at most once, in arrival order, with the answer to its own text, in batches
  that are handed over at a limit or at the timer and not before.
* **The span resolver** (`Resolver`). The one-pass scan equals the quadratic one.

## How to read it

Loops and objects of the program are methods and classes with loops and fields; each is
proved against a specification (`CombineSpec`, `ApplySpec`, `DetokenizeSpec`, `SplitSpec`,
`Resolved`, `ProcessSpec`, the `Lazy` step of the store, the `Admit` and `Release` steps of
the scheduler, the `Step` of the collector), and the theorems are about the specification. A
specification says what is wanted, not how it is reached: a resolution (`Resolves`) is a
family of disjoint maximal stretches, each won by the least candidate over it, and
`ResolutionIsUnique` proves that this leaves one result.

Where a specification computes, as the step of the scheduler or of the collector does, further
theorems say what comes out in terms of the inputs and of the run alone, without the
specification's own helpers: `MaskedText`, `Admission`, `Collecting`, `Sessions`, `StoreHistory`,
`Merge.PieceComesFromFirst`, `Apply.AppliesExactly`, `Chunker.ChunkStopsNearTarget`,
`Normalize.RunesAreRewritten`, `Resolver.SurvivorIsNoWeaker`, `Delivery.ToldExactly`.

Concurrency is a state machine: a world, the actions it may take, and statements about every
run of them (`IsRun`). Each locked region is one action. Thread pools, timers, cancellations,
the masker's answer and the clock are choices of the environment.

Representation. A Go string is a Dafny `string` with one character a byte; nothing bounds the
characters, which only makes the statements more general. Valid UTF-8 is that of section 4 of
RFC 3629. Confidences, scores, milliseconds and averages are reals. Text positions are
unbounded integers. `sort.Slice` is any sorted permutation: results that do not depend on the
choice are proved not to. `sort.SliceStable` is a function, proved to sort and to be stable.
The hash of a payload is an injective constructor.

Three places where the code does less than one may expect, with the exact condition and an
input:

* Masking that outlives its session can overwrite a later session under the same id. A run
  overwrites somebody's live session exactly when some final update is late, that is, comes after
  its own session expired and while the id is alive again (`Overwriting.OverwriteExactlyWhenLate`);
  `Overwriting.OverwriteHappens` is such a run, for any time to live. The statements about whole
  runs in `Processor` hold for all runs without a late update.
* Detokenizing fails on a text that held foreign token-shaped parts: exactly when one of them
  lies in a stretch left unmasked (`Pipeline.MaskingIsReversible`). The text `<PHONE_1>`, in which
  nothing is found, is one (`Demasking.ForeignTokenIsRefused`).
* The ranges that lead from the normalized text back to the original count a byte outside UTF-8 as
  the three bytes of U+FFFD. The spans that `MapSpan` gives single runes are their true places in
  the original, for all of them, exactly when the original is valid UTF-8
  (`Normalize.SpansAreExactWhenValid`). The text of the one byte FF is an input: its span even
  leaves the text (`Normalize.InvalidTextEscapes`).

Two checks of the code can never fail, and this is proved: the last loop of the response check,
for a chunk without a result (`Transport.AcceptedIsPermutation`), and the branch of
`processBatch` for an id without an answer (`Delivery.LookUpIsDue`). In `isBoundary` the inner
comparison of the position with the text's length is likewise out of reach, because the same
comparison comes first; the model keeps the first one.

`dafny verify dfyconfig.toml` checks everything.

## Model

| member | source | states |
|---|---|---|
| Pipeline.MaskingIsReversible | internal/tokenizer/detokenizer.go:17-62 | detokenizing a masked text with its mappings gives the original text, or an unknown token exactly when the text holds something token-shaped that no accepted entity touches; never a wrong text |
| Pipeline.PipelineRoundTrip | internal/masking/cascade.go:63-164 | whatever the masker returns, detokenizing it gives the text back or an unknown-token error, and always the text when the text holds nothing token-shaped |
| Demasking.MaskedTextComesBack | internal/processor/processor.go:116-178 | in every run, the winner's masked text sent back within the lifetime is answered with the winner's payload, with an unknown token exactly on a stray token, or with a refusal when the policy forbids it; a text in which nothing was masked is a retry |
| Demasking.ForeignTokenIsRefused | internal/tokenizer/detokenizer.go:32-62 | a text that is itself a token and in which nothing is found masks to itself and is refused by the detokenizer |
| Pipeline.MaskingIsOrderIndependent | internal/tokenizer/merge.go:11-56 | masked text and mappings depend only on the set of entities found, not on order, repetition or the detector's list |
| MaskedText.HiddenExactly | internal/tokenizer/merge.go:11-56 | a byte of the text is hidden exactly when some detection over it is of an allowed kind and not below the limit of confidence |
| MaskedText.FirstDetectionHides | internal/tokenizer/merge.go:188-258 | the mapping that hides a byte is cut from the accepted detection that comes first there: rank of the kind, detector preferred for the kind, confidence, length, start, kind and source, in this order |
| MaskedText.MappingsAreExact | internal/tokenizer/apply.go:60-93 | the mappings go left to right without overlap, each with the well-formed bytes it hides and a token absent from the text, and two tokens are one exactly when value and kind are |
| MaskedText.MappingsAreNumbered | internal/tokenizer/allocator.go:24-42 | the number in each token is the first from 1 that is free: every smaller one is in the text or borne by an earlier mapping of the kind |
| MaskedText.MaskedTextIsExact | internal/tokenizer/apply.go:95-120 | the masked text byte by byte: each token stands where its span began, moved by what is in front, and so does every byte that is not hidden; nothing else is in it |
| Pipeline.Mask | internal/masking/cascade.go:63-164 | succeeds exactly when the text is valid UTF-8, the rule entities pass their checks and the detections on the split are in range, so nothing later fails; a success is the pipeline's result (what that hides is `MaskedText.HiddenExactly`), an error that of a failing rule entity, of an invalid text or of a failing chunk |
| Pipeline.MaskEntities | internal/masking/cascade.go:145-163 | plans, combination and splicing succeed exactly when every span is in range, not empty and well-formed UTF-8, and fail only as an invalid span |
| Pipeline.ProcessChunk | internal/masking/cascade.go:168-200 | a chunk's detections are accepted exactly when they are in range, and come out as spans of the whole text |
| Pipeline.DetectAll | internal/masking/cascade.go:85-143 | in whatever order the workers get through the chunks: success exactly when each chunk passes, the detections then in chunk order, and otherwise the error of a failing chunk |
| Pipeline.DetectionsAreValid | internal/masking/cascade.go:168-200 | every detection that passed the entry checks is a valid span of the text with a known kind |
| RoundTrip.MaskThenDetokenize | internal/tokenizer/apply.go:12-120 | masking with the combined plan always succeeds, and detokenizing undoes it or reports a stray token, each exactly when |
| RoundTrip.RestoreUndoesSplice | internal/tokenizer/apply.go:95-120 | the scanner is the inverse of the splice, for any plan with fresh well-shaped tokens |
| RoundTrip.CombinedPlanIsApplicable | internal/tokenizer/apply.go:37-93 | what `CombinePlans` returns passes every check of `ApplyReplacements` |
| Merge.CombinePlans | internal/tokenizer/merge.go:11-56 | the result is the tokenised, text-ordered resolution of the accepted replacements, and hides a byte exactly when a replacement over it is of an allowed kind and not below the limit of confidence; an invalid-span error exactly when some replacement, accepted or not, is unsound |
| Merge.Screen | internal/tokenizer/merge.go:12-36 | the first loop refuses exactly when some replacement is unsound, and otherwise keeps those the policy lets through, in order |
| Merge.CombineIsOrderIndependent | internal/tokenizer/merge.go:11-56 | neither the order of the entries nor which plan holds them changes the result |
| Merge.PlanIsPointwiseCorrect | internal/tokenizer/merge.go:127-186 | a byte is hidden exactly when an accepted span covers it, by a piece with the kind, source and confidence of the candidateLess-least such span |
| Merge.PieceComesFromFirst | internal/tokenizer/merge.go:188-258 | a piece over a byte bears the marks of an accepted span that no other accepted span there precedes, the order written out in kinds, detectors, confidence, length and place |
| Merge.PlanShape | internal/tokenizer/merge.go:127-186 | the pieces are disjoint, in text order, on UTF-8 boundaries with their own bytes as original, and at most 2n - 1 |
| Merge.DedupeNeverMatters | internal/tokenizer/merge.go:68-90 | combining with or without the deduplication gives the same plan |
| Merge.Dedupe | internal/tokenizer/merge.go:68-90 | every dropped replacement has a kept one with its span and kind that comes no later in the candidate order, and nothing is invented |
| Merge.DedupeKeyInjective | internal/tokenizer/merge.go:73 | the printed key determines span and kind, although kind and original may hold colons |
| Merge.ResolveOverlaps | internal/tokenizer/merge.go:127-149 | the selected pieces are the maximal stretches won by each candidate, pairwise disjoint, covering all of them |
| Merge.UncoveredSpans | internal/tokenizer/merge.go:153-186 | exactly the maximal stretches of a candidate that the selected spans leave free, in order |
| CandidateOrder.CandidateLessIsStrictTotal | internal/tokenizer/merge.go:188-226 | candidateLess is asymmetric, transitive, and total on the fields it compares |
| CandidateOrder.PreferenceIsLexicographic | internal/tokenizer/merge.go:188-258 | what not being preceded means, field by field, in the constants of the kinds and detectors |
| CandidateOrder.PickWinnerIsLeast | internal/tokenizer/merge.go:92-121 | of two with one span and kind, pickWinner keeps the one candidateLess puts first |
| Resolution.ResolutionIsUnique | internal/tokenizer/merge.go:127-149 | one family of spans has exactly one resolution in text order |
| Resolution.PieceIsSound | internal/tokenizer/merge.go:140-146 | a fragment cut during resolution never splits a UTF-8 sequence |
| Resolution.PieceCount | internal/tokenizer/merge.go:127-149 | n spans leave at most 2n - 1 pieces |
| TokenBlind.CombineIgnoresTokens | internal/tokenizer/merge.go:45-66 | the tokens the plans came with leave no trace in the combined plan |
| Tokenising.NormalizeTokens | internal/tokenizer/merge.go:58-66 | every piece gets the token one allocator gives it in text order, and nothing else of it changes |
| Tokenising.TokensAreFresh | internal/tokenizer/merge.go:58-66 | no token of a plan occurs in the text |
| Tokenising.TokensMatchValues | internal/tokenizer/merge.go:58-66 | two pieces share a token exactly when they hide the same value of the same kind |
| Allocation.Allocator.Allocate | internal/tokenizer/allocator.go:24-42 | the known token of the pair, or the first free number of the kind recorded for it; counters and mappings change nowhere else |
| Allocation.Allocator.Search | internal/tokenizer/allocator.go:29-38 | the counting loop ends on the first number above the counter whose token is not in the text |
| Allocation.FirstFree | internal/tokenizer/allocator.go:29-38 | there is a first free number, no further than the places of the text that can block one |
| Allocation.SkippingShrinksBlocked | internal/tokenizer/allocator.go:29-38 | each taken number passed over leaves strictly fewer blocking places: the search terminates |
| Allocation.OneNumberPerPlace | internal/tokenizer/allocator.go:33-36 | at one place of a text stands at most one token of a kind, for any kind at all |
| Allocation.AllocatedIsConsistent | internal/tokenizer/allocator.go:24-42 | allocation keeps earlier tokens, returns one absent from the text, and bounds the counter |
| Allocation.TokensAreInjective | internal/tokenizer/allocator.go:24-42 | across all well-formed kinds one token means one kind and one value |
| Tokens.TokenInjective | internal/tokenizer/allocator.go:33-36 | the printed form determines kind and number |
| Tokens.TokenIsShaped | internal/tokenizer/detokenizer.go:66-85 | what the allocator prints, isToken recognises |
| Tokens.TokenSpells | internal/tokenizer/allocator.go:31-34 | a token is the kind in capitals and the number in base ten without a leading zero, between its brackets |
| Tokens.TokenShapedExactly | internal/tokenizer/detokenizer.go:66-85 | the token shape character by character |
| Pii.KnownKindsAreWellFormed | internal/processor/processor.go:200-215 | every known kind is made of lower-case letters and underscores |
| Plan.BuildReplacementPlan | internal/tokenizer/plan.go:12-57 | a plan for exactly the accepted entities in their sorted order with allocated tokens, nothing in it of a kind not allowed or below the limit of confidence; an invalid span exactly when some entity has one |
| Plan.PlanHoldsAccepted | internal/tokenizer/plan.go:12-57 | apart from tokens, the plan holds what the accepted entities ask for and nothing else, with their own bytes |
| Plan.PlanIsExplicit | internal/tokenizer/plan.go:12-57 | an entry for every entity of an allowed kind that is confident enough and for nothing else, by start, of two that start together the longer first |
| Apply.ApplyReplacements | internal/tokenizer/apply.go:12-35 | the splice of the sorted plan and its mappings, or an invalid span exactly when no sorting of the plan can be applied |
| Apply.ValidateReplacements | internal/tokenizer/apply.go:37-58 | true exactly for in-range, UTF-8, token-bearing, pairwise separate replacements that carry their bytes |
| Apply.BuildMappings | internal/tokenizer/apply.go:60-93 | the mappings in order, or an error exactly when a token stands for two values or kinds |
| Apply.BuildMaskedText | internal/tokenizer/apply.go:95-120 | assembling the parts back to front gives the text with each span turned into its token |
| Apply.ApplyIsDeterministic | internal/tokenizer/apply.go:12-35 | how ties are sorted never shows |
| Apply.AppliesExactly | internal/tokenizer/apply.go:12-93 | masking succeeds exactly when every replacement stands in the text with a token, no two overlap and no token stands for two values: comparing neighbours in sorted order misses nothing |
| Apply.MaskingAgainReproduces | internal/processor/processor.go:128-151 | replacements rebuilt from the mappings mask the same text to the same result |
| Detokenizer.Detokenize | internal/tokenizer/detokenizer.go:17-62 | the scan restores known tokens left to right, fails on the first unknown one, and fails on contradictory mappings |
| Detokenizer.BuildTokenMap | internal/tokenizer/detokenizer.go:18-30 | the map holds the first mapping of each token; it is refused exactly when two mappings of a token differ in original or kind |
| Detokenizer.IsToken | internal/tokenizer/detokenizer.go:66-85 | true exactly for capitals and underscores, an underscore, digits |
| Detokenizer.FailsOnUnknown | internal/tokenizer/detokenizer.go:32-62 | the scan fails exactly when some token-shaped part, anywhere in the text, is unknown |
| Detokenizer.RestoreAroundToken | internal/tokenizer/detokenizer.go:32-62 | restoring a + T + b is restoring a, then T's original, then restoring b, even when a ends in an unfinished token |
| Detokenizer.PlainTextStays | internal/tokenizer/detokenizer.go:32-62 | a text with nothing token-shaped is left alone |
| Chunker.SplitText | internal/ml/chunker.go:44-94 | the chunks form a chain of windows over the whole text with their own byte and code-point ranges, or the configuration or text is refused |
| Chunker.FindChunkEnd | internal/ml/chunker.go:112-154 | the rest when it fits; else the boundary nearest the target in the search range, the earlier on ties; else the hard limit |
| Chunker.ChunkStopsNearTarget | internal/ml/chunker.go:112-172 | every chunk of the split ends at the sentence or paragraph end nearest the target in its range, the earlier of two, and the next begins there; only with none there does it end at the maximum and the next repeat the overlap |
| Chunker.RangeOffsets | internal/ml/chunker.go:56-60 | the byte offset of each code point, and the length |
| Chunker.ChunksAdvance | internal/ml/chunker.go:66-91 | starts and ends strictly increase and there is no gap |
| Chunker.SplitIsUnique | internal/ml/chunker.go:44-94 | a text has exactly one split |
| Chunker.ShortWindowsAreWhole | internal/ml/chunker.go:66-91 | every window of at most overlap + 1 code points that straddles no safe cut lies inside one chunk |
| Masking.Detect | internal/ml/extractor.go:30-67 | succeeds exactly when every entity is known and in range, and states each in bytes with its text |
| Masking.BuildByteOffsets | internal/ml/extractor.go:69-78 | running sums of rune lengths are the byte offsets |
| Masking.CheckAndReport | internal/masking/cascade.go:178-228 | accepted exactly when every entity is known, valid and carries its bytes; each is then reported shifted |
| Masking.DetectionsCheck | internal/masking/cascade.go:178-199 | what the extractor returns always passes the checks that follow |
| Masking.DetectionIsGlobal | internal/masking/cascade.go:192-198 | chunk-relative bytes shifted by the chunk's start are the offsets in the text |
| Masking.GlobalSpan | internal/masking/cascade.go:192-198 | a reported span slices exactly the code points meant, on UTF-8 boundaries |
| Masking.EntityKindsAreKnown | internal/masking/cascade.go:231-284 | every mapped entity type has a known kind |
| Masking.DetectedKind | internal/ml/extractor.go:80-135 | the detector's types are exactly the known kinds and three second names, and each is masked as its kind, the parts of a name as the name |
| Utf8.SliceAt | internal/ml/chunker.go:56-91 | code points i..j of a valid text are the bytes from offset to offset, a valid text of exactly those code points |
| Utf8.OverlapEndsOnBoundary | internal/tokenizer/plan.go:59-67 | where one valid slice of a text ends inside another, a code point begins |
| Utf8.ValidIsEncoded | internal/ml/chunker.go:51-61 | a valid text decodes to Unicode scalar values and is their shortest encoding |
| Utf8.EncodedIsValid | internal/ml/chunker.go:51-61 | every list of scalar values has an encoding that is valid and decodes to it |
| Normalize.New | internal/normalize/normalize.go:40-81 | for any bytes: kept runes, their counted byte ranges in the original and their byte offsets in the normalized text |
| Normalize.NormalizedIsWellMapped | internal/normalize/normalize.go:40-81 | normalization yields strictly increasing offsets with each rune's range before the next |
| Normalize.RunesAreRewritten | internal/normalize/normalize.go:40-92 | rune by rune: only a white space behind another is dropped; what stays is in order, a dash as a hyphen, a white space as a space, the rest in lower case |
| Normalize.SpansAreExactWhenValid | internal/normalize/normalize.go:40-114 | for any bytes: the span of every rune of the normalized text is where its rune of the original begins and ends, exactly when the original is valid UTF-8 |
| Normalize.OffsetsAreExactWhenValid | internal/normalize/normalize.go:49-71 | the loop's running byte count, a local variable, ends at the length of the text exactly for valid UTF-8, and beyond it otherwise |
| Normalize.InvalidTextEscapes | internal/normalize/normalize.go:95-114 | for the text of the one byte FF the mapped span leaves the text |
| Normalize.MapSpanInverts | internal/normalize/normalize.go:95-114 | a non-empty normalized range maps to a non-empty original span whose two ends map back to the range |
| Normalize.MapSpanKeepsDisjoint | internal/normalize/normalize.go:95-114 | disjoint ranges map to disjoint spans |
| Normalize.ByteToRuneInvertsRuneToByte | internal/normalize/normalize.go:130-156 | ByteToRune undoes RuneToByte, the end of the text included |
| Normalize.ByteToRune | internal/normalize/normalize.go:130-144 | the binary search returns the rank of the offset |
| Normalize.OriginalToNorm | internal/normalize/normalize.go:161-172 | the binary search returns the rank of the offset |
| Normalize.FirstAtLeast | internal/normalize/normalize.go:130-172 | the loop over lo and hi finds the first offset not below x |
| Resolver.ResolveSorted | internal/resolver/resolver.go:48-73 | the one-pass loop with its active index equals absorbing each span into the first overlapping one of all spans so far |
| Resolver.Resolve | internal/resolver/resolver.go:24-93 | the loops compute the quadratic reference: the candidates above the threshold, stably sorted, absorbed against all resolved ones, reported stably by start |
| Ordering.SliceStableSorts | internal/resolver/resolver.go:34-43 | the stable sort yields a sorted permutation under any strict weak order |
| Ordering.SliceStableIsStable | internal/resolver/resolver.go:34-43 | elements the order does not tell apart keep their order |
| Resolver.ResolveIsDisjoint | internal/resolver/resolver.go:48-92 | for non-empty spans the entities are sorted and pairwise disjoint |
| Resolver.NobodyIsLost | internal/resolver/resolver.go:24-93 | every candidate above the threshold has an entity from a candidate of at least its evidence-then-score rank, linked to it by overlaps |
| Resolver.SurvivorIsNoWeaker | internal/resolver/resolver.go:24-98 | every candidate above the threshold leads through overlapping candidates to one an entity was made of, whose evidence, and then score, is no less, written out in the sources of evidence |
| Resolver.EntitiesAreCandidates | internal/resolver/resolver.go:24-93 | every entity is what a candidate above the threshold says, in order of the starts |
| Resolver.EveryoneIsRepresented | internal/resolver/resolver.go:55-70 | after the scan every candidate is linked to a survivor by overlapping candidates that never get weaker |
| Store.MemoryStore.Get | internal/store/memory.go:25-47 | the lazy step: found, or not found with an expired session dropped |
| Store.MemoryStore.PutIfAbsent | internal/store/memory.go:49-83 | the lazy step: purge when due or full, refuse when still full, add when absent |
| Store.MemoryStore.Update | internal/store/memory.go:85-111 | the lazy step: replace a live session, drop an expired one |
| Store.MemoryStore.Delete | internal/store/memory.go:113-123 | the lazy step: the id is gone |
| Store.MemoryStore.PurgeExpired | internal/store/memory.go:125-131 | in any order of the range loop, exactly the live sessions stay |
| Store.LazyStepIsEager | internal/store/memory.go:25-135 | one operation answers as the eager map does and leaves what it leaves, seen from any later moment |
| Store.LazinessIsInvisible | internal/store/memory.go:25-135 | under a non-decreasing clock all answers are those of a map that drops sessions at their expiry instant |
| Store.RunKeepsBound | internal/store/memory.go:49-83 | the stored count never exceeds the maximum, expired sessions included |
| Store.FullMeansFullOfLive | internal/store/memory.go:49-83 | an insertion is refused exactly when the id is not live and the live sessions alone reach the maximum |
| StoreHistory.AnswersFollowHistory | internal/store/memory.go:25-135 | over every run under a clock that does not go back, each answer from the earlier ones: found exactly when the session last written under the id is not deleted and not run out, refused while one lives, full when as many live as there may be |
| Requests.ApplyMaskKinds | internal/processor/processor.go:184-198 | a request narrows the policy to its kinds; the first kind that is unknown or not allowed decides the error |
| Requests.CanonicalMaskKinds | internal/processor/processor.go:219-232 | the sorted list of the kinds without repetition |
| Requests.CanonicalIsUnique | internal/processor/processor.go:219-232 | two selections have the same canonical list exactly when they are the same set |
| Requests.MaskKindsMatch | internal/processor/processor.go:237-254 | true exactly when session and request select the same set of kinds, no selection being its own case |
| Requests.HandleExisting | internal/processor/processor.go:116-178 | the answer for a session in each status; another payload than the session's is never handed back as it came |
| Requests.RetryReproduces | internal/processor/processor.go:128-151 | a retry rebuilt from the stored mappings gives the first masked text |
| Processor.StepKeepsInv | internal/processor/processor.go:53-113 | every step of every request that is not a late final update keeps the protocol's invariant |
| Processor.AtMostOneWinner | internal/processor/processor.go:72-92 | in every interleaving two claims of one id never live at the same time |
| Processor.ReadyIsFinal | internal/processor/processor.go:94-113 | a READY session stays as it is until it expires |
| Processor.LookFindsWinner | internal/processor/processor.go:53-113 | a look at a live session finds it as its winner left it |
| Processor.RetryGivesFirstResponse | internal/processor/processor.go:116-151 | a retry within the lifetime gets the first response if it selects the same set of kinds, a conflict if not |
| Sessions.RetryWithinLifetime | internal/processor/processor.go:75-151 | a retry earlier than the winner's reading of the clock plus the time to live gets the first response if it selects the same set of kinds, a conflict if not |
| Sessions.ForeignPayloadIsNoRetry | internal/processor/processor.go:153-177 | in every run, another payload under the id of a live ready session is never handed back as it came; it is refused when it holds a known token and demasking is forbidden, else detokenized, and a conflict when that changes nothing |
| Sessions.PlainPayloadConflicts | internal/processor/processor.go:153-177 | for a session of the masker, another payload that holds nothing token-shaped is a conflict, whatever the policy |
| Sessions.LookAtUnready | internal/processor/processor.go:116-126 | while the owner is at work a look is told so; a failed masking is told as an unavailable detector |
| Sessions.LookAtNothing | internal/processor/processor.go:63-69 | with no owner alive under the id a look finds no session |
| Sessions.FinishSettles | internal/processor/processor.go:94-112 | the end of masking within the lifetime stores and answers what the masker said; after it the session is as it was and success is lost |
| Sessions.ClaimIsAnswered | internal/processor/processor.go:86-92 | a claim succeeds exactly when nobody alive owns the id and fewer owners live than the store may hold |
| Overwriting.LateFinishOverwrites | internal/processor/processor.go:94-113 | where no harm is done yet, a final update hits somebody else's live session exactly when its own session has expired and the id is alive again |
| Overwriting.OverwriteExactlyWhenLate | internal/processor/processor.go:94-113 | over every run whatsoever: some live session is overwritten exactly when some final update is late |
| Overwriting.OverwriteHappens | internal/processor/processor.go:94-113 | for any time to live and capacity a run that ends with such an overwrite |
| Overwriting.NeverLateIsRun | internal/processor/processor.go:53-113 | the runs without a late update are exactly those the theorems of the protocol are about |
| Service.Process | internal/processor/processor.go:53-113 | the policy and its narrowing first, with the store untouched when they fail; then answer an existing session, or claim, mask, store and answer |
| Service.OnlyRequestedKindsAreHidden | internal/processor/processor.go:57-66 | a byte is hidden exactly when a detection over it is of a kind both allowed and, if the request names kinds, named, and is confident enough |
| Service.ProcessIsProtocolRun | internal/processor/processor.go:53-113 | the sequential method is one run of the protocol, with the same store and answer |
| Scheduler.AdaptiveScheduler.Submit | ml-service/ml_service/core/adaptive.py:49-104 | the locked region of submit is the admission step, and a place on quality for the reason normal means that the average times the reserved units for each worker and this one is within the budget and the deadline |
| Scheduler.AdaptiveScheduler.Decide | ml-service/ml_service/core/adaptive.py:60-104 | closed, the two mode decisions, the route, the capacity check, the reservation with its route and reason counted |
| Scheduler.AdaptiveScheduler.SwitchMode | ml-service/ml_service/core/adaptive.py:69-77 | recovery first, then degradation |
| Scheduler.AdaptiveScheduler.ChooseRoute | ml-service/ml_service/core/adaptive.py:78-88 | normal, probe, spare quality room, or the fast route with its reason |
| Scheduler.AdaptiveScheduler.Finished | ml-service/ml_service/core/adaptive.py:122-133 | the finally block: reservation back, and after real work the running count, the average and the two sums of milliseconds |
| Scheduler.AdaptiveScheduler.GiveBack | ml-service/ml_service/core/adaptive.py:137-141 | the refund after a pool rejection |
| Scheduler.RecoveryHolds | ml-service/ml_service/core/adaptive.py:69-77 | a submit that recovers is never degraded again by the second decision |
| Scheduler.ModeSwitches | ml-service/ml_service/core/adaptive.py:69-77 | degraded mode starts and ends exactly on its conditions, and the counters tell whether it is on |
| Scheduler.AdmissionIsSound | ml-service/ml_service/core/adaptive.py:60-104 | the route has room and the reason given is true on entry: normal, probe (hold over, quality idle, estimate below the deadline, hold set anew), spare quality, lack of room, lack of budget, or hold in spite of room and budget; the mode afterwards is degraded except for normal |
| Scheduler.ReasonIsExact | ml-service/ml_service/core/adaptive.py:69-88 | no two routes and reasons are true at once, so the one given says exactly what was found |
| Scheduler.RejectedExactlyWhenFull | ml-service/ml_service/core/adaptive.py:89-99 | a submit is refused for capacity exactly when the fast pool is full and quality is full or too slow, and no probe is due |
| SchedulerRuns.StepKeepsInv | ml-service/ml_service/core/adaptive.py:60-141 | every locked region and pool move keeps reservations equal to the outstanding tasks |
| SchedulerRuns.ReservationsAreConserved | ml-service/ml_service/core/adaptive.py:60-141 | over every run, with errors, cancellations and rejections: 0 <= running <= pending <= capacity, pending and units are the count and exact sum over outstanding tasks, degradations minus recoveries is 1 or 0 |
| SchedulerRuns.NothingReservedAfterClose | ml-service/ml_service/core/adaptive.py:157-161 | after close and all submits have returned, nothing is reserved |
| SchedulerRuns.Drive | ml-service/ml_service/core/adaptive.py:53-161 | whatever is done to a new scheduler object, its fields stay within their bounds and count exactly the outstanding tasks |
| SchedulerRuns.Perform | ml-service/ml_service/core/adaptive.py:53-161 | each call on the object is the step of the run |
| SchedulerRuns.HoldIsKept | ml-service/ml_service/core/adaptive.py:69-88 | within an episode each probe and the recovery come at least the hold after its start and after each earlier probe |
| Admission.SubmitSetsMode | ml-service/ml_service/core/adaptive.py:49-82 | in every run, the mode, the hold and the two counters after a submit, from the average, the sum of the outstanding units, the number of outstanding tasks, the clock, the deadline and the configuration |
| Admission.SubmitGetsPlace | ml-service/ml_service/core/adaptive.py:78-104 | in every run, the route and reason a submit gets or its rejection, from the same quantities |
| Admission.SubmitElsewhere | ml-service/ml_service/core/adaptive.py:61-99 | a closed scheduler changes nothing; a fixed backend admits exactly while its pool has room |
| Admission.ReleaseMovesAverage | ml-service/ml_service/core/adaptive.py:122-133 | the end of a task that ran moves the average a fifth of the way to the time for each unit, at least the floor of the route |
| Admission.OthersKeepAverage | ml-service/ml_service/core/adaptive.py:53-141 | averages start as configured and nothing but the end of a task moves them |
| Admission.CountersCount | ml-service/ml_service/core/adaptive.py:108-121 | completed, errors and cancelled count the returns, the returns with an error code and the cancellations |
| SchedulerRecovery.SubmitRecoversOrProbes | ml-service/ml_service/core/adaptive.py:69-88 | at any moment of a run, after the hold on an idle pool, a submit is admitted to quality; it recovers exactly when the estimate meets the target, and probes otherwise |
| SchedulerRecovery.GapShrinks | ml-service/ml_service/core/adaptive.py:129-131 | a sample of at most m shrinks the gap to m to 0.8 of it or less, and no other step moves it |
| SchedulerRecovery.TaskRuns | ml-service/ml_service/core/adaptive.py:105-141 | over any stretch of a run, a quality task that is neither rejected nor cancelled is gone only after a sample was taken |
| SchedulerRecovery.RoundShrinksGap | ml-service/ml_service/core/adaptive.py:69-141 | between two submits that are due, the probe of the first has run and the gap has shrunk to 0.8 of it or less |
| SchedulerRecovery.GapAfterProbes | ml-service/ml_service/core/adaptive.py:129-131 | after i unsuccessful probes the gap is at most the first one, less a fifth i times |
| SchedulerRecovery.DecayedIsPower | ml-service/ml_service/core/adaptive.py:129-131 | less a fifth k times is 0.8 to the power k |
| SchedulerRecovery.RoundsEnough | ml-service/ml_service/core/adaptive.py:129-131 | the least number of shrinkings by a fifth that bring a gap within the slack |
| SchedulerRecovery.CompletedProbeIsARound | ml-service/ml_service/core/adaptive.py:69-141 | a concrete run in which the probe is accepted, runs, completes and is released meets the premises |
| SchedulerRecovery.DegradedIsNotATrap | ml-service/ml_service/core/adaptive.py:69-88 | in any run of the scheduler and its pools, with samples of at most m per unit and m times the units strictly below ratio times budget, one of the first submits after the holds recovers, within logarithmically many probes |
| Batching.ItemQueue.Enqueue | internal/ml/queue.go:43-53 | a caller that is gone or a full queue is refused at once; otherwise the job is last |
| Batching.ItemQueue.Dequeue | internal/ml/queue.go:56-66 | refuses when the context is done on entry; otherwise the oldest job, or the end of the context, or still waiting |
| Batching.BatchCollector.NextBatch | internal/ml/collector.go:39-117 | for every script of arrivals, cancellations and timer firings the loop ends where the step machine leads; a batch is returned only at the timer, at one of the two limits, or when the job put aside does not fit |
| Batching.BatchCollector.FirstJob | internal/ml/collector.go:44-73 | the loop that looks for a first job, refusing others, ends where the step machine leads |
| Batching.BatchCollector.Fill | internal/ml/collector.go:75-116 | the loop that fills the batch ends where the step machine leads, and not before the timer, a limit or a job that does not fit |
| Batching.BatchCollector.Offer | internal/ml/collector.go:85-111 | what the loop does with a job it has taken: refused, joined, or put aside because it does not fit, which closes the batch |
| Batching.BatchCollector.FailBatch | internal/ml/collector.go:121-126 | every job of an abandoned batch is told once |
| BatchingRuns.CollectKeepsOrder | internal/ml/collector.go:39-117 | a collector's step keeps its accepted jobs in order: gone, in the batch, in the slot |
| BatchingRuns.JobsAreConserved | internal/ml/collector.go:39-126 | in every run with any number of workers each queued job is in exactly one of queue, one collector's hands or answered, and never answered twice |
| BatchingRuns.BatchesAreOrderedAndBounded | internal/ml/collector.go:39-117 | a batch handed over is not empty and within both limits, and all that has left the collector, this batch last, left in the order of arrival in the queue |
| Collecting.BatchIsFullForAReason | internal/ml/collector.go:75-116 | in every run a batch that is handed over without the timer has the greatest number of items or of code points, or leaves behind a job that does not fit |
| Collecting.JoinsOrWaits | internal/ml/collector.go:75-111 | what a job does to the batch: it joins, and the batch is full exactly at a limit, or it waits in the slot while the batch goes |
| Collecting.RefusesExactly | internal/ml/collector.go:56-67 | a job is answered out of hand exactly when it is cancelled or larger than any batch |
| Collecting.TimerAndEnd | internal/ml/collector.go:112-126 | the timer hands the batch over as it is, the end of the context fails every job of it |
| BatchingRuns.CollectKeepsArrivalOrder | internal/ml/collector.go:39-117 | with every collector's step the queue stays the latest arrivals and the jobs accepted stay a subsequence of those that left it |
| OwnAnswers.OneAnswer | internal/ml/batcher.go:123-174 | in every run, with the texts of the jobs and the replies put in, a job is sent at most one answer, by one action, and the reply determines it |
| OwnAnswers.AnsweredWasSent | internal/ml/collector.go:39-126 | every job counted as answered was sent an answer |
| OwnAnswers.AnswerIsOwn | internal/ml/batcher.go:123-174 | in every run a result that a job is sent answers the job's own text, bears the caller's own id, and holds only entities the extractor accepts for that text |
| OwnAnswers.BatchIDsDiffer | internal/ml/batcher.go:124 | no two batches of a run go by one id |
| Transport.FromGRPCResponse | internal/ml/grpc_client.go:107-206 | accepted exactly when ids, counts, codes, types, confidences and spans are right, against the code points of any text; the results then follow the response |
| Transport.CheckResults | internal/ml/grpc_client.go:137-196 | all results right and no id twice, exactly |
| Transport.AcceptedIsPermutation | internal/ml/grpc_client.go:198-203 | by pigeonhole an accepted response answers every requested chunk, so the last check cannot fail |
| Delivery.Batcher.ProcessBatch | internal/ml/batcher.go:123-174 | every job's empty channel gets one result: the transport error, the refusal of the response, or the answer to its own text under its own id |
| Delivery.TransportIDsDiffer | internal/ml/batcher.go:130-143 | the ids on the wire differ, also when callers' chunk ids coincide |
| Delivery.LookUpIsDue | internal/ml/batcher.go:155-173 | the look-up by id always finds the answer to the job's own text; the branch for a missing one is dead |
| Delivery.OneResultIsDue | internal/ml/batcher.go:155-173 | what a job gets is determined by the reply |
| Delivery.ToldExactly | internal/ml/grpc_client.go:107-206 | what a job is told in terms of the reply: the failure of the call; an invalid response exactly when some id, count, code, type, confidence or span of it is wrong; an unavailable detector; or the entities found in its own text, unchanged |
| Delivery.OrderOfAnswersIsIrrelevant | internal/ml/batcher.go:155-173 | in whatever order the answers come, every job gets the same |
| Delivery.WireTypesAreKnown | internal/ml/extractor.go:80-135 | every entity type the response may carry is one the extractor maps |
| Delivery.DeliveredIsDetectable | internal/ml/extractor.go:41-64 | what a job is handed passes the extractor's entry checks against the caller's own text |

## Left out

- HTTP, authentication, configuration loading, logging, metrics, server lifecycle and generated protobuf code: plumbing.
- Recognizers, dictionaries, context scoring, model inference: their findings are arbitrary inputs here.
- Residual masking, the rule-only masker, checksums, the token bucket and the evaluation tools: self-contained.
- Cancellation of a caller's context inside pure loops: it only turns a result into an error; where it changes state (the collector, the processor, the scheduler) it is a step.
- Rounding and non-numbers in confidences and averages: reals stand for floats, so the laws hold up to rounding.
- Wrap-around of the batch counter after 2^64 batches, and of 64-bit positions.
- SHA-256 collisions: the digest is injective.
- Normalize.New: the classification of white space and the lower-casing are parameters.
- Transport.FromGRPCResponse: the messages of its errors, all of one kind, are not told apart.
- Pipeline.DetectAll: the detector is a function of the chunk; a detection that fails only because an earlier failure cancelled it is not modelled, and its error is dropped in the code too.
- Pipeline.PipelineRoundTrip: the rule entities and the detector are parameters, and the exact condition of the error is the one of `Pipeline.MaskingIsReversible`.
- Tokens.TokenIsShaped: upper-casing is that of ASCII letters, which is all that known kinds hold.
- Delivery.Batcher.ProcessBatch: the timeout of the remote call is one of the errors it may come back with.
- The waiting of `Batcher.Process` for its result, and the order in which several workers take jobs from the queue: any order is a run.
- `snapshot` of the scheduler: it copies fields.
- `TakeBatch` and the first version of the batch call: they repeat what is modelled with less in it.
