# Verified models of the image delivery platform

Dafny models of the platform's hardest logic, with proofs. Each module follows
one component; a function gives what the code computes, a method or a step of a
state machine gives how it goes about it, and lemmas say what that promises.

| Component | Modules | What is proved |
|---|---|---|
| Transformation canonicaliser | `Strings`, `Numerals`, `EditDistance`, `Vocabulary`, `Dimensions`, `Canonicalizer`, `Serialization`, `RoundTrips`, `Projection`, `CanonicalShape`, `Equivalence`, `Budget`, `RequestMeaning` | each parameter of the form, each refusal and each ignored name in terms of the texts given and the context; the parsing and partition loops compute the specification; the bounded recogniser decides Levenshtein distance; the canonical string reads back as its parameters, identifies them, and is a fixed point exactly outside two named cases; only the last-wins map of expanded parameters matters; acceptance by size is downward closed |
| Idempotency keys | `IdempotencyTable`, `IdempotencyProtocol` | one request alone behaves as documented, and is an uninterrupted run of the protocol; what each step answers and logs; over every interleaving of any number of processes claims are paid for by deletions; every holder is alone with its row exactly while no held row is deleted as expired, and then answers are faithful and completions that took effect are separated; timely work is enough for all of it |
| Usage metering | `Metering`, `MeteringPipeline` | counts are conserved over every interleaving of records, overlapping flushes, failing enqueues and repeated deliveries, exactly when no enqueue that threw had taken effect; when stopping a recorder empties its memory, exactly |
| Tenant scoping | `Scoped`, `Isolation` | whatever was built, a scoped statement reads, changes or removes exactly the caller's rows that its own filter selects; stamped inserts are accepted; a statement acts inside its scope only; noninterference over runs of statements from many contexts, over one table or many, from a discipline that can be read off the statements; when a foreign row shows in an answer, exactly |
| API keys | `ApiKeys`, `ApiKeyHistory` | over every run, rotations interleaved with anything: what a key issues stays within its grant, the audit log accounts for each key, listed projects were its application's, revocation and expiry are permanent; when a key's history ends with its revocation, exactly |
| Object keys and listing | `ObjectKeys`, `Paging`, `MemoryStorage`, `TreeWalk` | made keys validate, are injective and prefix-exact and do not nest as paths; pages of a changing listing skip nothing that stayed and list nothing twice; a walk below a prefix finds what the whole walk would |
| Directory store | `LocalStore`, `StoreAgreement` | every step of every writer is atomic to readers; an object is never visible without its sidecar; keys the platform makes never block each other; when the store answers any calls as the one in memory does, exactly |
| In-memory trackers | `FailureLimiter`, `LastUsed` | the bounded table keeps its order and bound and agrees with the history of failures; retry-after is honest; no use is lost and `last_used_at` never goes back |

Conventions. A state machine's steps are the atomic statements, renames,
transactions and synchronous stretches of the code; `Enabled` states what the
environment is assumed to keep to (a monotone clock, fresh random ids, one
writer per key), and a run is any sequence of enabled steps. `dafny verify
dfyconfig.toml` checks the whole project.

Findings worth knowing, each with its exact condition and an input:

- Canonicalisation is a fixed point except when a used gravity was left to the
  resolver (its `r:` rectangle is not gravity syntax) or an explicit `rot=0` met
  a source that is not upright (the rotation drops out of the canonical string
  and the source's own comes back): `Projection.CanonicalisationIsAProjection`,
  and for the inputs `CanonicalShape.DeferredGravityIsNotCarried` and
  `CanonicalShape.UprightIsNotCarried`.
- Neither `complete` nor `release` asks who holds the claim. Every holder is
  alone with its row exactly while no delete-expired statement takes the row of
  a slot that is held (`IdempotencyProtocol.ExclusionHoldsExactly`); work that
  finishes before its claim expires is enough, and
  `IdempotencyProtocol.LateWorkBreaksThePromises` is a run in which late work
  leads to two holders and to an answer from another request.
- A completion that took effect though its statement reported an error is
  released, and a retry completes anew with no expiry between: completions are
  separated by an expiry, or by such a release
  (`IdempotencyProtocol.CompletionsAreSeparated`; the run is
  `IdempotencyProtocol.UnacknowledgedCompletionIsRepeated`).
- The scoping plugin does not read SET: an UPDATE is contained exactly when no
  row it selects leaves the scope (`Isolation.UpdateIsContainedExactly`; the
  input is `Isolation.UpdateCanMoveARow`). With a unique column list that lacks
  a scope column another scope's row can show through a refusal, exactly when a
  new or changed row meets it and would not be refused anyway
  (`Isolation.InsertIsAnsweredAloneExactly`,
  `Isolation.UpdateIsAnsweredAloneExactly`; the input is
  `Isolation.UniqueCollisionIsSeen`).
- `rotate` asks for status `active`, not for an expiry still to come, so an
  expired key can be rotated into one that works
  (`ApiKeys.RotationIgnoresExpiry`, `ApiKeys.ExpiredKeyIsRotated`,
  `ApiKeys.SomeExpiredKeyCanBeRotated`). The audit entry's `old_expires_at` is
  the expiry in force exactly when no earlier one was
  (`ApiKeys.RotationRecordsExpiryExactly`, `ApiKeys.SomeEntryOutlastsItsKey`).
- `rotate` reads its key and writes later, and its writes do not ask for the
  status again. A key revoked in between is rotated all the same, into a
  replacement that works; a key's history ends with its revocation exactly when
  no rotation commits on a revoked key
  (`ApiKeyHistory.RevocationEndsItsHistoryExactly`; the run is
  `ApiKeyHistory.RevokedKeyIsRotated`).
- `stop` of the usage recorder awaits its own flush only: it leaves nothing in
  memory, however the run goes on, exactly when no other flush is under way at
  the call (`MeteringPipeline.StopDrainsExactly`; the run is
  `MeteringPipeline.StopReturnsEarly`), and then only an add that throws keeps
  it from emptying (`MeteringPipeline.StopDrainsUnlessAnAddThrows`).
- Directories stay when their objects go, and a file can stand where another key
  needs a directory: the directory store answers as the one in memory exactly
  when no put or delete goes below a key that is stored or above one ever put
  (`StoreAgreement.StoresAgreeExactly`; any two nesting keys are an input, as
  are `a` and `a/b`: `StoreAgreement.NestedKeysDisagree`,
  `StoreAgreement.SomePutsDisagree`). Keys of the platform's scheme never nest.
- A put to the directory store whose body breaks off keeps the old object but
  has already replaced its content type, unseen exactly when there was no object
  or the type is the same (`StoreAgreement.BrokenPutIsHiddenExactly`).

## Model

| member | source | states |
|---|---|---|
| EditDistance.WithinEditsIsReachable | packages/transform-params/src/canonicalize.ts:96-107 | for all strings and every k, the recursion says yes exactly when a script of at most k single-character insertions, deletions and substitutions exists |
| EditDistance.WithinEditsIsDistance | packages/transform-params/src/canonicalize.ts:97-107 | it agrees with the Levenshtein recurrence that skips nothing |
| EditDistance.EqualHeadsAreFree | packages/transform-params/src/canonicalize.ts:101 | skipping an equal first character loses no cheaper script |
| EditDistance.WithinEditsSymmetric | packages/transform-params/src/canonicalize.ts:97-107 | the recogniser is symmetric |
| EditDistance.ShortestScript | packages/transform-params/src/canonicalize.ts:97-107 | a script as long as the distance exists |
| EditDistance.ScriptsCostTheirLength | packages/transform-params/src/canonicalize.ts:97-107 | no script is shorter than the distance |
| Vocabulary.NameIsOwn | packages/transform-params/src/vocabulary.ts:5-47 | a canonical name stands for its own parameter and is neither alias nor dialect key |
| Vocabulary.KnownNamesAreProcessed | packages/transform-params/src/vocabulary.ts:87-91 | the known names are exactly the names the partition step handles |
| Vocabulary.FitRoundTrip | packages/transform-params/src/vocabulary.ts:50-102 | a printed fit value reads back, aliases notwithstanding |
| Vocabulary.ParamOfExactly | packages/transform-params/src/vocabulary.ts:5-47 | a key stands for a parameter if and only if it is its canonical name or one of the aliases listed for it |
| Vocabulary.ExpandExactly | packages/transform-params/src/vocabulary.ts:64-85 | which compatibility pairs make which assignments, and that no other pair makes any |
| Vocabulary.FitExactly | packages/transform-params/src/vocabulary.ts:50-102 | the texts that ask for each fit, canonical and dialect, and no other |
| Vocabulary.ReadsOnlyPrinted | packages/transform-params/src/vocabulary.ts:93-114 | formats, keywords and flips read nothing but their own printed names |
| Numerals.NumeralValue | packages/transform-params/src/canonicalize.ts:133-138 | a printed natural number reads back as itself |
| Numerals.FractionRoundTrip | packages/transform-params/src/canonicalize.ts:140 | four-decimal fractions without trailing zeros read back as themselves |
| Dimensions.RoundIsNearest | packages/transform-params/src/canonicalize.ts:294-300 | rounding is to the nearest integer, half up |
| Dimensions.DerivedIsNearest | packages/transform-params/src/canonicalize.ts:294-300 | the side derived from an aspect ratio is within half a pixel of the exact ratio, or clamped to one pixel |
| Dimensions.DerivedBoxHasRatio | packages/transform-params/src/canonicalize.ts:291-306 | the given side stays and the other stands to it in the requested ratio, width to height, to the nearest pixel |
| Dimensions.OutSizeKeepsProportions | packages/transform-params/src/canonicalize.ts:370-373 | given sides stay and a missing one follows the crop's or the source's proportions, to the nearest pixel |
| Dimensions.SnapLeast | packages/transform-params/src/canonicalize.ts:359-363 | snapping gives the least rung that fits; above the top rung a side is unchanged |
| Dimensions.SnapMonotone | packages/transform-params/src/canonicalize.ts:359-363 | a larger side never snaps to a smaller one |
| Dimensions.SnapIdempotent | packages/transform-params/src/canonicalize.ts:359-363 | snapping twice is snapping once |
| Dimensions.SnapInRange | packages/transform-params/src/canonicalize.ts:359-365 | a snapped side stays within the largest dimension |
| Dimensions.BudgetMonotone | packages/transform-params/src/canonicalize.ts:369-377 | no larger sides and dpr stay within a budget that larger ones kept, also when one side is derived by rounding |
| Canonicalizer.ParsePairs | packages/transform-params/src/canonicalize.ts:147-160 | the parsing loop gives the pairs of the query, or the first undecodable value of a known name |
| Canonicalizer.Partition | packages/transform-params/src/canonicalize.ts:162-182 | the partition loop gives the last-wins assignments and the ignored names, or the first refused pair |
| Canonicalizer.Canonicalize | packages/transform-params/src/canonicalize.ts:146-397 | the whole algorithm, loops included, is the specification function the theorems below are about |
| Canonicalizer.PairsStopAtFirst | packages/transform-params/src/canonicalize.ts:149-160 | the first failing part decides, whatever follows |
| Canonicalizer.AdmitStopsAtFirst | packages/transform-params/src/canonicalize.ts:165-182 | the first refused pair decides, whatever follows |
| Serialization.SerializeRoundTrips | packages/transform-params/src/canonicalize.ts:379-381 | the printed string of a map of plain values is processed as exactly that map, each parameter under its own name |
| Serialization.SerializeInjective | packages/transform-params/src/canonicalize.ts:379-381 | equal strings come from equal maps |
| Serialization.NamesAscend | packages/transform-params/src/canonicalize.ts:380 | entries are printed in strictly ascending ASCII order of their names |
| RoundTrips.DprReads | packages/transform-params/src/canonicalize.ts:210-216 | a printed dpr reads back, for every tenth in range |
| RoundTrips.PointReads | packages/transform-params/src/canonicalize.ts:230-231 | a printed gravity point reads back, for every four-decimal point |
| RoundTrips.AreaDoesNotRead | packages/transform-params/src/canonicalize.ts:331-332 | a resolved rectangle is refused as a gravity value |
| RoundTrips.RectReads | packages/transform-params/src/canonicalize.ts:239-248 | a printed crop reads back against the same source |
| RoundTrips.BackgroundReads | packages/transform-params/src/canonicalize.ts:261-268 | a printed colour reads back, for any valid colour table |
| Projection.CanonicalisationIsAProjection | packages/transform-params/src/canonicalize.ts:146-397 | the canonical string canonicalises to the same params, string and hash if and only if no used gravity was deferred and no rot=0 met a source that is not upright |
| Projection.CanonicalStringParsesToParams | packages/transform-params/src/canonicalize.ts:315-381 | for every accepted query the canonical string parses back to exactly its params |
| Projection.CanonicalStringIdentifiesParams | packages/transform-params/src/canonicalize.ts:315-388 | accepted queries share a canonical string only if they share every resolved parameter |
| Projection.ParamsArePlain | packages/transform-params/src/canonicalize.ts:315-367 | no branch emits a value with a separator, a plus sign or a percent sign |
| Projection.ResolveIsGood | packages/transform-params/src/canonicalize.ts:288-377 | what resolution returns is in range, snapped, within budget and settled under the defaults |
| CanonicalShape.AcceptedFormsHaveShape | packages/transform-params/src/canonicalize.ts:315-367 | which parameters a canonical form has is determined by its own format, fit and sides; it has no no-op and no delivery parameter |
| CanonicalShape.EmptyQueryIsUntouched | packages/transform-params/src/canonicalize.ts:315-344 | the empty query is accepted with the negotiated format, its default quality and the source's rotation |
| CanonicalShape.WidthAloneHasDefaults | packages/transform-params/src/canonicalize.ts:322-367 | a width alone spells out fit=scale-down and dpr=1, is snapped, and is refused exactly on the budget |
| CanonicalShape.UprightIsNotCarried | packages/transform-params/src/canonicalize.ts:341-344 | rot=0 on any source that is not upright is accepted and its canonical string gives other params |
| CanonicalShape.DeferredGravityIsNotCarried | packages/transform-params/src/canonicalize.ts:326-332 | w=1, fit=cover, g=auto on a one-pixel source with a resolver is accepted and its canonical string is not |
| Equivalence.NearMissMeaning | packages/transform-params/src/canonicalize.ts:109-123 | a near miss is a known name in another case, or one or two edits from a known name of 3-4 or 5+ characters |
| Equivalence.AdmitIsLastWins | packages/transform-params/src/canonicalize.ts:162-182 | partition keeps the last assignment of each parameter after alias and dialect expansion |
| Equivalence.LastWinsDecides | packages/transform-params/src/canonicalize.ts:162-396 | acceptance, params, hash, delivery and signature depend only on that map |
| Equivalence.AdmitRefuses | packages/transform-params/src/canonicalize.ts:165-182 | a refused query is refused for its first refused pair |
| Equivalence.SwapStretch | packages/transform-params/src/canonicalize.ts:162-182 | a stretch of admissible pairs can be replaced by any other with the same assignments: the query is refused alike or gives the same transformation |
| Equivalence.AliasesAgree | packages/transform-params/src/vocabulary.ts:28-47 | swapping any alias of a parameter changes neither a refusal nor the transformation |
| Equivalence.DialectsAgree | packages/transform-params/src/vocabulary.ts:60-85 | a listed dialect pair is the one or two canonical pairs it maps to, in accepted and refused queries |
| Equivalence.ForeignPairsAreInert | packages/transform-params/src/canonicalize.ts:180-181 | adding a foreign pair anywhere changes neither a refusal nor the transformation |
| Equivalence.OrderDoesNotMatter | packages/transform-params/src/canonicalize.ts:147-182 | permuting a query that sets each parameter by one pair gives the same result or a refusal alike |
| Equivalence.AdmitAccepts | packages/transform-params/src/canonicalize.ts:165-182 | partition succeeds exactly when every pair is admissible by itself |
| Budget.AcceptanceIsDownwardClosed | packages/transform-params/src/canonicalize.ts:288-377 | a request no larger in width, height and dpr than an accepted one is accepted, also when a side is derived from the ratio, the source or the crop |
| RequestMeaning.QuestionMarkIsNoPart | packages/transform-params/src/canonicalize.ts:149 | one leading question mark changes nothing |
| RequestMeaning.PartMeans | packages/transform-params/src/canonicalize.ts:149-160 | a part is a key and, after its first equals sign, a value, each decoded with plus signs as spaces; what cannot be decoded is foreign, except a value under a known name |
| RequestMeaning.FirstMalformedDecides | packages/transform-params/src/canonicalize.ts:155-158 | the first undecodable value under a known name decides the refusal |
| RequestMeaning.NamedPairAssigns | packages/transform-params/src/canonicalize.ts:173-179 | a pair under any name of a parameter gives it its value |
| RequestMeaning.CompatibilityPairAssigns | packages/transform-params/src/canonicalize.ts:166-172 | a compatibility pair gives the values it is listed for and is refused when it is not listed |
| RequestMeaning.OtherPairsAreForeign | packages/transform-params/src/canonicalize.ts:180-181 | a pair under any other name is refused exactly when it looks like a known one or all are refused, and is foreign otherwise |
| RequestMeaning.LastPairWins | packages/transform-params/src/canonicalize.ts:162-179 | the last pair that sets a parameter decides its value and the name it is reported under |
| RequestMeaning.IntegerExactly | packages/transform-params/src/canonicalize.ts:133-138 | an integer parameter is accepted exactly for one to nine digits in range; which refusal is which |
| RequestMeaning.RatioExactly | packages/transform-params/src/canonicalize.ts:199-208 | a ratio text is width part, colon, height part, each from 1 to 1000; anything else is refused by its form or its range |
| RequestMeaning.DprExactly | packages/transform-params/src/canonicalize.ts:210-216 | a dpr is a digit, or two around a point, from 0.5 to 3 |
| RequestMeaning.UnitValueMeans | packages/transform-params/src/canonicalize.ts:230-231 | a gravity coordinate is its digits before and after the point, in ten-thousandths |
| RequestMeaning.GravityExactly | packages/transform-params/src/canonicalize.ts:226-237 | a gravity is a point, a keyword or a request to the resolver, and nothing else |
| RequestMeaning.WordReads | packages/transform-params/src/canonicalize.ts:232-236 | what is no point is read as a word or refused, as out of range when it is digits |
| RequestMeaning.RectTextReads | packages/transform-params/src/canonicalize.ts:239-248 | four numbers are left, top, width and height, accepted exactly when not empty and inside the source |
| RequestMeaning.OnlyRectsRead | packages/transform-params/src/canonicalize.ts:242-243 | a crop is refused for its form exactly when it is not four numbers of one to five digits |
| RequestMeaning.ColourExactly | packages/transform-params/src/canonicalize.ts:261-268 | a background is a listed name in any case, or six or eight hex digits kept in upper case |
| RequestMeaning.WordsExactly | packages/transform-params/src/canonicalize.ts:218-279 | the texts accepted for format, quality, rotation, flip and fit, and the refusals |
| RequestMeaning.DownloadExactly | packages/transform-params/src/canonicalize.ts:281-286 | a download name has 1 to 255 characters and no control character |
| RequestMeaning.FirstFailureDecides | packages/transform-params/src/canonicalize.ts:195-286 | values are read in the order of the steps and the first failure is the refusal |
| RequestMeaning.CombineExactly | packages/transform-params/src/canonicalize.ts:288-306 | a ratio is refused as over-specified exactly without one given side and one missing one, and as out of range exactly when the missing side would exceed 8192 |
| RequestMeaning.ResolvesExactly | packages/transform-params/src/canonicalize.ts:307-377 | with sides that combine a request is refused exactly for a gravity that lacks its resolver, else for an output of more than 25 million pixels |
| RequestMeaning.BudgetExactly | packages/transform-params/src/canonicalize.ts:369-377 | the budget holds the given sides, snapped, and a missing one in the base's proportions to the nearest pixel, times dpr squared |
| RequestMeaning.FormMeans | packages/transform-params/src/canonicalize.ts:288-377 | every parameter of an accepted form from the texts given and the context: sides given or in the ratio, width to height, then snapped; format, quality, fit, dpr, gravity, rotation, effects, flip, crop and background, with their defaults; and no other |
| RequestMeaning.DeliveryMeans | packages/transform-params/src/canonicalize.ts:379-408 | the hash is of the version prefix and the canonical string; download name, expiry and signature are as given |
| RequestMeaning.IgnoredMeans | packages/transform-params/src/canonicalize.ts:184-189 | the ignored names are the foreign ones and those of given parameters without effect: missing from the form, or a rotation by 0 |
| IdempotencyTable.IdempotencyKeys.Claim | services/api/src/modules/idempotency/idempotency.repository.ts:16-39 | a claim succeeds exactly when no live row holds the key, and then the row is its own |
| IdempotencyTable.IdempotencyKeys.Complete | services/api/src/modules/idempotency/idempotency.repository.ts:58-73 | the row, whoever holds it, gets the response |
| IdempotencyTable.IdempotencyKeys.Serve | services/api/src/modules/idempotency/idempotency.service.ts:33-66 | alone, a request gives the documented outcome and leaves the documented row |
| IdempotencyTable.IdempotencyKeys.Run | services/api/src/modules/idempotency/idempotency.service.ts:33-66 | a request without a key runs unrecorded, one with a malformed key is refused and runs nothing, any other is served |
| IdempotencyTable.ServedMeans | services/api/src/modules/idempotency/idempotency.service.ts:46-66 | outcome by outcome: reused exactly on a live row of another hash, still running exactly on the same request's row in progress, replayed exactly with the response of the same request's completed row, each leaving the table; otherwise the work's own |
| IdempotencyTable.MalformedKeysAreRefused | services/api/src/modules/idempotency/idempotency.service.ts:39-44 | a key is refused exactly when empty, longer than 255 or not all visible ASCII; that, and a request without a key, leaves the table |
| IdempotencyTable.RetryReplays | services/api/src/modules/idempotency/idempotency.service.ts:46-56 | a retry within the lifetime returns the stored response, marked replayed, and runs no work |
| IdempotencyTable.FailedAttemptReleases | services/api/src/modules/idempotency/idempotency.service.ts:62-65 | after a failed attempt any request is served as if the key had never been used |
| IdempotencyProtocol.OutcomesMean | services/api/src/modules/idempotency/idempotency.service.ts:46-65 | which step of a process gives which outcome, by the row it found: reused, still running, replayed, its own answer, its failure |
| IdempotencyProtocol.LogTells | services/api/src/modules/idempotency/idempotency.repository.ts:16-77 | the log of a run is exactly the claims, works, completions that took effect, expiries and releases of its steps |
| IdempotencyProtocol.ServedIsARun | services/api/src/modules/idempotency/idempotency.service.ts:33-66 | a request served alone is the protocol's steps with no other process between them, with the same row and outcome |
| IdempotencyProtocol.ClaimsAreDeletions | services/api/src/modules/idempotency/idempotency.repository.ts:17-39 | in every interleaving the successful claims of a key are its deletions, plus one while its row is there |
| IdempotencyProtocol.RetriesArePaidFor | services/api/src/modules/idempotency/idempotency.service.ts:46-48 | each retry of a request is charged to a distinct deletion of the row since it started |
| IdempotencyProtocol.ExclusionHoldsExactly | services/api/src/modules/idempotency/idempotency.repository.ts:16-39 | in every run, up to any point, every holder has been alone with its own row if and only if no delete-expired statement took the row of a slot while a process held it |
| IdempotencyProtocol.AtMostOneHolder | services/api/src/modules/idempotency/idempotency.service.ts:46-66 | until that happens at most one process per key is between its claim and its complete or release, and the row is its own, under its hash, in progress |
| IdempotencyProtocol.AnswersAreFaithful | services/api/src/modules/idempotency/idempotency.service.ts:46-61 | until that happens every answer, replayed or not, is the response of a work run under the same key and request hash |
| IdempotencyProtocol.CompletionsAreSeparated | services/api/src/modules/idempotency/idempotency.service.ts:58-65 | until that happens two completions of a key that took effect, acknowledged or not, have between them an expiry, or the release that follows an unacknowledged first one |
| IdempotencyProtocol.TimelyRunsTakeNothing | services/api/src/modules/idempotency/idempotency.service.ts:58-66 | when working processes finish before their claims expire no held row is ever deleted |
| IdempotencyProtocol.TimelyWorkKeepsThePromises | services/api/src/modules/idempotency/idempotency.service.ts:33-66 | so exclusion, faithful answers and separated completions hold of every such run |
| IdempotencyProtocol.UnacknowledgedCompletionIsRepeated | services/api/src/modules/idempotency/idempotency.service.ts:58-65 | a timely run in which one key holds one completed response and later another, with no expiry |
| IdempotencyProtocol.LateWorkBreaksThePromises | services/api/src/modules/idempotency/idempotency.repository.ts:58-77 | without timeliness a run exists with two holders of one key and a foreign answer |
| Metering.UsageRecorder.Record | services/api/src/modules/usage/usage-recorder.ts:73-80 | a positive amount is added to its key's count and no other; anything else changes nothing |
| Metering.UsageRecorder.Flush | services/api/src/modules/usage/usage-recorder.ts:45-70 | whichever enqueues fail, counts move from buckets to jobs without loss; none is left when all succeed |
| Metering.MemoryQueue.Add | packages/queue/src/queue.ts:85-88 | a job whose id is held is dropped, any other is appended |
| Metering.MemoryQueue.Run | packages/queue/src/queue.ts:94-97 | the jobs are handled in turn up to the first that throws, counts moving from unapplied to usage; every job is kept when one throws, none when none does, and then all are applied |
| Metering.UsageStore.Apply | services/worker/src/modules/usage/usage.aggregator.ts:20-29 | claim and increment together; a known event changes nothing |
| Metering.UsageStore.ClaimEvent | services/worker/src/modules/usage/usage.repository.ts:12-24 | the claim succeeds exactly for a new event id |
| Metering.UsageStore.AddToCounter | services/worker/src/modules/usage/usage.repository.ts:26-45 | the counter grows by the amount, from zero on first use |
| Metering.ClaimTakesOne | services/worker/src/modules/usage/usage.repository.ts:12-24 | claiming an id takes exactly its event out of what is not yet applied |
| Metering.DeliveryConserves | services/worker/src/modules/usage/usage.aggregator.ts:20-29 | a delivery, first or repeated, keeps the sum of applied and unapplied counts |
| MeteringPipeline.CountsAreConserved | services/api/src/modules/usage/usage-recorder.ts:45-80 | in every reachable state the positive amounts of the record calls so far equal buckets, flushes under way, enqueued events outside the ledger and usage, exactly when no add that threw had enqueued that key; such an add only ever counts too much |
| MeteringPipeline.DrainedUsageIsExact | services/worker/src/modules/usage/usage.aggregator.ts:20-29 | when everything is flushed and applied, usage is the sum of the record calls' positive amounts if and only if no add that threw had enqueued an event of that key |
| MeteringPipeline.LedgerIsDelivered | services/worker/src/modules/usage/usage.aggregator.ts:20-29 | over every run the ledger is exactly the ids delivered so far |
| MeteringPipeline.StopDrainsExactly | services/api/src/modules/usage/usage-recorder.ts:87-91 | from any reachable state: on every continuation in which stop returns and nothing is recorded or put back meanwhile memory is empty, if and only if no flush of the recorder is under way at the call |
| MeteringPipeline.StopDrainsUnlessAnAddThrows | services/api/src/modules/usage/usage-recorder.ts:45-91 | in any run, when no flush was under way at the call and nothing is recorded or flushed again after it, a returned stop leaves memory empty if and only if no add threw since |
| MeteringPipeline.StopReturnsEarly | services/api/src/modules/usage/usage-recorder.ts:87-91 | a run in which stop returns while the timer's flush still holds a count |
| Scoped.ScopeIsAnded | packages/db/src/scoped.ts:131-137 | in three-valued logic the transformed filter selects exactly the scope's rows among those the built one selects |
| Scoped.BuiltMeans | packages/db/src/scoped.ts:131-137 | whatever where and clearWhere were called, a filter selects the rows that all conditions since the last clear select |
| Scoped.TransformedMeans | packages/db/src/scoped.ts:131-150 | a read, update or delete keeps its kind and its SET and is narrowed to the caller's rows its own filter selects; an insert is passed on unchanged; the rest, and a project table without a project, is refused |
| Scoped.SelectMeans | packages/db/src/scoped.ts:132-137 | a scoped read answers the caller's rows its filter selects, in order, and changes nothing |
| Scoped.DeleteMeans | packages/db/src/scoped.ts:132-137 | a scoped delete removes exactly those rows and every other stays |
| Scoped.UpdateMeans | packages/db/src/scoped.ts:132-137 | a scoped update sets exactly those rows where they stand, and is refused exactly when one of them would then meet another row on a unique list |
| Scoped.InsertMeans | packages/db/src/scoped.ts:138-148 | an insert is let through exactly when its rows carry the scope columns, and then its rows are inserted, all or none |
| Isolation.ScopesPartition | packages/db/src/scoped.ts:117-129 | two contexts have the same scope or share no row |
| Isolation.CheckedCarries | packages/db/src/scoped.ts:138-147 | an insert passes exactly when every row carries every scope column as a plain value of the context |
| Isolation.AcceptedInsertsAreInScope | packages/db/src/scoped.ts:97-147 | every row of an accepted insert is a row of the context's scope |
| Isolation.StampedInsertIsAccepted | packages/db/src/scoped.ts:173-196 | an insert built through stamp is accepted exactly when it has a record and the context has the project the table needs, whatever the records say about the scope columns |
| Isolation.StampedCellsMean | packages/db/src/scoped.ts:173-180 | a stamped record has the context's values in the scope columns and its own or the default in every other |
| Isolation.StatementActsInside | packages/db/src/scoped.ts:131-150 | a statement leaves other scopes' rows as they were, and does and answers what it would on its scope's rows alone |
| Isolation.OtherScopesAreUntouched | packages/db/src/scoped.ts:131-150 | what another scope sees does not change |
| Isolation.UpdateIsContainedExactly | packages/db/src/scoped.ts:132-137 | an UPDATE that goes through leaves other scopes' rows alone if and only if no row it selects leaves the scope |
| Isolation.ScopedListsMeetNoForeign | packages/db/src/scoped.ts:138-149 | unique and conflict lists that include the scope columns never meet across scopes |
| Isolation.Noninterference | packages/db/src/scoped.ts:97-197 | after any run of statements from any contexts a scope's rows and answers are those of its own statements run alone on its own rows |
| Isolation.UpdateCanMoveARow | packages/db/src/scoped.ts:132-137 | an accepted UPDATE of a scope column changes what another scope sees |
| Isolation.DisciplinedNoninterference | packages/db/src/scoped.ts:97-197 | when unique and conflict lists name the scope columns and SET and DO UPDATE SET do not, every run is noninterfering, whatever scope columns the inserts forge |
| Isolation.TablesRunApart | packages/db/src/scoped.ts:50-79 | a table's part in a run over many tables is the run of the calls on it |
| Isolation.DatabaseNoninterference | packages/db/src/scoped.ts:117-150 | over many tables, on each one a context can reach and by the scope it has there, it sees the run of its own calls on its own rows |
| Isolation.InsertIsAnsweredAloneExactly | packages/db/src/scoped.ts:138-149 | a plain insert that is let through is answered as on the scope's rows alone if and only if no row of it meets a foreign row on a unique list, or its rows clash among the scope's own anyway |
| Isolation.OneRowInsertIsAnsweredAloneExactly | packages/db/src/scoped.ts:138-149 | for a one-row insert with any conflict clause: the exact condition on the own and the foreign rows it meets on the unique and conflict lists |
| Isolation.UpdateIsAnsweredAloneExactly | packages/db/src/scoped.ts:132-137 | an UPDATE that keeps its rows in scope is answered so if and only if no updated row meets a foreign row on a unique list, or it is refused on the scope's own rows anyway |
| Isolation.UniqueCollisionIsSeen | packages/db/src/scoped.ts:138-149 | the input: with a unique list lacking the scope columns an accepted insert is answered differently because of another scope's row |
| ApiKeys.ApiKeyRepository.ExpireBy | services/api/src/modules/api-keys/api-key.repository.ts:140-154 | the key's expiry becomes the lesser of its own, if any, and the given one; a key already expired by then is not changed |
| ApiKeys.ApiKeyRepository.Revoke | services/api/src/modules/api-keys/api-key.repository.ts:156-165 | true exactly when this call revoked a key of the tenant |
| ApiKeys.ApiKeyService.Create | services/api/src/modules/api-keys/api-key.service.ts:95-147 | the key and its audit entry together, or a refusal and no change |
| ApiKeys.ApiKeyService.Rotate | services/api/src/modules/api-keys/api-key.service.ts:161-206 | replacement, shortened old key and audit entry together, or a refusal and no change |
| ApiKeys.ApiKeyService.Revoke | services/api/src/modules/api-keys/api-key.service.ts:209-227 | revoked and recorded once; a repeat changes and records nothing and still answers the revoked key |
| ApiKeys.ApiKeyService.SignIn | services/api/src/modules/api-keys/api-key.service.ts:233-257 | the principal or nothing, and only a success is noted as a use |
| ApiKeys.IssuedKeyAuthenticates | services/api/src/modules/api-keys/api-key.service.ts:233-257 | an issued key proves its principal exactly for its environment and a secret of the same digest while its tenant and application are active |
| ApiKeys.CreateAcceptsExactly | services/api/src/modules/api-keys/api-key.service.ts:95-119 | a create is accepted if and only if the application is in the caller's scope and its tenant's, the grant within the caller's and every listed project that application's; and which error each missing one gives |
| ApiKeys.CreatedMeans | services/api/src/modules/api-keys/api-key.service.ts:121-147 | a create adds one active key of the caller's tenant without an expiry, as asked, and one entry that says so; a refusal changes nothing |
| ApiKeys.RotateAcceptsExactly | services/api/src/modules/api-keys/api-key.service.ts:167-175 | a rotation is accepted exactly in scope, for a key found, within the caller's grant and active; and which error each missing one gives |
| ApiKeys.RevocationMeans | services/api/src/modules/api-keys/api-key.service.ts:209-227 | a revoke changes its key's status alone, exactly when it is found in scope and not revoked, with one entry |
| ApiKeys.AuthenticatesExactly | services/api/src/modules/api-keys/api-key.service.ts:233-257 | a presented key proves a principal exactly for its digest, environment, active status, unexpired time and active tenancy, and then its own |
| ApiKeys.RotationOverlaps | services/api/src/modules/api-keys/api-key.service.ts:157-206 | the replacement has the old grant and no expiry; the old key authenticates as before until the overlap ends and never after |
| ApiKeys.RotationIgnoresExpiry | services/api/src/modules/api-keys/api-key.service.ts:167-175 | rotation is accepted by scope, grant and active status alone; no expiry, passed or not, changes the decision |
| ApiKeys.ExpiredKeyIsRotated | services/api/src/modules/api-keys/api-key.service.ts:167-206 | an expired key that passes them is rotated into one that authenticates with its grant, and stays dead itself |
| ApiKeys.SomeExpiredKeyCanBeRotated | services/api/src/modules/api-keys/api-key.service.ts:173-175 | the input: an active key past its expiry that may be rotated |
| ApiKeys.RotationRecordsExpiryExactly | services/api/src/modules/api-keys/api-key.service.ts:193-204 | the entry's old_expires_at is the expiry now in force if and only if no earlier one was |
| ApiKeys.SomeEntryOutlastsItsKey | services/api/src/modules/api-keys/api-key.service.ts:193-204 | the input: a rotation whose entry names a later expiry than the key's |
| ApiKeyHistory.Attenuation | services/api/src/modules/api-keys/api-key.service.ts:55-81 | over every run, any key reached by chains of create and rotate by API-key actors is in the first key's tenant and application and within its permissions and projects |
| ApiKeyHistory.EntriesStayInApplication | services/api/src/modules/api-keys/api-key.service.ts:45-53 | over every run, what an API key did, it did to keys of its own tenant and application, and issued nothing beyond itself |
| ApiKeyHistory.ListedProjectsWereOwned | services/api/src/modules/api-keys/api-key.service.ts:106-119 | over every run, each project a key lists was, in some state of the run, a project of the key's own tenant and application |
| ApiKeyHistory.SessionsAreProved | services/api/src/modules/api-keys/api-key.service.ts:233-257 | those who act later are exactly those whose sign-in succeeded |
| ApiKeyHistory.RefusedMeanwhile | services/api/src/modules/api-keys/api-key.service.ts:245-247 | no key authenticates past its expiry, while suspended, or while its tenancy is not active |
| ApiKeyHistory.AuditAccounts | services/api/src/modules/audit/audit.ts:76-93 | over every run, a key exists exactly when one entry issued it, is revoked exactly when one entry says so and by none otherwise, and expires at the least time its rotations asked for |
| ApiKeyHistory.LeastAskedMeans | services/api/src/modules/api-keys/api-key.repository.ts:140-154 | that least time is one that was asked for, and none asked for is lower |
| ApiKeyHistory.RevocationEndsItsHistoryExactly | services/api/src/modules/api-keys/api-key.service.ts:167-206 | over every run with rotations read and written at different times, no entry about a key follows its revocation if and only if no rotation commits on a key revoked since it was read |
| ApiKeyHistory.RevocationEndsItsHistory | services/api/src/modules/api-keys/api-key.service.ts:173-175 | so it is of every run in which rotations commit right after their read |
| ApiKeyHistory.RevokedKeyIsRotated | services/api/src/modules/api-keys/api-key.service.ts:169-195 | the run: a key is revoked between a rotation's read and its commit, and the replacement authenticates |
| ApiKeyHistory.DeathIsPermanent | services/api/src/modules/api-keys/api-key.service.ts:208-257 | a key once revoked or expired never authenticates again, whatever steps follow |
| ApiKeyHistory.PrincipalIsStable | services/api/src/modules/api-keys/api-key.service.ts:249-256 | a key that authenticates again proves the same principal |
| ObjectKeys.PlainPathsAreValid | packages/storage-adapter/src/keys.ts:20-35 | plain segments joined by slashes are accepted exactly up to the length bound |
| ObjectKeys.ValidKeysArePlainPaths | packages/storage-adapter/src/keys.ts:20-35 | whatever is accepted is plain segments joined by slashes |
| ObjectKeys.ValidationMeans | packages/storage-adapter/src/keys.ts:20-34 | a key is refused for its length, else for its first bad segment, as invalid or as a device name |
| ObjectKeys.CharactersExactly | packages/storage-adapter/src/keys.ts:17 | the characters of a segment, a ULID and a parameter hash |
| ObjectKeys.DevicesExactly | packages/storage-adapter/src/keys.ts:18 | the device names, in any case |
| ObjectKeys.PrefixesExactly | packages/storage-adapter/src/keys.ts:41-46 | a prefix is accepted exactly when it is empty, a key, or a key and a slash, and is answered as it is |
| ObjectKeys.OriginalKeysExist | packages/storage-adapter/src/object-keys.ts:44-56 | an original's key is made, and always validates, exactly for ULID parts and a known media type |
| ObjectKeys.DerivativeKeysExist | packages/storage-adapter/src/object-keys.ts:63-76 | a derivative's key is made, and always validates, exactly for ULID parts and a lower-case hex hash of 16 to 128 digits |
| ObjectKeys.OriginalText | packages/storage-adapter/src/object-keys.ts:44-56 | the text of an original's key |
| ObjectKeys.DerivativeText | packages/storage-adapter/src/object-keys.ts:63-80 | the text of a derivative's key and of its prefix |
| ObjectKeys.ExtensionsExactly | packages/storage-adapter/src/object-keys.ts:18-27 | the extension of each media type, and that no other has one |
| ObjectKeys.KeysAreInjective | packages/storage-adapter/src/object-keys.ts:44-76 | two keys are equal only when all their parts are; originals and derivatives never share one |
| ObjectKeys.DerivativePrefixIsExact | packages/storage-adapter/src/object-keys.ts:78-80 | the prefix starts exactly the derivatives of its tenant, project, asset and version, and no original |
| ObjectKeys.TenancyPrefixIsExact | packages/storage-adapter/src/object-keys.ts:8-12 | tenant and project start exactly their own keys |
| ObjectKeys.PathsDoNotNest | packages/storage-adapter/src/adapters/local.ts:98-106 | no object path or sidecar path of a made key is a proper prefix of another |
| ObjectKeys.ValidPathsNestExactly | packages/storage-adapter/src/adapters/local.ts:98-100 | for any valid keys one path runs through another exactly when the key continues it after a slash |
| ObjectKeys.SidecarPathsNestExactly | packages/storage-adapter/src/adapters/local.ts:102-106 | for any keys one sidecar path runs through another exactly when the key continues it after .json and a slash |
| ObjectKeys.PathsAreInjective | packages/storage-adapter/src/adapters/local.ts:98-106 | different keys have different object paths and different sidecar paths |
| Paging.ClampListLimit | packages/storage-adapter/src/body.ts:29-30 | no limit is 1000, a limit from 1 to 1000 is kept, one below is 1 and one above 1000 |
| Paging.PaginateSortedMakesPages | packages/storage-adapter/src/body.ts:38-53 | a page is the next stretch beyond the cursor; when not the last it is full, names its last key, and something lies beyond it |
| Paging.ListedAscends | packages/storage-adapter/src/body.ts:38-53 | however the listing changes between pages, the keys listed ascend strictly |
| Paging.NothingThatStayedIsMissed | packages/storage-adapter/src/body.ts:38-53 | a key present at every page is listed by the end |
| Paging.ListedOnce | packages/storage-adapter/src/body.ts:38-53 | and at one place only |
| Paging.TraversalsEnd | packages/storage-adapter/src/body.ts:47-52 | if only n keys ever appear the pages end within n / limit + 1 requests, however the store changes |
| Paging.PagesPartitionTheListing | packages/storage-adapter/src/body.ts:38-53 | with no changes the pages concatenate to the whole listing, in exactly ceil(n / limit) pages |
| Paging.TraversalBySortedPages | packages/storage-adapter/src/body.ts:29-53 | for paginateSorted itself, at any requested limit: the pages of a changing store end, ascend, and hold every key that stayed |
| Paging.StaticTraversalBySortedPages | packages/storage-adapter/src/body.ts:29-53 | and those of one that stays put are the listing, in exactly ceil(n / limit) pages |
| MemoryStorage.MemoryStore.Put | packages/storage-adapter/src/adapters/memory.ts:26-37 | the object is stored under a valid key and answered; an invalid key changes nothing |
| MemoryStorage.MemoryStore.Get | packages/storage-adapter/src/adapters/memory.ts:39-44 | the stored bytes and info, or not found |
| MemoryStorage.MemoryStore.Delete | packages/storage-adapter/src/adapters/memory.ts:55-58 | the key and nothing else is gone, present or not |
| MemoryStorage.MemoryStore.Copy | packages/storage-adapter/src/adapters/memory.ts:60-63 | the destination gets the source's bytes and type, or nothing changes |
| MemoryStorage.MemoryStore.List | packages/storage-adapter/src/adapters/memory.ts:65-77 | a page of the sorted listing of exactly the keys with the prefix |
| MemoryStorage.ListingOfIsUnique | packages/storage-adapter/src/adapters/memory.ts:67-70 | there is only one such listing |
| TreeWalk.WalkInto | packages/storage-adapter/src/adapters/local.ts:239-253 | the recursive pushes append exactly the walk's keys to what was there |
| TreeWalk.WalkIsPaths | packages/storage-adapter/src/adapters/local.ts:239-253 | the walk's keys are the joined paths of the files below |
| TreeWalk.ListingIsWholeWalkSieved | packages/storage-adapter/src/adapters/local.ts:216-225 | starting at the deepest directory the prefix names finds, in the same order, what sieving a walk of the whole tree finds |
| TreeWalk.AcceptedPrefixesNameDirectories | packages/storage-adapter/src/adapters/local.ts:217-222 | every accepted prefix meets that theorem's condition |
| TreeWalk.WalkFindsEachOnce | packages/storage-adapter/src/adapters/local.ts:239-253 | no key is found twice |
| TreeWalk.WalkFindsExactly | packages/storage-adapter/src/adapters/local.ts:239-253 | a key is found if and only if its path leads to a file past no name that starts with a dot |
| LocalStore.Disk.WriteTemp | packages/storage-adapter/src/adapters/local.ts:128-145 | the new file holds all the chunks, or the write broke off and the file is gone |
| LocalStore.Disk.AtomicWrite | packages/storage-adapter/src/adapters/local.ts:123-146 | the target gets all the chunks, exactly when nothing blocks it and the write does not break off; otherwise no file changes |
| LocalStore.Disk.Put | packages/storage-adapter/src/adapters/local.ts:157-173 | sidecar and object are in place, or the key was refused, or the first blocked or broken write left the ones before it, with the directories made so far |
| LocalStore.Disk.Delete | packages/storage-adapter/src/adapters/local.ts:204-209 | object, then sidecar are gone and nothing else changed; a file on the way to one or a directory in its place stops the call there |
| LocalStore.Disk.Stat | packages/storage-adapter/src/adapters/local.ts:148-198 | size and sidecar of an object that is there; a missing sidecar is tolerated, anything in its way is not |
| LocalStore.Disk.Get | packages/storage-adapter/src/adapters/local.ts:175-179 | bytes and sidecar of an object that is there, or what its stat says |
| LocalStore.PutMeans | packages/storage-adapter/src/adapters/local.ts:157-173 | path by path, what a put leaves: the sidecar unless blocked or broken off, then the object so, and the directories of what it tried |
| LocalStore.DeleteMeans | packages/storage-adapter/src/adapters/local.ts:204-209 | path by path, what a delete leaves: no object unless blocked, then no sidecar unless blocked, and all the rest |
| LocalStore.MadeKeysAreNotBlocked | packages/storage-adapter/src/adapters/local.ts:98-127 | in a store of keys the platform made none of them is ever blocked |
| LocalStore.MadeKeysStayWritable | packages/storage-adapter/src/adapters/local.ts:157-209 | a put, complete or broken off, and a delete of such a key keep it a store of such keys; the delete succeeds, and the put exactly when no write breaks off |
| LocalStore.KeyPathsAreVisible | packages/storage-adapter/src/adapters/local.ts:49-51 | no object or sidecar of a valid key has the name of a temporary file |
| LocalStore.KeyPathsAreApart | packages/storage-adapter/src/adapters/local.ts:98-106 | no object path is a sidecar path, and different keys share neither |
| LocalStore.StepKeepsInv | packages/storage-adapter/src/adapters/local.ts:123-173 | every step of every writer keeps temporary files apart and whole, half-done work accounted for and visible objects with their sidecars |
| LocalStore.StepIsAtomic | packages/storage-adapter/src/adapters/local.ts:43-48 | to readers a step is a whole write, a removal or nothing |
| LocalStore.RunsAreAtomic | packages/storage-adapter/src/adapters/local.ts:43-48 | over every run, with writers failing or dying anywhere, readers see the atomic store and every visible object has its sidecar |
| LocalStore.EveryRunIsAtomic | packages/storage-adapter/src/adapters/local.ts:43-51 | so it is of every run from an empty directory |
| LocalStore.PutShowsOldOrNew | packages/storage-adapter/src/adapters/local.ts:157-173 | while a put runs and after, its key reads as before or as the whole new body |
| LocalStore.PutWritesItsBody | packages/storage-adapter/src/adapters/local.ts:157-173 | from its start, the key of a put reads as before it or as the whole body it was given |
| LocalStore.PutAlone | packages/storage-adapter/src/adapters/local.ts:157-173 | the steps of a put with no one in its way leave what the one call does |
| LocalStore.DeleteAlone | packages/storage-adapter/src/adapters/local.ts:204-209 | and those of a delete leave neither object nor sidecar |
| StoreAgreement.PerformOnDisk | packages/storage-adapter/src/adapters/local.ts:157-209 | a put, get or delete performed on the directory store has the effect and answer the theorems below speak of |
| StoreAgreement.PerformInMemory | packages/storage-adapter/src/adapters/memory.ts:26-58 | and so one performed in memory |
| StoreAgreement.BlockedExactly | packages/storage-adapter/src/adapters/local.ts:98-127 | while the stores are in step, a key is blocked exactly when it goes below a stored key or above one ever put |
| StoreAgreement.CallAgreesExactly | packages/storage-adapter/src/adapters/local.ts:157-209 | a call is answered alike if and only if it is no put or delete of a blocked key, and then the stores stay in step, files, sidecars and directories |
| StoreAgreement.StoresAgreeExactly | packages/storage-adapter/src/adapters/memory.ts:26-58 | from empty stores any sequence of puts, deletes and gets is answered alike if and only if no put or delete in it goes below a stored key or above one ever put, which its calls show |
| StoreAgreement.KeysApartAgree | packages/storage-adapter/src/adapters/local.ts:98-106 | so it is when no accepted key continues another after a slash or after .json and a slash |
| StoreAgreement.MadeKeysAgree | packages/storage-adapter/src/object-keys.ts:44-76 | and for all calls with keys of the platform's scheme |
| StoreAgreement.NestedKeysDisagree | packages/storage-adapter/src/adapters/local.ts:127 | any two keys that nest are answered differently by two puts, or by two puts with a delete between |
| StoreAgreement.SomePutsDisagree | packages/storage-adapter/src/adapters/local.ts:127 | the input: puts of a and a/b |
| StoreAgreement.ListingsAgree | packages/storage-adapter/src/adapters/local.ts:216-237 | after every such run the listing by walk and stat is the listing in memory |
| StoreAgreement.SidecarlessIsOctets | packages/storage-adapter/src/adapters/local.ts:191-196 | an object without a sidecar is answered as application/octet-stream |
| StoreAgreement.BrokenPutIsHiddenExactly | packages/storage-adapter/src/adapters/local.ts:160-166 | after a put whose body breaks off its key is answered as before if and only if there was no object or its content type is the same |
| FailureLimiter.Limiter.Current | services/api/src/http/failure-limiter.ts:38-45 | a window that is over is forgotten, any other is returned |
| FailureLimiter.Limiter.BlockedForSeconds | services/api/src/http/failure-limiter.ts:48-52 | the least number of seconds, at least one, that reaches the window's end, or zero when not blocked |
| FailureLimiter.Limiter.RecordFailure | services/api/src/http/failure-limiter.ts:53-64 | the running window counts one more, or a new one starts at the end of the table, the oldest evicted when full |
| FailureLimiter.RunsStayInOrder | services/api/src/http/failure-limiter.ts:35-64 | over every run one entry an address, in order of window start, and at most max(1, maxTracked) |
| FailureLimiter.LiveEvictionOnlyWhenAllLive | services/api/src/http/failure-limiter.ts:59-62 | a running window is evicted only when the table is full of running windows |
| FailureLimiter.AnswersFollowHistory | services/api/src/http/failure-limiter.ts:38-64 | an address never evicted while its window ran is answered as its history of failures alone says |
| FailureLimiter.WaitsExactly | services/api/src/http/failure-limiter.ts:48-52 | an address is told to wait exactly while its window runs and counts the configured number of failures or more |
| FailureLimiter.BlockedAfterMaxFailures | services/api/src/http/failure-limiter.ts:48-64 | an address never evicted while its window runs is blocked in it exactly when its failures since the first have reached that number |
| FailureLimiter.FailuresDoNotExtend | services/api/src/http/failure-limiter.ts:54-58 | failures before a window's end count to it and never move it |
| FailureLimiter.WaitingUnblocks | services/api/src/http/failure-limiter.ts:48-52 | waiting as long as told unblocks, however often the address failed meanwhile; before the window's end it stays blocked |
| LastUsed.KeyTable.RecordUse | services/api/src/modules/api-keys/api-key.authentication.ts:68-77 | the named keys end at the given time or a later one, no row goes back, no other row changes |
| LastUsed.Tracker.Flush | services/api/src/modules/api-keys/last-used-tracker.ts:32-43 | the pending ids are written and cleared, or put back when the write throws, whether or not it took effect |
| LastUsed.UsesAreAccounted | services/api/src/modules/api-keys/last-used-tracker.ts:32-48 | over every run with overlapping, failing and late writes, each use noted by a call of seen is pending, in a batch under way or written at its time or later, and no time is written that no such use precedes |
| LastUsed.DrainedUsesAreWritten | services/api/src/modules/api-keys/last-used-tracker.ts:55-59 | with nothing pending or under way every use noted by a call of seen is written |
| LastUsed.RunNeverGoesBack | services/api/src/modules/api-keys/api-key.authentication.ts:72-76 | last_used_at never decreases, in whatever order writes land |

## Left out

- Canonicalizer.Canonicalize: SHA-256 is an uninterpreted function, so equal strings give equal hashes and nothing is said of the converse; percent-decoding and the colour table are parameters, constrained only as the theorems need; ignored names are a set, where the code returns them sorted; lower-casing is ASCII only and characters are Unicode scalars, not UTF-16 units; names a JavaScript object inherits (such as `constructor`) are not table entries.
- Dimensions.BudgetMonotone: exact integers, with dpr in tenths; IEEE rounding of `dpr ** 2` at the very edge of the budget is not modelled.
- Projection.CanonicalisationIsAProjection: the resolver's rectangle has natural coordinates; source sides are at least one pixel.
- `bucketFromAccept`: three branches over a header; the bucket is an input.
- IdempotencyTable.IdempotencyKeys.Run: request fingerprints are given, and a work is what it returns or throws.
- IdempotencyProtocol.AtMostOneHolder: one clock is shared, read at any time between a statement's start and its effect; keyless and refused requests touch no row and are not steps.
- MeteringPipeline.CountsAreConserved: a process that dies loses its buckets and its flush; the source accepts that, and the model has no such step. The tenant and application carried beside the project are not modelled, nor is the job's schema check.
- Isolation.Noninterference: a statement touches one table. SET keeps selected rows in scope, DO UPDATE SET of an accepted insert leaves the scope columns alone, and its rows and updated ones meet no other scope's row on a unique or conflict list; `Isolation.DisciplinedNoninterference` has the discipline that gives all this. A row changed by DO UPDATE is not checked against the unique lists again, and texts are compared for equality only, collation aside. Joins, subqueries, ordering, RETURNING lists and foreign keys are not modelled; the plugin does not scope the first two.
- Isolation.InsertIsAnsweredAloneExactly: inserts of several rows with an ON CONFLICT clause have the one-way theorem only.
- ApiKeyHistory.Attenuation: a rotation is a read and, later, a commit at READ COMMITTED; other transactions are atomic steps; generated ids are fresh; HMAC and constant-time comparison are an uninterpreted function and equality; the key text's grammar is given as its parts; names and timestamps that decide nothing are not kept. Suspension and resumption, which the service does not perform, are steps of an operator.
- Paging.PaginateSortedMakesPages: a cursor is the key it encodes; base64url is taken to decode what it encoded. Keys are compared by character, not UTF-16 unit.
- MemoryStorage.MemoryStore.Put: no `lastModified`, and the body is its bytes; streams, presigning and `ByteCounter` are not modelled.
- TreeWalk.ListingIsWholeWalkSieved: one unchanging tree per walk, names without a slash and different within a directory; symlinks are neither file nor directory, and case-insensitive filesystems are not modelled. The sort and the `stat` of each match are not repeated here.
- LocalStore.RunsAreAtomic: one writer per key, temporary names not in use, rename atomic; a reader of an object during an overwrite may pair its old bytes with the new content type, and nothing is claimed about that. A blocked directory is a failing step there; the rename retry loop and fsync are not modelled.
- StoreAgreement.StoresAgreeExactly: decoding a sidecar gives the content type that was encoded, calls come one after another, and no write breaks off; `StoreAgreement.BrokenPutIsHiddenExactly` has one that does.
- FailureLimiter.AnswersFollowHistory: the clock is monotone; an address evicted while its window runs starts afresh, and nothing is claimed for it.
- LastUsed.UsesAreAccounted: one monotone clock for all trackers, keys are not deleted, and a process does not die with uses pending; timers are steps taken at any time.
- Network storage adapters, Redis, BullMQ, PostgreSQL, Fastify routes and hooks, configuration, logging, image inspection, role matrices and migrations: foreign calls or plumbing.
