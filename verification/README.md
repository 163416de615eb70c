# urlfy: a Dafny model of the redirect, analytics and maintenance core

urlfy is a link shortener. This project models the parts of it that make a claim over whole runs and
proves those claims, or proves exactly when they hold. `dafny verify dfyconfig.toml` checks everything.

- **Redirect cache** (`RedirectCache`, `BanProtocol`, `LinkFetcher`, `Validator`): the cache-aside reader
  with its negative flag, ban flag and stampede lock over a Redis-like store with TTLs. `BanProtocol` is
  a state machine with a step for every await of every reader; `LinkFetcher` is the same code as one
  caller runs it alone, and is proved to agree with the state machine.
- **Click limits** (`PendingClicks`, `MaxClicks`): pending clicks, populates and worker batches in any
  order of their awaits, and what that does to the enforcement of `maxClicks`.
- **Click pipeline** (`ClickBatch`, `ClickWorker`, `ClickRuns`): at-least-once delivery made to count once.
- **Contract generator** (`TypeText`, `ContractTypes`, `ContractSoundness`, `ContractTheorem`,
  `ContractExact`): the printed TypeScript types as token texts, read back by a parser in which `|` binds
  looser than `&` and `&` looser than `[]`, and compared in both directions with the values that
  a schema accepts (section 4.7.24 of OpenAPI 3.0.3).
- **Deletion worker** (`UserErasure`, `DeletionRuns`, `DeletionClaims`): crash-safe erasure, and the lease over any
  number of workers.
- **Limiters, lock, breaker** (`SlidingWindow`, `FallbackLimiter`, `DistributedLock`, `CircuitBreaker`).
- **Migrations** (`IssuerBackfill`, `MigrationTrain`), **week salt** (`IsoWeek`, `Decimals`), **hit rate** (`HitRate`),
  **stream client** (`StreamGroups`, `StreamReads`, `StreamIds`), **worker pool** (`WorkerPool`).

Where the source changes state, a class has the same fields and its methods are proved against a
specification function; the theorems are about that function and about runs of it. Clocks, random draws
and the success of a network or database call are parameters or events of a run.

## What the proofs found

Where a property turned out not to hold of the code in general, the model keeps the code, a lemma gives
a run or an input on which it fails, and another says exactly when it holds.

- A ban can be undone by a stale populate when the ban flag was not written (its error is logged and
  swallowed), when the code is invalidated again, or when a read stays in flight for more than 82800 s.
- A populate that is overtaken by a click batch caches a count that is too low, so the cache can accept a
  click that the database would reject; so can a hit between commit and increment, and a lost increment.
  A populate that has seen pending clicks makes the cache stricter than the database, because a hit adds
  them again.
- Clicks are counted by logical id. A crash between requeue and acknowledgement produces two entries with
  one logical id; if both reach one batch, one row is stored and two clicks are counted. A retry payload
  with an empty `originalId` changes its logical id.
- `nullable` is lost where the printed base text holds `| null |` below its top level, inside a property,
  an item or a string literal. A long array type breaks its lines inside a string literal that holds
  ` | `, and a literal with a line break is no token at all. Schemas with only a default, string schemas
  with a numeric format, an empty `allOf`, `properties` without a type, and `format: binary` are
  printed as types that leave out accepted values.
- The failure update of the deletion worker is by id alone. An attempt that throws before its claim, or
  after its lease, frees a request that another attempt holds. A link that the user adds while the
  deletion is between its link query and its last query survives without an owner.
- A rate-limited request that reaches Redis late enough can find the window's key expired, and is then
  admitted over the limit.
- A lock holder that overstays releases the lock of the next holder in its own process. Overlapping calls
  of one process, or a failed one, can leave a lock in place until it expires.
- The reset timeout of the circuit breaker has no effect.
- The week salt is wrong for the years 0 to 99, which `Date.UTC` reads as 1900 to 1999.
- The in-memory stream compares ids as strings, so it can lose any entry whose id is not above all earlier
  ones as a string, such as `1-10` after `1-9`: two entries of one millisecond between which the counter
  gains a digit.
- The comment on `processConcurrently` says that rejections are not re-thrown; the code does pass them on
  through `Promise.all`, and every rejection also ends its worker, so that items can stay uncalled. The
  model follows the code.

## Model

| member | source | states |
|---|---|---|
| RedirectCache.IncrementKeepsTheDeadline | packages/redirect-domain/src/cache-service.ts:472-484 | On a whole-second clock the increment script changes the click count of the cached link and nothing else: the key keeps its deadline. |
| RedirectCache.CacheService.SetLink | packages/redirect-domain/src/cache-service.ts:192-206 | Stores the link for 3600 s from now; nothing else changes. |
| RedirectCache.CacheService.SetNotFound | packages/redirect-domain/src/cache-service.ts:229-241 | Sets the negative flag for 300 s. |
| RedirectCache.CacheService.SetBanned | packages/redirect-domain/src/cache-service.ts:264-276 | Sets the ban flag for 86400 s. |
| RedirectCache.CacheService.InvalidateLink | packages/redirect-domain/src/cache-service.ts:316-341 | Removes exactly the link, metadata, negative and ban keys of the code. |
| RedirectCache.CacheService.InvalidateLinkAndQR | packages/redirect-domain/src/cache-service.ts:364-378 | Leaves no key of the code but the one flag its reason asks for, with its full lifetime, and touches no other code and no lock. |
| RedirectCache.CacheService.GetLinkState | packages/redirect-domain/src/cache-service.ts:282-311 | Reports each flag exactly while it is live, and the link unless an early refresh drops it. |
| RedirectCache.CacheService.GetLink | packages/redirect-domain/src/cache-service.ts:154-187 | The cached link, or nothing when it is missing, expired, or drawn for an early refresh in its last tenth. |
| RedirectCache.CacheService.IncrementClicksCount | packages/redirect-domain/src/cache-service.ts:494-527 | Does what the script does and returns the new count, or nothing when no link is cached. |
| RedirectCache.SetThenGet | packages/redirect-domain/src/cache-service.ts:154-206 | A stored link is read back exactly as it was stored for 3600 s, but that a draw can drop it in its last 360 s; afterwards it is gone, and no other key is touched. |
| RedirectCache.FlagsLast | packages/redirect-domain/src/cache-service.ts:229-276 | The negative flag stands for exactly 300 s and the ban flag for exactly 86400 s; no other key is touched. |
| RedirectCache.IncrementThenGet | packages/redirect-domain/src/cache-service.ts:472-484 | An incremented link is read back with its clicks added and nothing else changed; a missing link is not made up. |
| Validator.ValidIff | packages/redirect-domain/src/validator.ts:17-59 | A redirect goes through if and only if the link is active, not banned, not past its expiry, below any positive limit, and has no password or is bypassed. |
| Validator.FailuresAre | packages/redirect-domain/src/validator.ts:17-59 | Each failure is reported if and only if its own check fails and none of the earlier ones does. |
| BanProtocol.AdvanceKeepsInv | packages/redirect-domain/src/fetcher.ts:97-244 | One step of any reader, look-up, lock, read, populate or release, keeps the invariant that bounds how long a stale unbanned link can live. |
| BanProtocol.FaultKeepsInv | packages/redirect-domain/src/fetcher.ts:158-185 | A Redis error at any step, with or without the lock released, and the fall-back to the database keep it too. |
| BanProtocol.OtherKeepsInv | packages/redirect-domain/src/cache-service.ts:316-394 | Time, the click increment, invalidations, the ban commit and the clearing of the keys keep it. |
| BanProtocol.LongReadsBreakTheBan | packages/redirect-domain/src/fetcher.ts:192-224 | For every read limit above 82800 s there is a run in which a stale populate shows the link after the ban flag has expired. |
| BanProtocol.LostFlagBreaksTheBan | packages/redirect-domain/src/cache-service.ts:264-276 | setBanned swallows its error: a run in which the flag is not written and a later read yields the unbanned link. |
| BanProtocol.LaterInvalidationBreaksTheBan | packages/redirect-domain/src/cache-service.ts:316-341 | A run in which another invalidation of the code removes the flag while a stale populate is still due. |
| BanProtocol.BanIsPermanentIff | packages/redirect-domain/src/fetcher.ts:97-244 | Over all runs with any number of readers: no read that begins after invalidateAndBan returned yields an unbanned link, if and only if reads last at most 86400 - 3600 s, the flag is written, and the code is not invalidated again. |
| LinkFetcher.LinkFetcher.FetchFromDatabase | packages/redirect-domain/src/fetcher.ts:249-256 | The row, with the pending clicks added only where a limit is enforced, or the error of the query. |
| LinkFetcher.LinkFetcher.GetLink | packages/redirect-domain/src/fetcher.ts:97-185 | Negative flag before ban flag before cached link before database, a failed query tried once more, and the exact store left behind. |
| LinkFetcher.AnswerIs | packages/redirect-domain/src/fetcher.ts:37-244 | Case by case, for every store: nothing, a banned link, or the link that the read found, whose clicks are its own plus the pending ones exactly when it has a limit. |
| LinkFetcher.ExhaustedHitIsNotValid | packages/redirect-domain/src/fetcher.ts:148-155 | A cache hit whose count plus pending clicks reaches a positive limit is never answered as a valid link. |
| LinkFetcher.VerdictOfHit | packages/redirect-domain/src/fetcher.ts:148-155 | A hit gets the verdict that the click model gives the cached copy. |
| LinkFetcher.MissIsCached | packages/redirect-domain/src/fetcher.ts:192-244 | A hit or a foreign lock leaves the store alone; a miss caches just what it answers for 3600 s, or the negative flag for 300 s, leaves no lock and touches no other key. |
| LinkFetcher.LinkFetcher.FetchWithStampedeProtection | packages/redirect-domain/src/fetcher.ts:192-244 | With the lock free: the row, populated, and no lock left, or the error of the query and no lock left either; behind a lock: the cache once more, then the row, and nothing written. |
| LinkFetcher.ReaderAlone | packages/redirect-domain/src/fetcher.ts:97-244 | A reader of the ban protocol that runs alone returns what the method returns, up to the pending clicks, and leaves the same store. |
| PendingClicks.PendingClickCounter.Increment | packages/cache/src/realtime-clicks.ts:20-43 | Adds the normalised amount to what a reader sees and renews the lifetime. |
| PendingClicks.PendingClickCounter.Drain | packages/cache/src/realtime-clicks.ts:45-73 | Removes at most what is there, never leaves zero or less, and deletes the key at zero. |
| PendingClicks.PendingClickCounter.Get | packages/cache/src/realtime-clicks.ts:75-96 | The live positive counter, else zero. |
| PendingClicks.NormalizeAmountIs | packages/cache/src/realtime-clicks.ts:12-18 | A positive amount loses its fraction; anything else counts as one. |
| PendingClicks.PendingLasts | packages/cache/src/realtime-clicks.ts:75-96 | A positive counter is seen for exactly a day; one of zero or less never. |
| MaxClicks.StepKeepsInv | apps/worker/src/workers/analytics-click.worker.ts:459-474 | Every step of a populate, a reservation or a worker batch, increments and drains in any order and lost ones included, keeps every copy of the click count exactly accounted for: clicks plus its surplus is the copy plus what is still to be pushed plus what went past it. |
| MaxClicks.CacheDiffersIff | packages/redirect-domain/src/fetcher.ts:37-64 | In every reachable state the cache lets through a click that the database path rejects, for some limit, if and only if the entry's surplus is less than the clicks that are still to be pushed or went past it; it is stricter if and only if the surplus is more. |
| MaxClicks.NeverLoosensIff | packages/redirect-domain/src/validator.ts:43-50 | Over all runs, for every limit and whatever pending count is read: a cache hit never accepts what the database path rejects as exhausted, if and only if no hit comes between the commit of a batch and its cache increment, no increment comes while a populate is in flight, and none is lost (or the limit is zero). |
| MaxClicks.SomeRunLoosens | packages/redirect-domain/src/fetcher.ts:208-218 | Each of the three alone is enough: for every limit there is a run in which the cache accepts the click that the database path rejects. |
| MaxClicks.AtomicRunsAreExact | apps/worker/src/workers/analytics-click.worker.ts:459-470 | With atomic populates and batches every run ends with cached equal to database plus what the populate absorbed, so the cache never loosens the limit. |
| MaxClicks.AbsorbedClicksTighten | packages/redirect-domain/src/fetcher.ts:56-64 | The cached count already holds the pending clicks seen by its populate, and a hit adds pending again: for every limit and any pending clicks below it there is a run in which the cache rejects what the database path lets through. |
| MaxClicks.PushThenDrainNeverLowers | apps/worker/src/workers/analytics-click.worker.ts:459-470 | A cache increment followed by the drain of the same batch never lowers cached plus pending. |
| ClickBatch.RetryKeepsLogicalIdIff | apps/worker/src/workers/analytics-click.worker.ts:440-457 | A retry keeps its logical id under every new entry id, if and only if the payload does not carry an empty originalId without an event id. |
| ClickBatch.DifferentClicksDiffer | apps/worker/src/workers/analytics-click.worker.ts:440-457 | Messages with event ids share a logical id if and only if they share the event id; messages without, if and only if they were first published as one entry. |
| ClickBatch.RetryIsTheSameClick | apps/worker/src/server/lib/worker-base.ts:302-327 | A retry is the same click of the same link at the same time, one retry later, and remembers the entry it was first published in. |
| ClickBatch.OneSucceedsIff | apps/worker/src/workers/analytics-click.worker.ts:87-140 | A single-message transaction commits if and only if its row is there already or its link exists; then the row is there. |
| ClickBatch.BulkSucceedsIff | apps/worker/src/workers/analytics-click.worker.ts:216-263 | With distinct logical ids the bulk transaction commits if and only if every message has its row already or its link exists. |
| ClickBatch.ProcessOneKeepsExact | apps/worker/src/workers/analytics-click.worker.ts:87-140 | One message in one transaction keeps every counter equal to its start plus the link's rows, also on conflict and on rollback. |
| ClickBatch.BulkMatchesFold | apps/worker/src/workers/analytics-click.worker.ts:216-263 | With distinct logical ids the bulk transaction reaches the rows and counters of the sequential path. |
| ClickBatch.SharedIdOvercounts | apps/worker/src/workers/analytics-click.worker.ts:407-415 | For any batch with two messages of one logical id and different times there are tables on which the counters run ahead of the rows. |
| ClickBatch.BulkIsExactIffDistinct | apps/worker/src/workers/analytics-click.worker.ts:397-438 | Counting by membership of the logical id adds one click for each row, whatever the tables hold, if and only if the batch's logical ids are distinct. |
| ClickWorker.BuildLinkClickCounts | apps/worker/src/workers/analytics-click.worker.ts:397-438 | One entry for each link with a counted message, with its count and the latest time of its messages, in order of first appearance. |
| ClickWorker.UpdatesAddTheCounts | apps/worker/src/workers/analytics-click.worker.ts:246-262 | The updates of the summary add each link's counted messages and change no other counter. |
| ClickWorker.AnalyticsClickWorker.ProcessMessage | apps/worker/src/workers/analytics-click.worker.ts:87-140 | One transaction: the row and its click, or nothing. |
| ClickWorker.AnalyticsClickWorker.InsertRows | packages/data/src/schema/analytics.ts:98-100 | Insert with ON CONFLICT DO NOTHING on logical id and creation time. |
| ClickWorker.AnalyticsClickWorker.PersistBatch | apps/worker/src/workers/analytics-click.worker.ts:216-263 | The whole batch commits, with the counters of the summary, or the tables are unchanged. |
| ClickWorker.AnalyticsClickWorker.ProcessMessages | apps/worker/src/workers/analytics-click.worker.ts:153-297 | Every message is reported once, as processed or as failed, and every one that is not enriched as failed; the tables after the batch; a batch of at most one goes to the sequential path. |
| ClickWorker.ReportedOnce | apps/worker/src/workers/analytics-click.worker.ts:153-297 | On either path, and whether the database works or not, the processed and the failed messages together are the batch, each as often as it came. |
| ClickWorker.AnalyticsClickWorker.ProcessSequentially | apps/worker/src/server/lib/worker-base.ts:256-282 | Messages one at a time; one that is not enriched, breaks a foreign key or loses the database is reported and changes nothing. |
| ClickRuns.FailedBatchIsRetried | apps/worker/src/server/lib/worker-base.ts:211-248 | A batch that fails before its commit, is requeued entry by entry under fresh ids and then delivered one by one leaves the tables that the bulk path would have left. |
| ClickRuns.AlwaysExactIff | apps/worker/src/server/lib/worker-base.ts:211-248 | Over all runs with redelivery, enrichment failure, rollback, requeue, dead-lettering and crashes: every counter is its start plus its link's rows, if and only if no batch holds two entries with one logical id. |
| ClickRuns.ClicksCountExactlyOnce | apps/worker/src/server/lib/worker-base.ts:211-248 | With distinct logical ids in each batch, moreover: every row is a published click, no published click is lost, and each link has as many published rows as it had clicks published. |
| ClickRuns.DrainedStreamHasCountedEveryClick | apps/worker/src/server/lib/worker-base.ts:211-248 | With the stream drained and nothing dead-lettered, each link has gained exactly as many clicks as were published for it. |
| ClickRuns.AtMostThreeRetries | apps/worker/src/server/lib/worker-base.ts:329-346 | In any run no entry is ever a fourth retry. |
| ClickRuns.DeadLetterIffThirdRetry | apps/worker/src/server/lib/worker-base.ts:329-346 | An entry that failed is dead-lettered if and only if it is its third retry; before, it can be requeued under any new id. |
| ClickRuns.CrashBetweenRequeueAndAck | apps/worker/src/server/lib/worker-base.ts:348-370 | A crash between requeue and acknowledgement leaves an entry and its copy with one logical id. |
| ClickRuns.CopyInOneBatchIsCountedTwice | apps/worker/src/workers/analytics-click.worker.ts:407-415 | If both then arrive in one batch, one row is inserted and two clicks are counted. |
| TypeText.ReadUnion | scripts/generate-api-contracts.ts:200-205 | Two texts joined by a bar are read as the members of the first and then those of the second, whatever bars they hold themselves. |
| TypeText.ReadSpliced | scripts/generate-api-contracts.ts:260-262 | `a & b` without parentheses is read with the last member of a and the first member of b fused. |
| TypeText.IntersectionIsType | scripts/generate-api-contracts.ts:260-262 | The unparenthesised text is a type that holds every value in both. |
| TypeText.UnionIsType | scripts/generate-api-contracts.ts:200-205 | Two texts joined by a bar are a type whose values are exactly those of the one and those of the other. |
| ContractTypes.ObjectType | scripts/generate-api-contracts.ts:301-331 | The loop over the properties produces the text that the recursive printer defines. |
| ContractSoundness.UniqueUnionSound | scripts/generate-api-contracts.ts:200-205 | Dropping `never` and repetitions loses no value; an empty union becomes `unknown`. |
| ContractSoundness.OrNullSound | scripts/generate-api-contracts.ts:222-229 | Adding null, or leaving it when the text already has it as a member of its own, is sound. |
| ContractSoundness.ArrayTextReads | scripts/generate-api-contracts.ts:283-292 | Whichever of its three shapes is chosen, the array text is the array of the item text. |
| ContractSoundness.RecordSound | scripts/generate-api-contracts.ts:316-322 | `Record<string, T>` holds every object whose entries are all in T. |
| ContractSoundness.ObjectSound | scripts/generate-api-contracts.ts:324-330 | The object type holds every object with fitting properties and all required ones. |
| ContractTheorem.CoveredIsSound | scripts/generate-api-contracts.ts:222-331 | Every value that a covered schema accepts belongs to the type its text is read as, at any depth of nesting; ContractExact.TypeIsExact states the converse. |
| ContractExact.TypeIsExact | scripts/generate-api-contracts.ts:222-331 | The converse, at any depth: the printed type of a covered schema holds exactly the values expected of it, read off the schema alone, provided that no member of an allOf is a union and no member of a union is printed `never`. |
| ContractExact.TypeHoldsWhatIsAccepted | scripts/generate-api-contracts.ts:222-331 | For references, constants, enumerations, unions, intersections, arrays, records and objects of plain scalars, nullable or not: the printed type holds exactly what the schema accepts. |
| ContractExact.MeantIsAccepted | scripts/generate-api-contracts.ts:222-331 | The values expected of a type are those that the schema accepts, wherever TypeScript can say what the schema says. |
| ContractExact.ScalarsAreExact | scripts/generate-api-contracts.ts:272-282 | A plain string, number, boolean or null is printed as exactly its own type, an integer and a string of one of the four numeric formats as a number, with null if it is nullable. |
| ContractTheorem.NullableIsSoundIff | scripts/generate-api-contracts.ts:222-229 | A nullable schema whose base text is sound is sound, if and only if splitting that text at bars finds no null, or its type holds null already. |
| ContractTheorem.NullableContainerIsSoundIff | scripts/generate-api-contracts.ts:222-229 | A nullable array, record or object type is sound if and only if splitting its text at bars finds no null inside it. |
| ContractTheorem.NullableStringIsSoundIff | scripts/generate-api-contracts.ts:222-229 | A nullable string constant is sound if and only if its own characters hold no part null between bars. |
| ContractTheorem.BarredStringLosesNull | scripts/generate-api-contracts.ts:226-228 | A constant such as x, bar, null, bar, y, with spaces around the bars, loses its null when it is made nullable. |
| ContractTheorem.ArrayIsSoundIff | scripts/generate-api-contracts.ts:283-292 | An array of a sound item type is sound, but for its null, if and only if the line breaks of its text do not fall into a quoted string. |
| ContractTheorem.ConstantIsSoundIff | scripts/generate-api-contracts.ts:187-198 | A constant is sound if and only if it has no line break, for which quoted strings have no escape. |
| ContractTheorem.EnumIsSoundIff | scripts/generate-api-contracts.ts:200-205 | An enumeration is sound if and only if none of its strings has a line break. |
| ContractTheorem.BinaryIsSoundIff | scripts/generate-api-contracts.ts:275-277 | No JSON value being a Uint8Array, a binary schema is sound, but for its null, if and only if it accepts nothing. |
| ContractTheorem.BinaryStringIsUnsound | scripts/generate-api-contracts.ts:275-277 | A binary string schema accepts every string and is printed Uint8Array. |
| ContractTheorem.NestedNullIsLost | scripts/generate-api-contracts.ts:226-228 | An object with a property of type x, null or y, declared nullable, is printed without its own null. |
| ContractTheorem.DefaultOnlyIsUnsound | scripts/generate-api-contracts.ts:238-250 | A schema with nothing but a default accepts everything and is printed `never`. |
| ContractTheorem.NumericStringIsUnsound | scripts/generate-api-contracts.ts:212-220 | A string schema with a numeric format accepts strings and is printed `number`. |
| ContractTheorem.EmptyAllOfIsUnsound | scripts/generate-api-contracts.ts:260-262 | An empty allOf is printed as an empty text, which is no type. |
| ContractTheorem.UntypedPropertiesAreUnsound | scripts/generate-api-contracts.ts:294-296 | Properties without `type: object` accept every non-object and are printed as an object type. |
| UserErasure.QueryKeepsErasure | apps/worker/src/workers/deletion-stream.worker.ts:285-339 | No query removes anything that a complete erasure would not remove. |
| UserErasure.FullAttemptErases | apps/worker/src/workers/deletion-stream.worker.ts:285-339 | The eight queries in order are one erasure. |
| UserErasure.RetriesErase | apps/worker/src/workers/deletion-stream.worker.ts:173-203 | Attempts stopped after any prefix of their queries, any number of times, and then a full attempt: the same as one erasure. |
| UserErasure.ErasureIsExact | apps/worker/src/workers/deletion-stream.worker.ts:285-339 | An erasure leaves no link, event, daily total, key, session, account, two-factor row or user row of the user, and every row of everybody else unchanged. |
| UserErasure.Database.DeleteUserData | apps/worker/src/workers/deletion-stream.worker.ts:285-339 | The method's queries, in the source's order, make the tables the erased tables. |
| DeletionRuns.CompletedMeansErased | apps/worker/src/workers/deletion-stream.worker.ts:86-87 | In every run, whatever overlaps: all attempts work on the user of the request even after its foreign keys are null, and status completed means that no row refers to that user. |
| DeletionRuns.AtMostOneLiveAttempt | apps/worker/src/workers/deletion-stream.worker.ts:102-142 | If attempts act only within their lease and never throw before the claim, no two attempts are live at once. |
| DeletionRuns.EndedIsTerminal | apps/worker/src/workers/deletion-stream.worker.ts:194-203 | Under the same two conditions, completed and failed are never left. |
| DeletionClaims.WorksIff | apps/worker/src/workers/deletion-stream.worker.ts:86-142 | In every state: an attempt takes the request up if and only if its deadline has passed and it is pending, or processing under no lease or an expired one; it then holds it for 900 s, else nothing changes. |
| DeletionClaims.NothingBeforeTheDeadline | apps/worker/src/workers/deletion-stream.worker.ts:89-100 | In every run, as long as the deadline is ahead nothing is claimed and no user, link or row of a user goes. |
| DeletionClaims.CanBeCompleted | apps/worker/src/workers/deletion-stream.worker.ts:102-203 | Whatever throws, crashes and overlaps came before, a free request past its deadline can be completed by one attempt, which leaves no row that refers to the user. |
| DeletionRuns.NeverOverlapsIff | apps/worker/src/workers/deletion-stream.worker.ts:224-252 | Both conditions are needed: no run has two live attempts if and only if both hold. |
| DeletionRuns.EarlyFaultsOverlap | apps/worker/src/workers/deletion-stream.worker.ts:231-243 | The failure update is by id alone: a throw before the claim frees a request that another attempt holds. |
| DeletionRuns.SlowAttemptsOverlap | apps/worker/src/workers/deletion-stream.worker.ts:231-243 | A throw after the lease has expired frees the request of the attempt that took over. |
| DeletionRuns.OnlyLateLinksSurvive | apps/worker/src/workers/deletion-stream.worker.ts:290-315 | A completed request leaves exactly those of the user's links that were added after the link query of the attempt that deleted the user row, without an owner. |
| DeletionRuns.NothingSurvivesIff | apps/worker/src/workers/deletion-stream.worker.ts:290-315 | Over all runs, whatever overlaps, throws or crashes: a completed request leaves no link of the user, if and only if the user adds none while an attempt is past its link query. |
| DeletionRuns.LateLinkSurvives | apps/worker/src/workers/deletion-stream.worker.ts:290-315 | A run in which such a link survives. |
| DeletionRuns.PayloadRetryCount | apps/worker/src/workers/deletion-stream.worker.ts:258-275 | Truncation toward zero, never below zero, zero when there is no number. |
| DeletionRuns.DeletionWorker.ProcessMessage | apps/worker/src/workers/deletion-stream.worker.ts:58-256 | Without interference: nothing before the deadline or when the request cannot be claimed; else the erasure, and completed, pending or failed. |
| SlidingWindow.SlidingWindowIsExact | packages/cache/src/mock.ts:307-330 | For non-decreasing times a request is allowed if and only if fewer than `points` were admitted in (now - duration, now]. |
| SlidingWindow.NoWindowOverfull | packages/cache/src/rate-limiter-core.ts:96-115 | No half-open window of that length, wherever it ends, ever holds more than `points` requests of the log. |
| SlidingWindow.NeverOverfullIff | packages/cache/src/rate-limiter-core.ts:96-115 | In every run whose lag to the server grows by at most g, no window holds more than `points` requests that the script itself admitted, if and only if g is zero, or the limit is zero, or the window has no length. |
| SlidingWindow.AlwaysAgreeIff | packages/cache/src/rate-limiter-core.ts:96-115 | Expiring the key changes no decision in any run whose lag to the server grows by at most g, if and only if g is zero, or the limit is zero, or the window has no length. |
| SlidingWindow.ExpiryMattersIff | packages/cache/src/rate-limiter-core.ts:96-115 | At one request the expiring key decides otherwise if and only if it has expired while the window is full. |
| SlidingWindow.SlowRequestSlipsThrough | packages/cache/src/rate-limiter-core.ts:238-258 | For every limit and window: after a full burst, a request that is held up on its way finds the key expired and is allowed. |
| SlidingWindow.LuaRetryAfterSuffices | packages/cache/src/rate-limiter-core.ts:260-279 | The script admits a rejected client that comes back alone after the announced time, whatever the lag. |
| SlidingWindow.SlidingWindowLimiter.EvalSlidingWindow | packages/cache/src/rate-limiter-core.ts:96-115 | One evaluation of the script: its decision, its count and the stored set. |
| FallbackLimiter.TableIsBounded | packages/cache/src/rate-limiter-core.ts:40-74 | With keys built from a prefix and a name the table never holds more than 10000 entries, each key once. |
| FallbackLimiter.AtMostTwiceThePoints | packages/cache/src/rate-limiter-core.ts:49-83 | A key that is not evicted is allowed at most twice its points in any interval as long as its window, across window resets and cleanups. |
| FallbackLimiter.DeniedIffFull | packages/cache/src/rate-limiter-core.ts:49-74 | In every run, a check of a key that is not evicted is denied if and only if as many as its points (one, if it has none) were already allowed in the running window. |
| FallbackLimiter.CheckTouches | packages/cache/src/rate-limiter-core.ts:49-74 | A check gives its key a new window or counts it in the running one; another key loses its entry only as the first of 10000, to a key without one, and is otherwise untouched. |
| FallbackLimiter.InMemoryRateLimiter.Check | packages/cache/src/rate-limiter-core.ts:49-74 | Eviction, window reset and counting, and the answer. |
| FallbackLimiter.InMemoryRateLimiter.Cleanup | packages/cache/src/rate-limiter-core.ts:76-83 | Exactly the expired entries are gone; the others keep their order. |
| DistributedLock.NoForeignDelete | packages/cache/src/distributed-lock.ts:10-14 | In every reachable state a release deletes nothing but a lock written by the same process. |
| DistributedLock.GrantMeansOthersOver | packages/cache/src/distributed-lock.ts:45-92 | Whenever an acquire succeeds, every earlier grant has been released or has expired. |
| DistributedLock.ExcludesIff | packages/cache/src/distributed-lock.ts:94-129 | Unexpired holders exclude each other in every run, if and only if holders release before their lock expires (or locks live for no time at all). |
| DistributedLock.LateReleaseBreaksExclusion | packages/cache/src/distributed-lock.ts:94-129 | A holder that overstays releases the lock of the next holder in its own process. |
| DistributedLock.NeverStrandsIff | packages/cache/src/distributed-lock.ts:94-129 | In no run a finished holder's lock stays behind with nothing left to delete it, if and only if the calls of a process take turns and none fails (or locks live for no time at all). |
| DistributedLock.LateClearStrandsLock | packages/cache/src/distributed-lock.ts:112-121 | The unconditional removal from the token map can wipe the next holder's token: its release does nothing and its lock stays. |
| DistributedLock.LockClient.AcquireLock | packages/cache/src/distributed-lock.ts:45-92 | Acquires if and only if the lock is free at the start or expires within the retries, and remembers the token exactly then. |
| DistributedLock.LockClient.ReleaseLock | packages/cache/src/distributed-lock.ts:94-129 | Deletes the lock if and only if it is live and carries the remembered token. |
| CircuitBreaker.CountersAreExact | packages/cache/src/circuit-breaker.ts:80-128 | However calls overlap: the failure counter is the number of failures since the last success or reset, the recorded time is that of the last failure, and both counters stay below their thresholds in the closed and half-open states. |
| CircuitBreaker.ResetTimeoutNeverMatters | packages/cache/src/circuit-breaker.ts:80-99 | The reset-timeout branch of onSuccess has no effect. |
| CircuitBreaker.OpenWaits | packages/cache/src/circuit-breaker.ts:50-66 | Every open circuit has been open since some failure event that came half-open, or as the threshold-th in a row or beyond it; it rejects exactly what comes within the timeout of that event, and every request since then was rejected. |
| CircuitBreaker.HalfOpeningWaited | packages/cache/src/circuit-breaker.ts:50-66 | A circuit half-opens only when that failure is at least the timeout ago, with no request admitted in between. |
| CircuitBreaker.ClosingTakesSuccesses | packages/cache/src/circuit-breaker.ts:80-99 | Without reset, an open circuit closes only through one half-open period with at least the threshold of successes and no failure. |
| CircuitBreaker.RecoversIff | packages/cache/src/circuit-breaker.ts:50-99 | An open circuit asked again half-opens if and only if it has waited, and then closes with exactly as many successes as the threshold asks for, and at least one. |
| CircuitBreaker.ResetStaysClosedIff | packages/cache/src/circuit-breaker.ts:80-155 | A manual reset closes the circuit from any state, and it stays closed if and only if no series of failures without a success reaches the threshold. |
| CircuitBreaker.OutageBound | packages/cache/src/circuit-breaker.ts:50-128 | From a fresh breaker, with calls one at a time that all fail, at most failureThreshold + floor(t / timeout) of them reach the backend within t of the first (a threshold below one counts as one). |
| CircuitBreaker.CircuitBreaker.Execute | packages/cache/src/circuit-breaker.ts:50-78 | One call: rejected, returned or threw, and the fields afterwards. |
| CircuitBreaker.CircuitBreaker.OnSuccess | packages/cache/src/circuit-breaker.ts:80-99 | The fields after a success. |
| CircuitBreaker.CircuitBreaker.OnFailure | packages/cache/src/circuit-breaker.ts:101-128 | The fields after a failure. |
| CircuitBreaker.CircuitBreaker.Reset | packages/cache/src/circuit-breaker.ts:147-155 | Closed, with both counters zero; the other fields stay. |
| MigrationTrain.CheckOrder | scripts/validate-migrations.ts:233-261 | Names exactly the entries whose index is not their position, whose timestamp is no number, or whose timestamp is not above the last one that is; none if and only if the journal is in order. |
| MigrationTrain.CoversInOrder | packages/data/src/scripts/migrate.ts:87-120 | On an ordered journal the coverage check says that entries 7 and 8 exist and carry their pinned tags. |
| MigrationTrain.PassExtends | packages/data/src/scripts/migrate.ts:129-177 | A pass on any applied prefix brings the applied entries to the end of its range in order, or leaves the database as it was. |
| MigrationTrain.TrainAppliesEverything | packages/data/src/scripts/migrate.ts:234-248 | From any applied prefix of an accepted journal: the train ends with the whole journal applied in order and every issuer filled, if and only if the account rows are ready; else it stops in the backfill. The backfill always runs with 0007 applied. |
| MigrationTrain.TagsDecide | packages/data/src/scripts/migrate.ts:146-157 | On rows that are ready, the train ends if and only if every tag is four digits, an underscore and lower-case letters, digits or underscores; it fails in the first pass if and only if one of the first eight is not. |
| MigrationTrain.TrainIsOneMigration | packages/data/src/scripts/migrate.ts:34-58 | The result is that of one plain migration of the whole journal on a database with filled issuers. |
| MigrationTrain.RerunEndsTheSame | packages/data/src/scripts/migrate.ts:234-248 | A train cut short after any of its moves, the first pass, any updates of the backfill, the verification or the second pass, and started again reaches the same state. |
| MigrationTrain.MovesEndLikeTheTrain | packages/data/src/scripts/migrate.ts:234-248 | Moves that reach the end leave what the train leaves, and a train that can end has such moves. |
| MigrationTrain.Deployment.MigrateBetween | packages/data/src/scripts/migrate.ts:129-177 | The loops over the journal produce the filtered journal and the tag check that the pass is defined by. |
| MigrationTrain.Deployment.Deploy | packages/data/src/scripts/migrate.ts:224-248 | Coverage, pass 1, backfill, pass 2, with the applied entries and the rows after each outcome. |
| IssuerBackfill.ResolveIsInjective | packages/data/src/schema/account-identity.ts:18-37 | Different providers have different issuers, the local namespace included, and none is empty. |
| IssuerBackfill.ResolveIs | packages/data/src/schema/account-identity.ts:18-37 | Every provider has an issuer but those of white space only: `local:credential` for passwords, `local:oauth:` and the encoded id for others. |
| IssuerBackfill.BackfillSucceedsIff | packages/data/src/scripts/backfill-account-issuer.ts:114-212 | Filling and verifying succeed if and only if every provider is named, existing issuers are right, and (provider, account id) is unique. |
| IssuerBackfill.FillingAgain | packages/data/src/scripts/backfill-account-issuer.ts:214-219 | Wherever a backfill stopped, doing it again ends where one backfill ends. |
| IssuerBackfill.VerifiedMeetsConstraints | packages/data/src/scripts/backfill-account-issuer.ts:190-209 | Verified rows have an issuer each and unique (issuer, account id), as migration 0008 demands. |
| IssuerBackfill.AccountTable.RunBackfill | packages/data/src/scripts/backfill-account-issuer.ts:114-151 | Fills every row that needs it, or stops at the first row whose provider is blank. |
| IssuerBackfill.AccountTable.BackfillAccountIssuer | packages/data/src/scripts/backfill-account-issuer.ts:220-235 | Succeeds exactly as specified, leaves filled rows on success, and never rewrites an issuer. |
| IsoWeek.MoveMoves | packages/telemetry/src/visitor-hash.ts:8 | Moving a date by up to three days moves its day number by as much, across month and year ends. |
| IsoWeek.WeekDateIsUnique | packages/telemetry/src/visitor-hash.ts:3-15 | A day has one ISO week date, with a week between 1 and 53 (section 3.2.2 of ISO 8601:2004). |
| IsoWeek.WeekIsRightIff | packages/telemetry/src/visitor-hash.ts:3-15 | The code computes the ISO week date of a civil date, with a week from 1 to 53, if and only if neither the date nor its Thursday lies in the years 0 to 99. |
| IsoWeek.SameWeekIff | packages/telemetry/src/visitor-hash.ts:3-15 | Outside those years two dates have the same year and week if and only if they lie in the same week from Monday to Sunday. |
| IsoWeek.SameSaltIff | packages/telemetry/src/visitor-hash.ts:14 | The same holds of the printed salts. |
| IsoWeek.SaltNamesTheWeek | packages/telemetry/src/visitor-hash.ts:14 | The salt reads back as the ISO week date: year, `-W`, and two digits of the week. |
| IsoWeek.GetIsoWeekSalt | packages/telemetry/src/visitor-hash.ts:3-15 | The moved date and the arithmetic of the method give the salt. |
| HitRate.BucketsAgree | packages/telemetry/src/metrics.ts:108-148 | From any cutoff inside the last window, the bucket sums equal the number of records since the last reset whose minute starts no earlier, reads in between included. |
| HitRate.WindowInMinutes | packages/telemetry/src/metrics.ts:117-131 | A record at most four minutes old is counted, one over five is not. |
| HitRate.FewBuckets | packages/telemetry/src/metrics.ts:117-131 | For a clock that does not go back, whatever is recorded, read or reset, there are never more than six buckets, with distinct increasing minutes. |
| HitRate.RateIsOfTheLog | packages/telemetry/src/metrics.ts:143-148 | The rate read is the percentage of hits among the log's records in the window: rate times records is 100 times hits, and zero without records. |
| HitRate.CacheMetricsTracker.CurrentBucket | packages/telemetry/src/metrics.ts:117-126 | The bucket of the current minute, added when missing. |
| HitRate.CacheMetricsTracker.RecordHit | packages/telemetry/src/metrics.ts:133-136 | Evicts and counts one hit in the bucket of the minute. |
| HitRate.CacheMetricsTracker.RecordMiss | packages/telemetry/src/metrics.ts:138-141 | Evicts and counts one miss in the bucket of the minute. |
| HitRate.CacheMetricsTracker.GetHitRate | packages/telemetry/src/metrics.ts:143-148 | Evicts and returns hits over total in percent, or zero. |
| StreamGroups.ConservesIff | packages/cache/src/mock.ts:333-456 | Over all runs and interleavings every entry added under given ids is in exactly one of waiting, trimmed before delivery, pending and acknowledged, if and only if the ids are above the start of the group and increase as strings. |
| StreamIds.GeneratedIdsConserveIff | packages/cache/src/mock.ts:28-32 | For the ids that the client generates from a clock that does not go back, with times of one length, that holds if and only if the counter gains no digit between two entries of one millisecond. |
| StreamGroups.Conservation | packages/cache/src/mock.ts:333-456 | For ids that increase as strings: every added entry is in exactly one of waiting, trimmed before delivery, pending and acknowledged. |
| StreamGroups.NewReadsRise | packages/cache/src/mock.ts:389-445 | New-message reads deliver each entry at most once, and in order. |
| StreamGroups.ClaimChangesOnlyOwners | packages/cache/src/mock.ts:491-514 | An automatic claim changes the consumer of pending entries and nothing else. |
| StreamReads.ClaimTakesTheFirst | packages/cache/src/mock.ts:491-514 | It takes exactly the entries with an id from `start` on that have fewer than `count` such entries before them. |
| StreamReads.ReadTakesAsMany | packages/cache/src/mock.ts:389-445 | In every run with increasing ids a read delivers as many entries as it asks for, or all that wait; they become the reader's pending entries, and nobody else's change. |
| StreamReads.RereadChangesNothing | packages/cache/src/mock.ts:389-445 | In every run, reading one's own pending entries hands out the first of them, up to the count, and changes nothing. |
| StreamReads.OwnedAt | packages/cache/src/mock.ts:389-445 | The entries of a consumer are all those kept under its name, in the order in which they are kept. |
| StreamReads.AddLeavesTheNewest | packages/cache/src/mock.ts:333-356 | The new entry comes last; of the others exactly the oldest beyond a positive limit go. |
| StreamReads.TrimLeavesTheNewest | packages/cache/src/mock.ts:515-538 | Trimming leaves the newest entries, as many as the limit or all. |
| StreamGroups.OnlyAckRemoves | packages/cache/src/mock.ts:446-456 | In any run, whatever the ids, nothing but an acknowledgement takes an entry out of the pending ones. |
| StreamGroups.TenthEntryIsSkipped | packages/cache/src/mock.ts:421-424 | Ids are compared as strings: entry 1-10 after 1-9 is never delivered and is in none of the four places. |
| StreamGroups.InMemoryStream.XAdd | packages/cache/src/mock.ts:333-356 | Appends, and keeps the last entries when a positive limit is given. |
| StreamGroups.InMemoryStream.XReadGroup | packages/cache/src/mock.ts:389-445 | Delivers new entries after the last id, or the consumer's own pending ones, and tracks them. |
| StreamGroups.InMemoryStream.XAck | packages/cache/src/mock.ts:446-456 | Removes the ids from the pending entries and counts those that were there. |
| StreamGroups.InMemoryStream.XTrim | packages/cache/src/mock.ts:515-538 | Keeps the last entries and returns how many went, or zero for another operator, mode or threshold. |
| WorkerPool.PoolIsBounded | apps/worker/src/workers/aggregation-stream.worker.ts:47-67 | In every interleaving at most min(concurrency, n) calls are in flight and no item is called twice. |
| WorkerPool.PoolTerminates | apps/worker/src/workers/aggregation-stream.worker.ts:47-67 | Every run has at most n steps, and a next step as long as a call is in flight. |
| WorkerPool.NeverStarvesIff | apps/worker/src/workers/aggregation-stream.worker.ts:47-67 | In every interleaving with at most r rejections every item has been called exactly once at rest, if and only if there are more than r workers, or a worker for every item. |
| WorkerPool.CallerIsRightIff | apps/worker/src/workers/aggregation-stream.worker.ts:156-191 | Without rejections, aggregated plus failed equals the number of links, if and only if the concurrency is at least one or there are no links. |
| WorkerPool.RejectionsStarveTheQueue | apps/worker/src/workers/aggregation-stream.worker.ts:40-45 | As many rejections as workers leave every queued item uncalled. |

## Left out

- Sub-second rounding of TTLs: on a finer clock the increment script can push a deadline back, so the deadline lemma is about whole seconds.
- RedirectCache.CacheService.InvalidateLink: does not model the QR keys of the code, which no read of a link looks at.
- RedirectCache.CacheService.InvalidateLinkAndQR: does not model the QR keys either.
- RedirectCache.CacheService.GetLink: the model always has the entry's own timestamp; for an entry without one the source derives it from the remaining TTL to decide on an early refresh.
- Cache statistics, key scans and flushes.
- LinkFetcher.ReaderAlone: compares answers up to the click count, because the ban protocol leaves pending clicks to the click model.
- LinkFetcher.LinkFetcher.GetLink: does not model Redis errors, which are events of the ban protocol.
- LinkFetcher.LinkFetcher.FetchFromDatabase: the circuit breaker around the query is a model of its own; here the query works or throws.
- BanProtocol.BanIsPermanentIff: speaks of one ban of one code; the ban is not lifted in the runs considered.
- PendingClicks.PendingClickCounter.Drain: does not model the race between its decrement and its delete: the drain is one step.
- User-agent parsing, GeoIP lookup, hashing and URL parsing of a click: enrichment either succeeds or fails.
- The exact lastClickedAt across batches; within one batch it is the latest time.
- ClickRuns.ClicksCountExactlyOnce: links are not deleted in the runs considered, so no row disappears by a cascade.
- Claiming of idle entries by the stream's garbage collector, other than as a redelivery.
- ContractTheorem.CoveredIsSound: shuts out the schemas that the lemmas beside it speak of; a type list counts branch by branch.
- ContractExact.TypeIsExact: shuts out an allOf of unions, whose members are fused without parentheses, and unions with a member printed `never`, which is dropped.
- ContractTypes.ObjectType: does not model patternProperties or the Partial target; the meaning of a component name is a parameter.
- Whitespace and line layout of generated code other than line breaks that tear a quoted string, route trees and imports of the generator.
- DeletionRuns.DeletionWorker.ProcessMessage: does not model the snapshot audit entry, or an erasure query that fails, which is an event of the runs; of the audit entries only whether the last one can be written. `processedBy` is set by no code.
- DeletionRuns.NothingSurvivesIff: users and other workers do not delete links in the runs considered.
- Rate-limit metadata, fail-closed configuration, IP blocking, reconnects and script caching; members of the sorted set are taken to be unique.
- FallbackLimiter.AtMostTwiceThePoints: for windows longer than zero; a window of zero length limits nothing.
- Redis errors inside acquire and release other than as a call that stops, and locks of several keys at once, which do not interact.
- MigrationTrain.TrainAppliesEverything: SQL of the migrations other than the constraints of 0008 does not fail; encodeURIComponent is any injective function.
- The wait for the database, the seed, and the temporary folder of a pass.
- The range limit of a JavaScript Date, and time zones: the model starts from the local calendar fields.
- StreamIds.GeneratedIdsConserveIff: the counter of the source is shared by all streams; here one stream uses it.
- StreamGroups.Conservation: one stream with one group created at 0-0 on the empty stream; SETID, DESTROY and `$` are not modelled, and automatic claims are stated by lemmas without a method of their own.
- Consumer-group delivery times, which the in-memory client compares with the current time only.
- WorkerPool.NeverStarvesIff: items are positions; an item that is `undefined` would stop a worker in the source.
