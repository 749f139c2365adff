# Mypalace: a verified model

Mypalace stores memories for many tenants: rows in a relational store, vectors in an index,
caches and rate limits in Redis, background jobs in a leased queue. This project models the
parts whose correctness spans several calls, several stores or several workers, and proves what
they keep in every run. Check it with `dafny verify dfyconfig.toml`.

| file | what it models |
|---|---|
| `JobQueue.dfy`, `JobProtocol.dfy` | the job table, its operations, one worker iteration; many workers interleaved with clock ticks and crashes |
| `MemoryModel.dfy`, `MemoryService.dfy` | one tenant's rows, points, versions and supersessions as values; the service that changes them step by step |
| `Ingestion.dfy`, `MemoryRuns.dfy` | smart ingestion; every run of memory operations: index agreement, version log, supersession order, orphans, near duplicates |
| `CrossTenant.dfy` | searching all tenants: merging best hits, hydrating by bare id |
| `ReadCache.dfy`, `Jsonable.dfy`, `Freshness.dfy` | read-through cache keys and glob invalidation; cached values; freshness of cached searches over whole runs |
| `EmbeddingCache.dfy` | the embedding cache in front of a provider |
| `RateLimiter.dfy` | the sliding-window limiter over sorted sets |
| `Fsrs.dfy`, `Dynamics.dfy` | the FSRS-6 arithmetic over the reals; stored review state |
| `Intentions.dfy` | triggers and the firing life of an intention |
| `Portability.dfy` | export and import of a tenant |
| `Prelude.dfy` | options, finite sums, the stable descending sort |

Conventions. Times, new random ids, the order in which the database lists rows, the answer of the
vector index, what Redis drops or fails, which rows the database accepts and which tables it commits, and
the locks other claims hold are parameters. The embedding model, the similarity, the
tokenizer, `exp` and `pow`, the hash behind cache keys and timestamp parsing are function
parameters; whatever is assumed of them is a named predicate (`Fsrs.Laws`, `Fsrs.ExpGrows`,
`MemoryModel.ExactIndex`, `MemoryModel.Symmetric`, `Portability.ClockWorks`,
`Portability.Redrawn`). Digests may collide: a result about cached values only asks that the
request or the texts it speaks of have no collision within the run (`Freshness.ApartFrom`,
`EmbeddingCache.Distinguishes`). Each class method is specified by a function of the old state,
and the runs are sequences of those functions. What a function does is told once more by lemmas that
spell out the fields, thresholds and conditions themselves.

## Where the code differs from what it says

- `complete_job` and `fail_job` check neither who holds the lease nor the status, so a completed
  job can become failed (`JobProtocol.StaleWorkerOverwrites`). Final statuses stay exactly when no
  settle writes the other final status over a row that is no longer pending
  (`JobProtocol.FinalIsFinalIff`); workers that act before their lease passes never do, and hold
  their jobs alone (`JobProtocol.TimelyRunsAreExclusive`).
- A job whose worker crashes on the last attempt stays pending for ever
  (`JobProtocol.OneCrashLosesAJob`, `JobProtocol.LostForever`).
- `cleanup_expired` deletes every expired row but only the vectors of the first `batch_size`;
  its count is capped too, and a negative size slices from the end (`MemoryRuns.SameIdsIff`).
- `update` writes the vector payload with the memory type from before the patch: payload and row
  agree exactly as long as no update changes a type (`MemoryRuns.TypesAgreeIff`).
- `search_all_tenants` hydrates by bare id (`CrossTenant.HydrationRightIff`).
- The limiter's docstring records only allowed requests; the code records denied ones too, so
  retries prolong a block (`RateLimiter.RetryExtendsTheBlock`). The two rules agree on a run exactly
  when no attempt meets its limit only through denied ones (`RateLimiter.DocumentedIff`), as for
  callers that wait out their denials.
- Repeats of one limiter at one instant overwrite one another and are not counted
  (`RateLimiter.BurstIsAllowed`, `RateLimiter.FaithfulIff`); the limit holds for the stored
  members (`RateLimiter.MembersAreLimited`). While Redis does not answer, requests get through
  unrecorded (`RateLimiter.OutagesAddTheUnanswered`).
- Storage strength is documented as 0 to 1; failures push it above 1 (`Fsrs.ElevenFailures`),
  each time exactly when it is a failure from above 0.95 (`Fsrs.StepSane`).
- The easy bonus on stability is documented as above one; at 0.796 it is a penalty, so an easy answer
  makes a memory less stable than a good one exactly when recall was below one
  (`Fsrs.StabilityByGrade`). A better first answer makes a memory count as less difficult, as one would
  expect; every later one makes it count as more difficult (`Fsrs.StrengthsByGrade`).
- Ingestion looks its nearest memory up without regard to expiry, so an expired one that is not yet
  cleaned up still makes a candidate a duplicate, similar or a contradiction (`Ingestion.FateIff`).
- `memory_dynamics` is keyed by memory id alone, so a second user's review of the same memory
  fails (`Dynamics.OneReviewerPerMemory`). So does a review of an imported row with numbers out of
  range (`Dynamics.PromoteSucceedsIff`).
- Time triggers are documented in UTC; the code drops the offset instead of applying it
  (`Intentions.UtcOnlyAtOffsetZero`).
- Import turns every text column that parses as a timestamp into one
  (`Portability.DumpRebuildsIff`).
- Import is documented as idempotent. It is on dumps and on all records that bring their own id
  and times (`Portability.ImportTwiceIsOnce`); a record that leaves one of those out is given a
  new one each time (`Portability.ImportAgainIff`, `Portability.AlwaysSameAgainIff`).

## Model

| member | source | states |
|---|---|---|
| `JobQueue.Queue.Enqueue` | mypalace/workers/queue.py:26-45 | adds one row with the caller's kind, user, payload and tenant, created now, pending, unleased, unattempted, and touches no other |
| `JobQueue.Queue.ClaimNext` | mypalace/workers/queue.py:48-93 | takes a row that is oldest among the pending, unleased (or lapsed), unlocked rows with attempts left, leases it and counts the attempt; returns nothing only if there is no such row |
| `JobQueue.Queue.ExtendLease` | mypalace/workers/queue.py:96-106 | moves the lease of a pending row and nothing else; says whether it did |
| `JobQueue.Queue.CompleteJob` | mypalace/workers/queue.py:109-131 | completes the tenant's row with the result and the time, whatever its status or lease; changes no other row and nothing of another tenant |
| `JobQueue.Queue.FailJob` | mypalace/workers/queue.py:134-164 | permanent: failed with the error and the time, unleased; otherwise records the error, keeps the status and releases the lease; other tenants' rows untouched |
| `JobQueue.Queue.ProcessOne` | mypalace/workers/runner.py:33-63 | an undisturbed iteration changes nothing or settles the oldest open row: completed iff its kind is known and the handler returned, failed iff unknown or out of attempts, else claimable again |
| `JobProtocol.AttemptsAreClaims` | mypalace/workers/queue.py:62-76 | in every run, stale and crashed workers included, attempts equal the number of claims and never pass the maximum |
| `JobProtocol.NeverBackToPending` | mypalace/workers/queue.py:117-164 | in every run a row that left pending never returns and is never claimed again |
| `JobProtocol.RowsKeepTheirRequest` | mypalace/workers/queue.py:26-45 | in every run, crashes and stale workers included, each row goes on carrying the kind, user, payload and tenant its caller gave and the clock at which it was enqueued |
| `JobProtocol.EnqueueAddsTheRequest` | mypalace/workers/queue.py:26-45 | the step that enqueues adds exactly that row, field by field |
| `JobProtocol.FirstComeFirstServed` | mypalace/workers/queue.py:61-73 | in every run a free worker's claim can take a job exactly when that is pending, unleased or lapsed, unlocked and has an attempt left, and no other such job was enqueued at an earlier clock |
| `JobProtocol.LaterJobsWait` | mypalace/workers/queue.py:61-73 | while an earlier enqueued job is waiting and unlocked, no claim takes a later one |
| `JobProtocol.ClaimWrites` | mypalace/workers/queue.py:48-93 | a claim sets the lease to its start plus the requested seconds, or the configured ones if none or zero were requested, and counts the attempt |
| `JobProtocol.ExtendWrites` | mypalace/workers/queue.py:96-106 | an extension moves the lease of a row that is still pending, and only then what the worker knows of it |
| `JobProtocol.SettleWrites` | mypalace/workers/queue.py:109-164 | what a settle writes, by the loaded copy and the outcome: result, error text (that of an unknown kind included), time and status, never looking at the row |
| `JobProtocol.StepBudget` | mypalace/workers/queue.py:65-73 | each claim lowers the attempts left over all pending jobs, and only an enqueue raises them |
| `JobProtocol.ClaimsAreBudgeted` | mypalace/workers/queue.py:65-73 | no run claims more often than its starting budget and its enqueues allow |
| `JobProtocol.StepExclusive` | mypalace/workers/queue.py:61-77 | any step from a timely state keeps holders apart and leaves finished rows alone |
| `JobProtocol.TimelyRunsAreExclusive` | mypalace/workers/queue.py:48-164 | in every interleaving where holders act before their lease passes, a job has at most one holder and a finished row is never written again |
| `JobProtocol.ClaimStealsIff` | mypalace/workers/queue.py:61-77 | a claim breaks exclusivity exactly when the job is still held, and then its lease has passed; without crashes, exactly when the claimed row still carries a lease |
| `JobProtocol.AlwaysApartIff` | mypalace/workers/queue.py:61-77 | in any run, timely or not, no job ever has two holders exactly when no claim takes a job that is still held |
| `JobProtocol.CrashFreeApartIff` | mypalace/workers/queue.py:61-77 | in crash-free runs, exactly when every claimed row has no lease set |
| `JobProtocol.StepOverwritesIff` | mypalace/workers/queue.py:109-164 | a step changes the status of a finished job exactly when it is a settle of a row that is no longer pending and writes the other final status |
| `JobProtocol.FinalIsFinalIff` | mypalace/workers/queue.py:109-164 | in any run, stale workers and crashes included, every status once final is the same in all later states exactly when no settle of the run meets that guard |
| `JobProtocol.StaleWorkerOverwrites` | mypalace/workers/queue.py:109-164 | a concrete legal run, from an empty table, that meets the guard: a completed job becomes failed |
| `JobProtocol.IterationIsARun` | mypalace/workers/runner.py:33-63 | the worker iteration of the queue is the run claim, reload, tick, settle |
| `JobProtocol.TimelyRunsAreGood` | mypalace/workers/runner.py:40-58 | every pending row whose attempts are used up is held or was lost in a crash, in every timely run |
| `JobProtocol.OnlyLostJobsAreLeft` | mypalace/workers/runner.py:40-58 | when workers are quiet and leases have passed, the pending jobs are exactly those whose holder crashed on the last attempt, or all jobs when the configured maximum is zero |
| `JobProtocol.LostForever` | mypalace/workers/queue.py:65-73 | a pending job out of attempts and without a holder is never written again by any worker, timely or not |
| `JobProtocol.LostJobsStayLost` | mypalace/workers/queue.py:65-73 | every job lost in a timely run from the start stays pending and unwritten, whatever any worker, timely or not, does afterwards |
| `JobProtocol.OneCrashLosesAJob` | mypalace/workers/queue.py:65-73 | a concrete timely run, enqueue, claim, crash, that loses a job |
| `JobProtocol.CrashFreeLeases` | mypalace/workers/runner.py:40-58 | without crashes every lease belongs to a live holder and no job is lost |
| `JobProtocol.QuietMeansDone` | mypalace/workers/runner.py:40-58 | in a crash-free timely run, quiet workers mean every job is finished, or every job pending when the configured maximum is zero |
| `MemoryModel.HydrateSpec` | mypalace/memory_service.py:440-483 | hydration keeps exactly the hits with a live row of the tenant, with their scores and in index order |
| `MemoryModel.CreateWrites` | mypalace/memory_service.py:121-177 | the new row, its vector with payload and its first version, field by field |
| `MemoryModel.ReadableUntil` | mypalace/memory_service.py:121-140 | a memory created to live d seconds is readable exactly until then and only in its tenant |
| `MemoryModel.UpdateWrites` | mypalace/memory_service.py:323-380 | what a patch changes and what it leaves, in row, vector and version log |
| `MemoryModel.TouchWrites` | mypalace/memory_service.py:303-321 | a read counts one access and sets its time on the rows read and on no other |
| `MemoryModel.DeletionIff` | mypalace/memory_service.py:382-406 | exactly the tenant's own memory goes, with its vector; the logs stay |
| `MemoryModel.UserDeletionIff` | mypalace/memory_service.py:408-438 | after a user deletion a row is left, unchanged and with its vector, exactly when it is of another tenant, another user, another agent than one given, or not of a given run |
| `MemoryModel.CleanupIff` | mypalace/memory_service.py:184-220 | after a cleanup a row is left exactly when it is of another tenant, never expires or expires later; a deleted row keeps its vector exactly when its place in the database's list is at or behind the cut, which a negative batch counts from the end |
| `MemoryModel.SupersessionWrites` | mypalace/retrieval/ingestion.py:301-388 | the log entry and the snapshot of the old row, field by field |
| `MemoryModel.ReplacementWrites` | mypalace/retrieval/ingestion.py:397-440 | a manual replacement takes type, agent, source and importance from the old memory and all else from the caller |
| `MemoryModel.ReplacementVersions` | mypalace/retrieval/ingestion.py:397-440 | the version log gets the replacement's creation and then the old memory's supersession |
| `MemoryService.Service.Create` | mypalace/memory_service.py:103-182 | a row, a point embedding its content, version 1, and a busted cache |
| `MemoryService.Service.Get` | mypalace/memory_service.py:303-321 | returns the tenant's row and counts the access; otherwise changes nothing |
| `MemoryService.Service.Update` | mypalace/memory_service.py:323-380 | patches the row, re-embeds new content under the old memory type, appends the next version, busts; a missing row changes nothing |
| `MemoryService.Service.Delete` | mypalace/memory_service.py:382-406 | removes row and point of the tenant's own memory and busts, else changes nothing |
| `MemoryService.Service.DeleteForUser` | mypalace/memory_service.py:408-438 | leaves a row exactly when it is of another tenant, another user, another agent than one given, or not of a given run; removes, chunk by chunk, the points of the others and counts them |
| `MemoryService.Service.CleanupExpired` | mypalace/memory_service.py:184-220 | leaves no expired row, removes only the vectors of the capped slice, and returns that slice's length |
| `MemoryService.Service.Search` | mypalace/memory_service.py:440-483 | live rows of the tenant in index order, each counted as read, at most `limit` with an exact index |
| `MemoryService.Service.Supersede` | mypalace/retrieval/ingestion.py:301-440 | creates the replacement, logs the supersession, demotes the old memory's review state and snapshots the old row; a missing old row changes nothing |
| `MemoryService.Service.IngestCandidate` | mypalace/retrieval/ingestion.py:214-293 | one candidate meets the fate of `Ingestion.FateIff` and leaves what `Ingestion.FateWrites` says; the memory it replaces is demoted; busts exactly when it writes; other tenants untouched |
| `MemoryService.Service.DedupAndWrite` | mypalace/retrieval/ingestion.py:195-295 | the batch loop, its three result lists and its demotions agree with candidate-by-candidate ingestion; other tenants untouched |
| `MemoryService.ReplacedAreDemoted` | mypalace/retrieval/ingestion.py:328-335 | every memory a batch replaces gets a failed review logged, unless its review state is another user's; other users' states are untouched and the store stays consistent |
| `MemoryService.Service.SearchAllTenants` | mypalace/memory_service.py:485-569 | with exact per-tenant indexes the merged hits are a best selection over all answering tenants, and results pair every live hit with its own tenant's memory exactly when no ids collide |
| `Ingestion.ContradictionSymmetric` | mypalace/retrieval/ingestion.py:149-189 | the heuristic does not depend on which text is older, and its confidence is a fraction |
| `Ingestion.ConfidentContradictionIff` | mypalace/retrieval/ingestion.py:149-189 | a confident contradiction is exactly: one side negated, two or more shared words, more than seven tenths of the shorter side |
| `Ingestion.FateIff` | mypalace/retrieval/ingestion.py:225-293 | by the nearest hit's score: duplicate exactly above 0.95; above 0.75, if the hit is a row of the tenant (expired or not), replaced exactly when one text is negated and they share two or more and over seven tenths of one side's words, else similar; written otherwise |
| `Ingestion.FateWrites` | mypalace/retrieval/ingestion.py:233-293 | a duplicate changes nothing, a similar candidate counts a read of the hit; a written one adds its row, vector and version with the call's metadata under its own; a replacing one also logs the supersession with old id, new id, reason and score, and snapshots the old row |
| `Ingestion.EveryCandidateEndsOnce` | mypalace/retrieval/ingestion.py:214-295 | each candidate ends in exactly one of written and skipped, replacements are among the written, and the space gains exactly the written ids |
| `MemoryRuns.StepSound` | mypalace/memory_service.py:103-220 | every operation keeps index agreement, numbered histories and backward supersessions |
| `MemoryRuns.RunsAreSound` | mypalace/memory_service.py:323-483 | in every run each row has a point embedding its current content for its user, agent and tenant; versions are 1..n from a creation and end in the row; supersessions point back in time |
| `MemoryRuns.MaxIsLength` | mypalace/memory_service.py:62-83 | the next version number is one past the length of the history |
| `MemoryRuns.SearchFindsRows` | mypalace/memory_service.py:440-483 | in a sound store whose payloads carry the rows' types, a search with an exact index shows only unexpired rows of the user, agent and type asked for, with the similarity of their current text, at least the minimum; it misses one only if `limit` hits are at least as close |
| `MemoryRuns.OriginsAreFixed` | mypalace/memory_service.py:323-483 | in every run a memory keeps tenant, user, agent, source, creation time and expiry while it is there, and once deleted it does not come back |
| `MemoryRuns.TimeToLiveStands` | mypalace/memory_service.py:121-140 | whatever happens after its creation, a memory with a time to live is readable exactly until that has passed or it is deleted |
| `MemoryRuns.SupersessionsAreAcyclic` | mypalace/retrieval/ingestion.py:301-335 | in every run no chain of supersessions returns to its start |
| `MemoryRuns.StepOrphans` | mypalace/memory_service.py:184-220 | an operation leaves orphan points exactly when it is a cleanup that found more rows than its batch, and none removes orphans |
| `MemoryRuns.SameIdsIff` | mypalace/memory_service.py:184-220 | after any run from empty, point ids equal row ids exactly when no cleanup pass overflowed |
| `MemoryRuns.NotDuplicateIsFar` | mypalace/retrieval/ingestion.py:214-240 | a candidate judged no duplicate is far from every memory of its user and agent |
| `MemoryRuns.CuratedRunsStaySeparated` | mypalace/retrieval/ingestion.py:195-295 | with an exact index and symmetric similarity, runs of ingestion, deletes, cleanups and reads never hold two near duplicates of one user and agent |
| `MemoryRuns.DuplicateIsStored` | mypalace/retrieval/ingestion.py:233-238 | without an overflowing cleanup, a candidate skipped as duplicate has a stored memory of its user and agent above the threshold |
| `MemoryRuns.OrphanSwallows` | mypalace/retrieval/ingestion.py:233-238 | after an overflowing cleanup a deleted memory's vector makes the same text a duplicate although nothing is stored |
| `MemoryRuns.UpdateTypesIff` | mypalace/memory_service.py:338-361 | an update leaves payload and row with the same memory type exactly when it does not change the row's type |
| `MemoryRuns.TypesAgreeIff` | mypalace/memory_service.py:338-361 | payloads carry their rows' types all through a run exactly when no update of it changes one |
| `CrossTenant.ExactAnswerIsTop` | mypalace/vector.py:75-122 | a tenant's exact answer is a best selection of its eligible points |
| `CrossTenant.QuotaFillsTheCut` | mypalace/memory_service.py:534-540 | a tenant that filled its limit leaves nothing worse above the cut |
| `CrossTenant.MergeIsTop` | mypalace/memory_service.py:534-540 | concatenating best lists, sorting stably and cutting gives a best selection of the union |
| `CrossTenant.TiesKeepTheirOrder` | mypalace/memory_service.py:532-536 | of two merged hits with one score, the earlier tenant's comes first, and of one tenant's hits the one its index put first |
| `CrossTenant.CandidateIff` | mypalace/memory_service.py:510-533 | the candidates are the points of answering tenants that match every filter given and not empty and are at least as close as the minimum |
| `CrossTenant.HydrationRightIff` | mypalace/memory_service.py:541-569 | hydration by bare id drops only dead hits, keeps the order and pairs each with its own tenant exactly when no two tenants are hit under one id of which one is live |
| `CrossTenant.CollisionShows` | mypalace/memory_service.py:541-569 | under an id that tenants collide on, every hit is shown with one and the same memory: that of the live tenant whose hits begin last in the merged list |
| `ReadCache.Cache.Get` | mypalace/cache/client.py:58-72 | the stored value or nothing; a failed read is a miss, a value that does not decode a hit and a miss |
| `ReadCache.Cache.Set` | mypalace/cache/client.py:74-81 | stores under one key, or nothing when off or cut off |
| `ReadCache.Cache.InvalidatePattern` | mypalace/cache/client.py:83-99 | the scan-and-delete loop removes exactly the matching keys; failing midway it keeps the deletions made, never touches other keys and reports none |
| `ReadCache.Cache.InvalidateTenantNamespace` | mypalace/cache/client.py:101-105 | removes exactly the keys matching the pair's pattern and counts every key the scan yields; failing midway, removes those reached and counts none |
| `ReadCache.Cache.CachedCall` | mypalace/cache/decorator.py:12-36 | a hit skips the loader and changes nothing; otherwise the loader's value is returned, and stored if the write gets through, whether the read missed or failed |
| `ReadCache.NextCallIsServed` | mypalace/cache/decorator.py:12-36 | a call whose answer could be stored decides what the next one returns, whatever that would load, unless it returned no value; other keys are left alone |
| `ReadCache.GlobIsPrefix` | mypalace/cache/client.py:101-105 | a plain pattern ending in a star matches exactly the keys it prefixes |
| `ReadCache.InvalidationIsExact` | mypalace/cache/client.py:45-105 | invalidation hits a derived key exactly when tenant and namespace agree |
| `ReadCache.KeysAreDistinct` | mypalace/cache/client.py:45-56 | derived keys have the form palace:cache:tenant:namespace:digest and agree exactly when tenant, namespace and digest do |
| `ReadCache.UnvalidatedTenantWipesOthers` | mypalace/auth/tenant.py:11 | a star as tenant id would match every tenant's search keys, and is not a valid id |
| `Jsonable.HitEqualsMissIff` | mypalace/cache/decorator.py:27-49 | a hit returns what the miss returned exactly when the value is plain JSON |
| `Jsonable.ModelsSurvive` | mypalace/cache/decorator.py:39-49 | models come back as their JSON dump, at any depth, never as text |
| `Jsonable.ReadBackIsStable` | mypalace/cache/decorator.py:39-49 | caching a value that was read back keeps it |
| `Freshness.StaleIffExpired` | mypalace/memory_service.py:14-18 | after a wait the loader answers as before exactly when no memory in the answer expired |
| `Freshness.LoadShowsTheSearch` | mypalace/api/memories.py:162-182 | the loader shows the memories that hydration finds for the request's hits, in the same order, with their id, text, type, importance and creation time and rounded scores |
| `Freshness.BustIsExact` | mypalace/memory_service.py:222-228 | busting a tenant drops exactly its keys in the namespaces memories_search and context_layered |
| `Freshness.MissesReadWhatTheyShow` | mypalace/api/memories.py:162-198 | a search that the cache answers counts no access; any other counts one on each memory it shows and on no other |
| `Freshness.QuietWritesDoNotShow` | mypalace/memory_service.py:222-228 | an operation that does not bust the cache changes no search answer |
| `Freshness.StepFresh` | mypalace/api/memories.py:162-198 | every write, search (with Redis failing the read, the write or both), wait and eviction keeps what is cached for a request what the loader would have returned when it was stored, unless the step searches for another request of the tenant with the same digest |
| `Freshness.SearchesAreFresh` | mypalace/api/memories.py:184-198 | after any run that searched for no other request of the tenant with the same digest, a search answers what the loader would return at that moment exactly when it does not come from an entry that shows a memory expired since |
| `Freshness.CollisionAnswersAnother` | mypalace/cache/client.py:45-56 | once a request is cached, another of its tenant with the same digest is answered with the first one's memories |
| `EmbeddingCache.CachedEmbedder.Embed` | mypalace/embeddings.py:101-133 | whatever Redis drops or fails, as long as the texts embedded so far and now have keys of their own, the vectors are the provider's, in order, repeats included; hits and misses grow by the number of texts; a calm Redis sends on exactly the uncached texts |
| `EmbeddingCache.CachedEmbedder.Get` | mypalace/embeddings.py:107-120 | a found vector is the provider's; each read is one hit or one miss |
| `EmbeddingCache.RepeatIsFree` | mypalace/embeddings.py:107-133 | nothing is sent on exactly when every text is cached |
| `EmbeddingCache.MissesAreSentOn` | mypalace/embeddings.py:107-133 | every uncached text is sent on as often as it occurs |
| `EmbeddingCache.MissesKeepTheirOrder` | mypalace/embeddings.py:107-133 | and in the order of the texts |
| `RateLimiter.RateLimiter.Check` | mypalace/ratelimit/limiter.py:63-108 | prune, count, record, decide; off or cut off it lets everything by |
| `RateLimiter.PruningKeepsTheWindow` | mypalace/ratelimit/limiter.py:81-90 | pruning and the 61-second expiry leave exactly the attempts of the window |
| `RateLimiter.RunsStayInStep` | mypalace/ratelimit/limiter.py:81-108 | in any run over any keys each set mirrors its key's last window and each request was allowed exactly when fewer than its limit stored members preceded it |
| `RateLimiter.MembersAreLimited` | mypalace/ratelimit/limiter.py:81-108 | any sixty-second window anywhere in any run holds at most `limit` different allowed members of a key, `limit` bounding that key's own recorded requests |
| `RateLimiter.FaithfulIff` | mypalace/ratelimit/limiter.py:81-108 | decisions count every attempt exactly when none was let by because earlier ones had overwritten each other |
| `RateLimiter.RateIsLimited` | mypalace/ratelimit/limiter.py:81-108 | if no limiter asks twice about the key at one instant, any sixty-second window anywhere in any run, outages included, holds at most `limit` allowed requests of the key among those Redis recorded, whatever limits other keys have |
| `RateLimiter.OutagesAddTheUnanswered` | mypalace/ratelimit/limiter.py:73-92 | outages included, a window lets by at most `limit` requests of a key and those that Redis did not answer |
| `RateLimiter.AllowedAfterQuiet` | mypalace/ratelimit/limiter.py:81-108 | after sixty seconds without a recorded request for its key, a request of any run gets through exactly when its limit is at least one or Redis does not answer |
| `RateLimiter.RetryAfterIsExact` | mypalace/ratelimit/limiter.py:94-108 | a denied caller is told sixty seconds; waiting them out is always enough, and at a limit of one exactly enough |
| `RateLimiter.RetryExtendsTheBlock` | mypalace/ratelimit/limiter.py:1-14 | a concrete run, and the documented algorithm's log of it: after a denied retry the code denies a request that the documented rule allows |
| `RateLimiter.DocumentedIff` | mypalace/ratelimit/limiter.py:1-14 | the code decides a whole run as the documented algorithm would exactly when no attempt met its limit only with the help of denied ones |
| `RateLimiter.PatientCallersSeeTheDocumentedRule` | mypalace/ratelimit/limiter.py:94-108 | for callers that wait sixty seconds after each denial, all decisions of a run are the documented ones |
| `RateLimiter.BurstIsAllowed` | mypalace/ratelimit/limiter.py:84-90 | at a limit of two or more, any number of requests by one limiter at one instant is allowed |
| `RateLimiter.KeysSeparateCallers` | mypalace/ratelimit/limiter.py:59-61 | keys have the form palace:rl:tenant:key:user:bucket, and callers share a set exactly when all four parts agree, even if the user id contains the separator |
| `Fsrs.StepSane` | mypalace/dynamics/fsrs.py:306-357 | one review keeps all four values in range; storage passes one exactly on a failure from above 0.95 |
| `Fsrs.RunsStaySane` | mypalace/dynamics/fsrs.py:360-448 | every review sequence keeps difficulty in [1,10], stability at least 0.1, retrieval in [0.3,1], storage in [0.5, 1 + 0.05k] for k failures since the last success |
| `Fsrs.ScoreBound` | mypalace/dynamics/fsrs.py:490-511 | the ranking score after any history lies between 0.15 and 1 + 0.015k times the importance |
| `Fsrs.ElevenFailures` | mypalace/dynamics/fsrs.py:306-357 | eleven failures in a row take storage strength to 1.05 |
| `Fsrs.RetrievabilityMonotone` | mypalace/dynamics/fsrs.py:119-153 | recall only falls with time and only rises with stability |
| `Fsrs.DueAtNinetyPercent` | mypalace/dynamics/fsrs.py:441-448 | on the day a review is due recall is exactly 0.9 |
| `Fsrs.CurveIsLinear` | mypalace/dynamics/fsrs.py:119-153 | the curve is the documented power law: its base at a recall grows linearly with time per stability |
| `Fsrs.ReviewCountsTheDays` | mypalace/dynamics/fsrs.py:386-448 | a later review d days after the last one uses the recall, the stability updates and the decay of exactly d days |
| `Fsrs.DueReviewFindsNinetyPercent` | mypalace/dynamics/fsrs.py:386-448 | a review on the day the last one set for it finds recall at exactly 0.9 |
| `Fsrs.FirstReviewIsDue` | mypalace/dynamics/fsrs.py:156-168 | a first review is due again after 0.212, 1.2931, 2.3065 or 8.2956 days, by its grade |
| `Fsrs.StoredDecaysSlowly` | mypalace/dynamics/fsrs.py:332-334 | the more is stored, the more retrieval strength is left after the same time |
| `Fsrs.WaitingPays` | mypalace/dynamics/fsrs.py:360-448 | the later a review of the same grade, the lower the recall and retrieval strength it finds and the more stability and storage it leaves |
| `Fsrs.SuccessDirections` | mypalace/dynamics/fsrs.py:225-272 | the relative gain in stability falls with stability, difficulty and recall, and there is one exactly when recall is below one |
| `Fsrs.StabilityByGrade` | mypalace/dynamics/fsrs.py:247-272 | after the first review: failure, old value, hard, easy, good in rising order of stability; easy strictly below good exactly when recall was below one |
| `Fsrs.StrengthsByGrade` | mypalace/dynamics/fsrs.py:170-357 | better answers leave more retrieval strength; good ones store most; a better first answer lowers difficulty, a better later one raises it |
| `Fsrs.DocumentedSuccess` | mypalace/dynamics/fsrs.py:225-272 | on sane states a later success follows the documented formula with the default parameters, unclamped |
| `Fsrs.DocumentedFailure` | mypalace/dynamics/fsrs.py:275-303 | on sane states a later failure follows the documented formula between 0.1 and the old stability |
| `Fsrs.StabilityDirection` | mypalace/dynamics/fsrs.py:225-303 | from any sane state a later success never lowers stability, a failure never raises it |
| `Fsrs.DifficultyContracts` | mypalace/dynamics/fsrs.py:186-222 | under the same n grades two difficulties come within (1 - w13)^n of their starting distance, clamp included |
| `Fsrs.ReviewsRunDifficulty` | mypalace/dynamics/fsrs.py:360-448 | after the first review the difficulty of a whole review run is that of its grades alone |
| `Fsrs.ReviewsForgetDifficulty` | mypalace/dynamics/fsrs.py:360-448 | two reviewed memories given the same n grades, at any times and from any states, end with difficulties within (1 - w13)^n of their starting distance |
| `Fsrs.GoodConvergesToMean` | mypalace/dynamics/fsrs.py:186-222 | n good reviews bring difficulty within (1 - w13)^n of its distance to w4 |
| `Dynamics.DynamicsService.PromoteMemory` | mypalace/dynamics/service.py:94-163 | reviews the caller's row as `Dynamics.PromoteWrites` says and logs it, or fails and changes nothing; keeps the store consistent |
| `Dynamics.DynamicsService.DemoteMemory` | mypalace/dynamics/service.py:165-179 | a review with the lowest grade; fails exactly on another user's row |
| `Dynamics.DynamicsService.ScoreMemory` | mypalace/dynamics/service.py:181-216 | scores the caller's row as `Dynamics.ScoreReports` says, creating it if missing and changing nothing else |
| `Dynamics.PromoteWrites` | mypalace/dynamics/service.py:123-157 | field by field: the state after a review of the stored numbers by the grade given, the second clock reading, one more access, user and weight kept; the log gets the recall of the days since the last access, or one |
| `Dynamics.ScoreReports` | mypalace/dynamics/service.py:193-214 | the recall of the days since the last access, or one; 0.7 of it and 0.3 of storage times the weight; 0.6 of the semantic score and 0.4 of that |
| `Dynamics.NewMemoryScores` | mypalace/dynamics/service.py:193-214 | a memory that is new scores 0.34 above 0.6 of its semantic score |
| `Dynamics.RecallFades` | mypalace/dynamics/service.py:133-214 | as the clock runs on, the recall that scoring reports and reviews log only falls, and so does the composite score of a memory whose weight is not negative |
| `Dynamics.ReviewedFadesToNinety` | mypalace/dynamics/service.py:133-214 | its stability's number of days after a review was stored, scoring reports a recall of exactly 0.9 and the next review logs it |
| `Dynamics.PromoteConsistent` | mypalace/dynamics/service.py:123-150 | rows stay sane and bounded by their logged failures, and access counts equal log rows |
| `Dynamics.PromoteSucceedsIff` | mypalace/dynamics/service.py:94-150 | a review of any stored row succeeds exactly when the grade is 1 to 4, no other user owns the row, and stability, difficulty and storage are ones whose powers and quotient the review can take |
| `Dynamics.ConsistentSucceedsIff` | mypalace/dynamics/service.py:94-150 | in a consistent store a review succeeds exactly when the grade is 1 to 4 and no other user owns the row |
| `Dynamics.OneReviewerPerMemory` | mypalace/dynamics/service.py:66-121 | in every run of reviews and scorings all logged reviews of one memory are by one user, and once it has a row every call by anybody else fails |
| `Dynamics.CompositeBound` | mypalace/dynamics/service.py:181-216 | from any consistent store and after any run of reviews and scorings, what history adds to the semantic part of the composite score lies within bounds set by importance and logged failures |
| `Intentions.CollectKeywords` | mypalace/intentions/triggers.py:33-61 | the matcher's loop returns the keywords the message contains, in their order |
| `Intentions.DueStaysDue` | mypalace/intentions/triggers.py:89-119 | a time trigger that has come due stays due |
| `Intentions.UtcOnlyAtOffsetZero` | mypalace/intentions/triggers.py:89-119 | the comparison is the documented one at every moment exactly when the timestamp's offset is missing or zero |
| `Intentions.IntentionService.Set` | mypalace/intentions/service.py:34-61 | adds one unfired row |
| `Intentions.IntentionService.Check` | mypalace/intentions/service.py:63-128 | the loop returns the rows that fire, as `CheckSpec` and the four lemmas by trigger kind spell out, sorted by priority, and leaves them marked or gone |
| `Intentions.IntentionService.Delete` | mypalace/intentions/service.py:179-196 | removes the tenant's own row only |
| `Intentions.IntentionService.CleanupExpired` | mypalace/intentions/service.py:198-213 | removes exactly the tenant's rows past expiry and counts them |
| `Intentions.CheckSpec` | mypalace/intentions/service.py:76-128 | stably by descending priority; fire-once rows are gone, others marked with the time and otherwise unchanged, the rest as they were |
| `Intentions.KeywordsAreReturned` | mypalace/intentions/triggers.py:33-61 | a check returns a keyword intention exactly when it is the caller's, unfired and unexpired and a keyword occurs (lower-cased on both sides unless case matters) or its nonempty pattern is found; with exactly those keywords in order, then the pattern |
| `Intentions.TopicsAreReturned` | mypalace/intentions/triggers.py:64-86 | the same for topics: quick keywords empty or one occurs, topic not empty, share of its words in the message at or above the threshold; with that share |
| `Intentions.TimesAreReturned` | mypalace/intentions/triggers.py:89-119 | the same for times: the target, or else the moment after which it fires, is written, parses and is not after the clock; with the one that was reached |
| `Intentions.ContextsAreReturned` | mypalace/intentions/triggers.py:191-219 | the same for contexts: exactly when the conditions fit; an unknown kind never fires |
| `Intentions.StepSpent` | mypalace/intentions/service.py:76-128 | no operation returns an id a second time or after expiry |
| `Intentions.ReturnedAtMostOnce` | mypalace/intentions/service.py:76-128 | in every run each id is returned by at most one check, fire-once or not |
| `Intentions.DueTriggerIsReturned` | mypalace/intentions/triggers.py:89-119 | a check returns a time trigger it watches exactly when that is unexpired and its target is reached |
| `Intentions.FirstDueCheckReturns` | mypalace/intentions/triggers.py:89-119 | in any run that neither deletes nor sweeps it and whose own checks all came before its target or after its expiry, the next own check returns a time trigger exactly when it is unexpired and due |
| `Intentions.DueIsNotMissed` | mypalace/intentions/triggers.py:89-119 | in such a run, once the target was reached at some moment, the next own check at any later moment returns the intention exactly when it has not expired |
| `Portability.RowToDict` | mypalace/api/portability.py:53-61 | all columns, timestamps shown as text |
| `Portability.CoerceTimestamps` | mypalace/api/portability.py:121-130 | exactly the table's text columns that parse become timestamps, all else is kept |
| `Portability.Importer.IngestLine` | mypalace/api/portability.py:168-217 | one line is ignored, counted, skipped with its reason, or merged under the target tenant: a new row, or new values for the columns it sets; it breaks exactly on JSON that is no record |
| `Portability.Importer.IngestRecords` | mypalace/api/portability.py:136-219 | the loop equals the line-by-line overlay and tally; a breaking line or a failed commit leaves the tables as they were |
| `Portability.EveryLineCounted` | mypalace/api/portability.py:168-217 | non-blank lines = tenants seen + imported + skipped, and every skip has a reason |
| `Portability.EachTableCounted` | mypalace/api/portability.py:196-217 | the summary counts, table by table, the accepted records of that type name, and all tenant records |
| `Portability.SkipsHaveTheirReason` | mypalace/api/portability.py:168-186 | what is not JSON and what has none of the seven type names is skipped with that reason |
| `Portability.RowsAreCountedOrRefused` | mypalace/api/portability.py:196-217 | a record of a known table is counted there or skipped as refused |
| `Portability.RecordWrites` | mypalace/api/portability.py:190-199 | the columns a record writes: its own values with timestamps parsed, under the target, and defaults for the rest |
| `Portability.UpsertsColumnwise` | mypalace/api/portability.py:196-202 | an accepted record inserts a row or gives the columns it sets new values in the row with its key, and touches no other |
| `Portability.ImportTwiceIsOnce` | mypalace/api/portability.py:254-255 | importing a second time records that bring their own ids and times changes nothing, whatever would be drawn by then and whatever was stored before |
| `Portability.DumpsAreComplete` | mypalace/api/portability.py:64-81 | every line of a dump carries all columns of its table |
| `Portability.CompleteIsFixed` | mypalace/api/portability.py:64-81 | a complete record brings its own id and times, so re-importing a dump is idempotent |
| `Portability.ImportAgainIff` | mypalace/api/portability.py:195-202 | importing an accepted record twice is importing it once exactly when the record carries every column whose default is drawn anew: its id, unless it is a dynamics row, and its creation and update times |
| `Portability.AlwaysSameAgainIff` | mypalace/api/portability.py:254-255 | whatever is drawn later, and as long as the rows built from the record are accepted, exactly those records are always imported idempotently; columns with constant defaults may be left out |
| `Portability.PartialImportTwiceDiffers` | mypalace/api/portability.py:199-202 | so a record without a key is not imported idempotently |
| `Portability.NothingLeavesTheTarget` | mypalace/api/portability.py:190-193 | whatever tenant a record names, every row written belongs to the target |
| `Portability.RowRoundTripsIff` | mypalace/api/portability.py:53-130 | a row survives export and import exactly when none of its text looks like a timestamp |
| `Portability.DumpRebuildsIff` | mypalace/api/portability.py:136-219 | importing a tenant's dump into an empty tenant, which takes rows like those, gives the same rows under the new tenant id exactly when no text of a dumped row looks like a timestamp |

## Left out

- Foreign services, their failures and retries: Postgres, Qdrant, FalkorDB, HTTP, gRPC and model calls; in particular the stale entries that a failed cache invalidation leaves behind, a failed version or supersession write, and a commit that succeeds and then raises.
- Concurrency of memory, intention, dynamics and import operations: their runs are sequential; only the job queue is interleaved.
- `job_service.run_async`, which writes the job table without leases; only enqueued jobs are modelled.
- Freshness of the `context_layered` cache, which reviews and session messages do not bust, and of caches after an import or a re-embedding, which never bust.
- The memory-type filter of searches after an update that changes a type: the payload keeps the old one.
- A negative maximum of attempts, which behaves as zero does.
- Type checks and constraints of the database: they show only as the import's `accepts` and `commits` parameters; an early flush that poisons the session is not modelled.
- Re-embedding after an import, and dictionary keys in cached values that are not strings.
- Layered retrieval (`_enforce_char_budget`, `_fetch_graph_context`, `assemble`): loops with easy properties.
- The text side of triggers and of the contradiction heuristic: tokenizing, negation patterns, regular expressions, context matching; they are function parameters.
- `format_for_prompt`, `list_*` reads, `prune_access_logs`, `create_batch` without inference, and the entity alias cache, whose load-on-first-register is not coherent.
- Character classes in glob patterns, which no validated tenant id can contain.
- Floating-point rounding and overflow: arithmetic is over the reals. The integer `retry_after` and the 61-second expiry are exact.
- Tenant schemas and tenant rows: each operation runs inside its own tenant's tables, which an import creates first.
- Events, metrics, tracing, audit, authentication scopes, migrations, admin pages and clients.
