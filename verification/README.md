# Verified models of an S3 orchestrator

This project models the parts of the orchestrator where a mistake loses data,
miscounts usage or serves the wrong bytes, and proves what those parts promise.
Every theorem is about all inputs, all runs or all reachable states of its model.

| files | what they model |
|---|---|
| `UsageNames`, `UsageLocal`, `UsageRedis`, `UsageFleet`, `UsageRetention`, `CounterRegistry` | usage counters: local ones, the shared Redis hashes, their names, an at-least-once flush made exactly-once by flush IDs over a fleet of instances that stall and crash, and what the store's retentions are worth |
| `Admission`, `Tracker` | usage limits: what a check sees, and that sequential admission never overspends |
| `Framing`, `Envelope`, `ChunkStream`, `ChunkReaders`, `CipherRange` | chunked envelope encryption: nonces, headers, the streaming readers under any buffer sizes, and ranged reads |
| `Keys`, `StoredForm` | wrapped data keys and their rotation; rewriting a stored copy between layer combinations |
| `Breaker`, `BackendGuard`, `Prober` | the circuit breaker, the two layers of them around a backend, and the recovery prober with its backoff |
| `Cleanup`, `Settler`, `CleanupWorker` | the cleanup queue with claims, retries and dead letters, settled by several instances at once; one settle pass; one tick of the worker |
| `Cache`, `CacheFleet` | the LRU object cache and its invalidation over lossy pub/sub |
| `Copies`, `CopyWorkers` | the removal and placement of copies, the drain and the over-replication cleaner |
| `Provisioning` | merging config and stored buckets, users and grants |
| `SeekTable` | seek-table reads through a prefetched tail |
| `Common`, `Text` | options, results, sums over maps; cutting, formatting and parsing text |

Protocols are transition systems: a state, the steps any instance may take in any
order, what every step keeps, and a theorem over every run. Code that works in
place is a class or a method with loops, proved against a function of its inputs,
and the theorems are about that function. AES-GCM and Zstandard are pairs of
functions of which only `Lawful`, `Rejects` and `LawfulCodec` are assumed, as
hypotheses of the lemmas that need them; `StoredForm.AgreementExists` shows they
can be met.

Where the code does something other than its documentation says, the model
follows the code:

- A source error of the kind `io.ErrUnexpectedEOF` ends an encrypt stream as if the
  body were whole (`ChunkStream.TruncationPassesAsWhole`); every other error
  survives (`ChunkStream.SourceErrorSurvives`).
- Client bytes that start with the envelope's magic cannot be stored without a
  layer and read back (`StoredForm.ReformKeepsMeaning` has the exact condition,
  `StoredForm.StrippedMagicIsLost` the failing inputs).
- A workload name holding a colon makes two counters share a field
  (`UsageNames.ColonWorkloadsCollide`); without one they never do.
- Redis skips a negative amount where the local counters subtract it
  (`UsageRedis.FallbackCountsAlike`).
- The registry's comment says a charge racing a swap is always accounted for. It is
  when it adds before the take reads its accumulator, and otherwise only if it adds
  nothing (`CounterRegistry.ChargesAccountedFor`, `CounterRegistry.LateChargeIsLost`).
- The backoff returns its ceiling one doubling early when the ceiling is one above
  the doubled base (`Prober.BackoffExact`).
- A call refused by its call's breaker resets the backend breaker's count
  (`BackendGuard.RefusalResetsBackendCount`).
- A healthy backend over its quota leaves the documented score range, and scores no
  better than one refusing reads at twice its quota (`CopyWorkers.ScoreBands`).
- A cleaning pass leaves one copy over the factor when its victims are all the
  copies that can still be opened (`CopyWorkers.CleanExact`), and that copy may
  score lower than one removed (`CopyWorkers.CleanKeepsBest`,
  `CopyWorkers.LowScorerKept`).
- The cleanup worker's comment says each claim of a tick takes new rows. A row
  whose settle wrote nothing comes back once the grace period has passed
  (`CleanupWorker.ComesBackExactly`, `CleanupWorker.ProcessCleanupQueue`).

## Model

| member | source | states |
|---|---|---|
| `UsageNames.FieldOfCounterName` | internal/counter/redis.go:391-417 | every counter name a charge writes is read back as the field it was written for |
| `UsageNames.ParseFieldInverts` | internal/counter/redis.go:89-107 | a field parses to its bucket, workload and counter if and only if the workload holds no colon; the counter may hold any text |
| `UsageNames.FieldNamesDistinct` | internal/counter/redis.go:89-107 | distinct (bucket, workload, counter) triples have distinct fields for colon-free workloads |
| `UsageNames.ColonWorkloadsCollide` | internal/counter/redis.go:89-91 | for every bucket and workload, a colon makes two different counters share a field |
| `UsageNames.ParseStagedKeyInverts` | internal/counter/redis.go:484-497 | a staged key parses to its backend and flush ID if and only if both are non-empty and the ID holds no colon |
| `UsageNames.ParseStagedKeySound` | internal/counter/redis.go:490-497 | whatever parses as a staged key is the staged key of what it parses to |
| `UsageNames.LiveKeysApart` | internal/counter/redis.go:478-497 | live keys never parse as staged ones and name one backend each |
| `UsageLocal.ChargeLocalAt` | internal/counter/local.go:91-103 | a charge moves exactly its own backend, bucket and workload, each counter by the charged amount, and nothing else |
| `UsageLocal.AddBatchAt` | internal/counter/local.go:139-151 | adding a batch back moves every counter by exactly what the batch carries |
| `UsageLocal.LocalCounterBackend.Charge` | internal/counter/local.go:91-103 | the counters become the charged ones; a backend not named at construction changes nothing |
| `UsageLocal.LocalCounterBackend.Take` | internal/counter/local.go:117-135 | the counters are emptied and handed over: at most one batch per backend, and together they carry every counter exactly once |
| `UsageLocal.LocalCounterBackend.Settle` | internal/counter/local.go:139-151 | an unapplied batch is added back, an applied one changes nothing |
| `UsageLocal.LocalCounterBackend.Load` | internal/counter/local.go:107-113 | adds, at every field, the sum over workloads of the backend's counters in buckets from since on |
| `UsageRedis.ChargeHashAt` | internal/counter/redis.go:222-248 | a charge to a hash moves exactly its own cells by the charged amounts, however the field names are spelled |
| `UsageRedis.FallbackCountsAlike` | internal/counter/redis.go:222-248 | Redis and the local fallback count a charge alike if and only if it is empty or no total in it is negative |
| `UsageRedis.ReadFields` | internal/counter/redis.go:391-417 | the batch read from a hash that charges wrote carries exactly what the hash holds |
| `UsageRedis.RedisCounterBackend.Charge` | internal/counter/redis.go:222-248 | an answered charge goes to the live hash and an unanswered one to the local counters, never both |
| `UsageRedis.RedisCounterBackend.Stage` | internal/counter/redis.go:305-318 | renames each live hash aside up to the first unanswered call |
| `UsageRedis.RedisCounterBackend.ReadBatch` | internal/counter/redis.go:362-386 | exactly when a staged key yields a batch, and that the batch is what the hash holds, under the key's backend and ID |
| `UsageRedis.RedisCounterBackend.Settle` | internal/counter/redis.go:285-296 | deletes exactly the applied batch's staged hash; a local batch goes back unless applied |
| `UsageFleet.StageMoves` | internal/counter/redis.go:305-318 | a rename moves the live counters to a staged hash and changes no total |
| `UsageFleet.ApplyStaged` | internal/store/sqlite/quota.go:160-236 | applying a staged batch moves its hash from pending to the store once, however often it was read; what the store drops with old buckets is accounted for |
| `UsageFleet.StoredAt` | internal/store/sqlite/quota.go:160-186 | applying a batch and dropping its backend's buckets older than 100 days, what stays and what goes add up to what was there and the batch |
| `UsageFleet.UnstageKeeps` | internal/counter/redis.go:285-296 | deleting a staged hash that was applied changes no total |
| `UsageFleet.StepConserves` | internal/counter/redis.go:222-386 | every step, an expiring hash, a prune of flush IDs or old buckets and a removed backend included, keeps the balance of every counter |
| `UsageFleet.StepWellformed` | internal/counter/redis.go:222-386 | every step keeps flush IDs unique, hashes readable, and each batch in hand backed by its hash or already applied |
| `UsageFleet.StepTimely` | internal/store/sqlite/quota.go:218-236 | every step keeps an applied flush ID remembered for as long as its hash, or a batch read from it, can still be applied |
| `UsageFleet.Recalled` | internal/store/core/usagelimits.go:348-350 | a waiting batch was applied before if and only if the store still remembers its ID |
| `UsageFleet.UsageConserved` | internal/counter/redis.go:222-386 | after any run of charges, failures, renames, repeated reads, applies, prunes, lost answers, expiries, removals and crashes, if no flush holds a batch past the five days by which an applied ID outlives its hash, each unit charged is in exactly one of the store, the live hash, an unapplied staged hash, an instance's counters, a batch in hand, dropped by the store with an old bucket or a removed backend, or lost with a crash or a lapsed live hash |
| `UsageFleet.SettledExactly` | internal/counter/tracker.go:315-336 | once everything that can be is flushed, the store holds exactly what was charged, was not dropped by it, was not lost and did not lapse unapplied, even where a delete was missed |
| `UsageFleet.ForgottenIdDoubles` | internal/store/sqlite/quota.go:218-236 | a waiting batch applied before whose ID was forgotten is applied twice: the books balance if and only if it was empty |
| `UsageFleet.LocalBatchNeedsAtomicStore` | internal/counter/local.go:139-151 | a batch without an ID that landed although the store reported failure unbalances the books unless it was empty |
| `UsageRetention.RowIsWhole` | internal/store/sqlite/quota.go:160-186 | while its backend is not removed, a row holds all that was ever applied to it if and only if nothing was, or no new batch of its backend was applied more than 100 days after its bucket; after one that was, it holds nothing for good |
| `UsageRetention.SlowFlushDoubles` | internal/store/sqlite/quota.go:218-236 | for every call charged, a run in which a flush holds its batch past the margin counts it twice |
| `UsageRetention.MarginIsExact` | internal/store/core/usagelimits.go:345-350 | the books balance in every run if and only if no flush may hold a batch for longer than an applied ID outlives its hash |
| `CounterRegistry.Registry.Get` | internal/counter/registry.go:46-62 | the key's accumulator, fresh and zero on first use, the same one after that |
| `CounterRegistry.Registry.SwapAll` | internal/counter/registry.go:78-84 | hands over everything held and leaves nothing |
| `CounterRegistry.ChargesAccountedFor` | internal/counter/local.go:91-135 | over every interleaving of charges and takes, what is missing is the net of what was added to accumulators already read; nothing is when no addition is late, and, with no negative amount, only when no late addition counts anything |
| `CounterRegistry.LateChargeIsLost` | internal/counter/registry.go:75-84 | a charge that resolves its accumulator before a swap and adds after the take read it is in neither batch |
| `Admission.PoolCharge` | internal/counter/tracker.go:89-97 | counts how often an operation charges a pool |
| `Admission.FitsKeepsBound` | internal/counter/tracker.go:106-121 | a call admitted on what was seen keeps within bounds any usage not above what was seen |
| `Admission.LoadAdds` | internal/counter/local.go:107-113 | counters that add up key by key load up to the sum |
| `Admission.SeesAllSpent` | internal/counter/tracker.go:53-58 | a check sees at least what was spent this cycle, with the baseline of this cycle or any earlier one |
| `Admission.StepGood` | internal/counter/tracker.go:53-121 | every step keeps the baseline true, the spending counted and every bound held |
| `Admission.NeverOverspends` | internal/counter/tracker.go:53-250 | over any run of checks, records, resets, failed flushes, and flushes refreshed before the next check, with cycles no longer than the store keeps buckets, spending in a cycle stays within every bounded byte limit and pool |
| `Admission.MisalignedOverspends` | internal/store/core/usagelimits.go:341-356 | a reset inside an hour bucket lets calls at the reset overspend, for every such calendar |
| `Admission.StaleCheckOverspends` | internal/counter/tracker.go:315-336 | a check between a flush and its refresh overspends, for every byte limit |
| `Tracker.UsageTracker.Record` | internal/counter/tracker.go:73-86 | charges the call, its bytes and each pool of its operation to the current bucket |
| `Tracker.UsageTracker.WithinLimits` | internal/counter/tracker.go:106-163 | admits exactly when the backend is unlimited or flushed plus unflushed plus the call fits every bounded dimension |
| `Tracker.JudgedAlike` | internal/counter/tracker.go:53-58 | a check is judged by the same baseline and window as the model of one backend over its cycles |
| `Tracker.PoolsFit` | internal/counter/tracker.go:167-175 | true exactly when every bounded pool the operation charges has room |
| `Tracker.UsageTracker.FlushUsage` | internal/counter/tracker.go:315-336 | over local counters, per backend all its counters move to the store, which may drop only buckets older than 100 days, or all stay; a flush that succeeds leaves none |
| `Tracker.UsageTracker.RefreshUsage` | internal/counter/tracker.go:213-250 | each backend's baseline becomes its flushed total with its current cycle; a read that fails changes none |
| `Envelope.BigEndianInverts` | internal/encryption/chunk.go:311-318 | the index bytes mixed into a nonce determine the index |
| `Envelope.NoncesDistinct` | internal/encryption/chunk.go:311-318 | no two chunk indexes of one stream give the same nonce, the uniqueness section 8 of NIST SP 800-38D requires |
| `Envelope.StreamNoncesDistinct` | internal/encryption/chunk.go:193-219 | in the frames of any text, no two of the first 2^64 start with the same nonce |
| `Envelope.DeriveNonceInto` | internal/encryption/chunk.go:311-318 | writes the base nonce exclusive-ored with the index in place |
| `Envelope.HeaderInverts` | internal/encryption/chunk.go:326-357 | a header reads back as what it was built from if and only if the reader accepts the chunk size |
| `Envelope.FrameSize` | internal/encryption/chunk.go:193-219 | a frame is its chunk plus nonce and tag |
| `ChunkStream.EncryptsFrames` | internal/encryption/chunk.go:193-219 | over a clean source the encrypt reader yields exactly the frames of the text |
| `ChunkStream.DecryptsFrames` | internal/encryption/chunk.go:255-291 | frames decrypt to the text they were made from, from any starting index |
| `ChunkStream.SourceErrorSurvives` | internal/encryption/chunk.go:131-143 | an encrypt stream ends as io.EOF if and only if its source ended in one of the two end-of-file kinds |
| `ChunkStream.BrokenSourceNeverEndsClean` | internal/encryption/chunk.go:131-143 | a decrypt stream over a failing source never ends as io.EOF |
| `ChunkStream.TruncationPassesAsWhole` | internal/encryption/chunk.go:131-143 | a body cut short with io.ErrUnexpectedEOF inside a chunk is encrypted as if whole |
| `ChunkStream.CiphertextSizeByChunks` | internal/encryption/range.go:22-36 | the computed size is the header, the text and the overhead of each chunk |
| `ChunkStream.EnvelopSize` | internal/encryption/range.go:22-36 | the size computed before encrypting is the size of the envelope |
| `ChunkReaders.Source.ReadFull` | internal/encryption/chunk.go:131-143 | exactly n bytes, or what was left and the error that ended it |
| `ChunkReaders.ChunkStreamState.ReturnBufs` | internal/encryption/chunk.go:95-101 | buffers are dropped and release fires at most once, ever |
| `ChunkReaders.ChunkStreamState.Emit` | internal/encryption/chunk.go:121-125 | copies out a prefix of the buffer and keeps exactly the rest |
| `ChunkReaders.ChunkStreamState.Drain` | internal/encryption/chunk.go:106-118 | answers from the buffer, or io.EOF once ended, and says when a chunk has to be produced |
| `ChunkReaders.ChunkStreamState.ReadChunk` | internal/encryption/chunk.go:131-143 | one classified fill of a chunk |
| `ChunkReaders.EncryptReader.Read` | internal/encryption/chunk.go:193-219 | whatever the buffer size, the bytes returned are the next bytes of the whole stream, io.EOF means nothing is left, progress is made, and release fires at most once |
| `ChunkReaders.DecryptReader.Read` | internal/encryption/chunk.go:255-291 | the same for the decrypt reader, with a chunk that does not open reported as corrupt |
| `ChunkReaders.EncryptWith` | internal/encryption/chunk.go:160-219 | read in any sequence of buffer sizes, an encrypt reader returns its whole stream and ends as it should, releasing once |
| `ChunkReaders.DecryptWith` | internal/encryption/chunk.go:236-291 | the same for a decrypt reader |
| `ChunkReaders.StreamThrough` | internal/encryption/chunk.go:160-291 | text streamed through both readers in any buffer sizes comes back, and the stored size is the computed one |
| `CipherRange.ChunkSizeOfMany` | internal/encryption/range.go:42-51 | with two or more chunks, the chunk size recovered from the two lengths is exactly the power of two used |
| `CipherRange.ChunkSizeOfOne` | internal/encryption/range.go:42-51 | with one chunk it is the smallest power of two holding the text |
| `CipherRange.ChunkSizeOfExact` | internal/encryption/range.go:42-51 | a size is returned if and only if some power of two reproduces the two lengths, and then it does |
| `CipherRange.SameLayout` | internal/encryption/range.go:42-51 | the recovered size lays the text out in the same frames |
| `CipherRange.ParseRangeInverts` | internal/util/byterange/byterange.go:28-65 | a range header resolves to the bytes it names, clamped to the object as section 14.1.2 of RFC 9110 asks |
| `CipherRange.FetchHonours` | internal/util/byterange/byterange.go:28-65 | sending the header and resolving it answers every range with its clamped stretch |
| `CipherRange.FetchesOwnFrames` | internal/encryption/range.go:67-101 | the bytes fetched are exactly the frames of the chunks the range overlaps |
| `CipherRange.RangedReadIsSlice` | internal/encryption/encryption.go:191-222 | for every text, power-of-two chunk size and range, fetching, decrypting and windowing gives exactly those bytes |
| `CipherRange.WholeReadIsText` | internal/encryption/encryption.go:191-222 | a whole read recovers its parameters from the header and gives the text back |
| `Keys.UnwrapsExactly` | internal/encryption/key.go:158-185 | a wrapped data key unwraps to itself if and only if it is looked up under its key's ID or one no configured key carries |
| `Keys.PackInverts` | internal/encryption/encryption.go:240-257 | packed key data unpacks to its parts if and only if it holds a wrapped key |
| `Keys.RotationKeepsAccess` | internal/ops/encryption.go:154-184 | a row rotates if and only if it opens, and then keeps its base nonce and data key under any provider still holding the primary |
| `Keys.PassKeepsAccess` | internal/ops/encryption.go:115-184 | a pass changes no row's access and leaves no stale row it could move off its old key |
| `Keys.RotateKey` | internal/ops/encryption.go:115-144 | re-wraps exactly the stale rows nothing replaced meanwhile, and counts as rotated, failed and skipped exactly the rows that took each turn |
| `StoredForm.SealThenUnseal` | internal/storedform/storedform.go:240-303 | sealing gives the envelope of the computed size, and unsealing gives the text back |
| `StoredForm.RecodeKeeps` | internal/storedform/storedform.go:397-437 | the compression half hands on bytes its form decodes to the client's, with true sizes |
| `StoredForm.ReformKeepsMeaning` | internal/storedform/storedform.go:340-369 | a successful reform has exactly the wanted layers, the same content hash and true sizes, and still opens to the client's bytes if and only if it keeps a layer or they do not start with the envelope's magic |
| `StoredForm.StrippedMagicIsLost` | internal/storedform/storedform.go:340-369 | every text that starts with the magic, sealed and then stripped of its seal, is rewritten without an error and no longer opens |
| `StoredForm.ChainKeepsMeaning` | internal/storedform/storedform.go:340-369 | any chain of reforms that succeeds ends with exactly the layers last wanted and the same content hash, and opens to the client's bytes if and only if the last reform keeps a layer or they do not start with the magic |
| `StoredForm.MagicStops` | internal/storedform/storedform.go:340-369 | bytes that start with the magic and are not recorded as encrypted are refused by every further reform |
| `StoredForm.SealedRangeIsSlice` | internal/encryption/encryption.go:191-222 | a range of a sealed copy, opened from its row alone, is that slice of what was sealed |
| `StoredForm.RotatedOpensAlike` | internal/ops/encryption.go:154-184 | after rotation the untouched bytes open alike, whole and in every range |
| `StoredForm.Reformed.Release` | internal/storedform/storedform.go:145-150 | frees each buffer the reform opened once; a second release frees nothing |
| `StoredForm.EncodeInto` | internal/storedform/storedform.go:422-437 | keeps its buffer only when the encoding is used, and nothing on a decline or an error |
| `StoredForm.RecodeInto` | internal/storedform/storedform.go:397-418 | fills the form in place and lists exactly what it opened |
| `StoredForm.ReformInto` | internal/storedform/storedform.go:340-391 | returns the reform of its arguments; on success exactly its release list is open, on failure nothing is |
| `Breaker.BreakerFollowsHistory` | internal/breaker/breaker.go:168-235 | after any history the breaker is open if and only if some event tripped it, or completed threshold failures with no success or recovery among them, and no recovery came after; its count is the most failures of any unbroken run up to now |
| `Breaker.CircuitBreaker.PostCheck` | internal/breaker/breaker.go:181-235 | counts a failure or resets, opens at the threshold, and says whether it just opened |
| `Breaker.CircuitBreaker.TripOn` | internal/breaker/breaker.go:195-202 | opens a closed breaker and leaves an open one as it was |
| `Breaker.CircuitBreaker.RecoverNow` | internal/breaker/breaker.go:206-213 | closes the breaker and clears its count |
| `BackendGuard.StepConsistent` | internal/backend/circuitbreaker.go:109-142 | every step keeps the served set agreeing with the breakers and the events telling it |
| `BackendGuard.GuardInvariant` | internal/backend/circuitbreaker.go:109-292 | after any interleaving of requests and recoveries: served bits agree with breakers, no closed breaker is at its threshold, backend events alternate and the last is Open exactly when some call is refused, and every failure that reached the backend is counted once by the breaker of its scope |
| `BackendGuard.QuietCountsExactly` | internal/backend/circuitbreaker.go:165-181 | with nothing in flight each breaker has counted exactly the failures of its scope |
| `BackendGuard.OnlyRecoveryCloses` | internal/breaker/breaker.go:206-235 | only its own recovery closes a breaker |
| `BackendGuard.ReachesThroughBoth` | internal/backend/circuitbreaker.go:282-292 | in every run, each request that reached the backend was let in by an earlier step that found the backend breaker closed and passed by a later one that found its call's breaker closed |
| `BackendGuard.RefusalResetsBackendCount` | internal/backend/circuitbreaker.go:282-292 | a request refused by its call's breaker resets the backend breaker's count |
| `BackendGuard.ReachedIsServed` | internal/backend/circuitbreaker.go:197-233 | a request that ran alone reached the backend if and only if its call was served |
| `BackendGuard.RequestIsSteps` | internal/backend/circuitbreaker.go:282-292 | what a whole request does to the breakers, the served bits and the events is what a sequence of protocol steps does, for a request refused outside, refused inside, or answered |
| `BackendGuard.CircuitBreakerBackend.PostCallCheck` | internal/backend/circuitbreaker.go:239-262 | one call's result updates its breaker, its served bit and the reported events together |
| `BackendGuard.CircuitBreakerBackend.PostBackendCheck` | internal/backend/circuitbreaker.go:239-262 | the same for the backend breaker |
| `BackendGuard.CircuitBreakerBackend.Request` | internal/backend/circuitbreaker.go:282-292 | returns the request's outcome, which `BackendGuard.RequestIsSteps` shows to be the protocol's steps from any state |
| `Prober.BackoffFor` | internal/util/backoff/backoff.go:25-37 | the loop gives the doubled and capped wait, the ceiling for a negative count |
| `Prober.BackoffExact` | internal/util/backoff/backoff.go:25-37 | the wait is base times two to the attempts, capped, if and only if the ceiling is not exactly one above it |
| `Prober.CeilingTakenEarly` | internal/util/backoff/backoff.go:25-37 | one doubling of 1 under a ceiling of 3 waits 3 |
| `Prober.DoubledGrows` | internal/util/backoff/backoff.go:25-37 | waits never shrink and stay between base and ceiling |
| `Prober.RecoveryProber.Probe` | internal/breaker/recovery.go:70-106 | a check runs only while the breaker is open, due and admitted; only a passing one recovers it; a refused admission leaves the schedule unchanged |
| `Prober.ChecksSpaced` | internal/breaker/recovery.go:70-114 | over every sequence of ticks, the checks of an outage, the one that passes included, are at least the current wait apart, the first a full wait after it was seen, and all but the last failed |
| `Prober.WaitsGrow` | internal/breaker/recovery.go:111-114 | those waits never shrink and stay between max(open timeout, tick) and the cap |
| `Cleanup.RetryWaits` | internal/cleanup/settler.go:324-335 | a retried row waits at least a minute and at most a day |
| `Cleanup.StepSafe` | internal/store/sqlite/cleanup.go:75-232 | every step of every instance keeps the queue safe |
| `Cleanup.SettlementSafe` | internal/cleanup/settler.go:115-335 | over every interleaving, removed backends included, each row ever queued is in exactly one of queue, retired, dead-lettered or deleted with its backend, is retired only once its bytes are gone for good or its own delete found its backend not registered, stays below the attempt ceiling, and every place queued for deletion is gone, still named by a row or a dead letter, or was given up by such a row or with its backend |
| `Cleanup.OutcomeIsFinal` | internal/store/sqlite/cleanup.go:153-232 | a row's outcome never changes |
| `Cleanup.OutcomeByHolder` | internal/store/sqlite/cleanup.go:143-217 | an outcome is written by the holder of the row's current claim on its own delete's result, by the sweep of a missing path, or by the removal of its backend |
| `Cleanup.LostClaimStaysLost` | internal/store/sqlite/cleanup.go:88-148 | a claim taken over or given up never holds its row again |
| `Settler.DeleteAll` | internal/cleanup/settler.go:174-214 | each row gets its own path's result from one request per backend naming exactly that backend's paths; unregistered and unadmitted backends are not asked |
| `Settler.CleanupStore.CompleteCleanupItems` | internal/store/sqlite/cleanup.go:153-170 | retires exactly the rows still held, all or none, and names them |
| `Settler.CleanupStore.RetryCleanupItem` | internal/store/sqlite/cleanup.go:182-195 | one more attempt and no claim, only while the claim holds |
| `Settler.CleanupStore.MoveCleanupToDLQ` | internal/store/sqlite/cleanup.go:201-232 | the row leaves the queue for the dead letters, only while the claim holds |
| `Settler.SettleFailed` | internal/cleanup/settler.go:266-335 | a failed delete retries within the budget and dead-letters at its end |
| `Settler.Retire` | internal/cleanup/settler.go:220-247 | every gone row is retired in one call and reported as retired, absent or lost |
| `Settler.SettleItems` | internal/cleanup/settler.go:115-139 | every row gets exactly the result and the fate its delete, its claim and the store decide, and no other row changes |
| `Settler.SettleIsAStep` | internal/cleanup/settler.go:115-139 | settling a row does to it exactly what the protocol's step does, and nothing to any other |
| `CleanupWorker.ClaimPendingCleanups` | internal/store/sqlite/cleanup.go:75-128 | claims distinct rows that were claimable, soonest due and then oldest first, each under the new claim, changes nothing else, and leaves none claimable when it comes back short |
| `CleanupWorker.FirstInOrder` | internal/store/sqlite/cleanup.go:88-104 | the first rows by due time and age, up to the limit, and no row left out comes before one taken |
| `CleanupWorker.ComesBackExactly` | internal/worker/cleanup.go:101-107 | exactly when a claimed row can be claimed again: after its backoff if it was retried, after the grace period if nothing about it was written, never once it left the queue |
| `CleanupWorker.SuccessIsRetired` | internal/cleanup/settler.go:220-262 | a row just claimed is reported a success if and only if it was retired |
| `CleanupWorker.RunBatch` | internal/worker/cleanup.go:117-123 | a batch takes only claimable rows, leaves each retired, dead-lettered, backing off or under its claim, and makes no progress if and only if it retired none |
| `CleanupWorker.ProcessCleanupQueue` | internal/worker/cleanup.go:108-130 | with time passing between claims, a tick takes at most twenty batches of fifty, touches only rows claimable by its last claim, claims none twice if its claims fall within the grace period and a minute, leaves none claimable when it ends for want of rows, and stops on a cancel or a failed claim with what it settled |
| `Cache.IsCopyOfExact` | internal/internalkey/internalkey.go:68-82 | a path is a copy if and only if it is the key or the key, the separator and a write id |
| `Cache.ScanCopyOf` | internal/internalkey/internalkey.go:68-82 | the scan decides exactly that |
| `Cache.CopiesApart` | internal/internalkey/internalkey.go:50-82 | a write's path belongs to its object and no other, except an object whose key is that path |
| `Cache.FittingIsLongest` | internal/cache/memory.go:124-157 | eviction keeps the longest most recent run that fits, or nothing |
| `Cache.PutFits` | internal/cache/memory.go:124-157 | after a put the new entry is in front of that run, or the cache is empty when the entry alone is too big, and the bound holds |
| `Cache.MemoryCache.Get` | internal/cache/memory.go:88-111 | answers with an unexpired entry and moves it to the front, drops an expired one, and counts |
| `Cache.MemoryCache.PutBytes` | internal/cache/memory.go:124-157 | the list, index and byte count become those of the put |
| `Cache.MemoryCache.EvictLocked` | internal/cache/memory.go:233-240 | drops exactly the least recently used entry |
| `Cache.MemoryCache.RemoveLocked` | internal/cache/memory.go:225-230 | drops exactly one entry and its size |
| `Cache.MemoryCache.RemoveMatching` | internal/cache/memory.go:176-190 | keeps exactly the entries that do not match, in order, and counts the rest |
| `Cache.MemoryCache.Clear` | internal/cache/memory.go:195-205 | empties the cache and counts what went |
| `Cache.MemoryCache.Apply` | internal/cache/invalidation.go:31-43 | drops exactly what the invalidation names |
| `Cache.LruRefinesHistory` | internal/cache/memory.go:88-240 | after any history no key is held twice, the bound holds, order is last use, and each entry is the last stored for its key and not since dropped |
| `Cache.HitIsLastPut` | internal/cache/memory.go:88-111 | a hit is the last unexpired entry stored and not since dropped |
| `Cache.StoredIsFound` | internal/cache/memory.go:88-157 | an entry that fits is found next, until it expires |
| `CacheFleet.OnMessage` | internal/sharedstate/topic.go:46-60 | a readable message drops what it names; a new subscription or an unreadable one empties the cache |
| `CacheFleet.StepCoherent` | internal/counter/redis.go:555-584 | every step of every instance keeps coherence |
| `CacheFleet.FleetCoherent` | internal/sharedstate/topic.go:30-60 | in every run with lost connections, an entry cached before an announcement naming it survives only while its instance is unsubscribed or has that announcement or an emptying message pending |
| `CacheFleet.CaughtUpServesNothingStale` | internal/cache/invalidation.go:31-43 | a subscribed instance that handled its messages serves nothing announced as dropped |
| `Copies.DropCounts` | internal/store/core/objects.go:278-336 | a removal takes one copy and only above the number to keep |
| `Copies.DropKeepsReadable` | internal/store/core/objects.go:319-336 | a removal never takes the last copy that can be opened |
| `Copies.PlaceKeepsReadable` | internal/store/core/objects.go:431-477 | neither does a placement or a move |
| `Copies.NeverLost` | internal/worker/drainer.go:282-356 | over any interleaving of drains and cleaning from stale locations, replication and client writes, an undeleted object has a copy and every copy holds the last version written |
| `Copies.WorkersKeepEnough` | internal/worker/overreplication.go:210-267 | the cleaner never takes an object below its factor, and no worker takes the last copy that can be opened |
| `CopyWorkers.ScoreBands` | internal/worker/overreplication.go:186-204 | a healthy backend scores in [2, 3] if and only if it is within its quota, and above one refusing reads if and only if below twice its quota |
| `CopyWorkers.FullerScoresLower` | internal/worker/overreplication.go:186-204 | of two healthy backends the more utilised scores lower, exactly |
| `CopyWorkers.SortByScore` | internal/worker/overreplication.go:210-220 | an ascending permutation |
| `CopyWorkers.CleanExact` | internal/worker/overreplication.go:210-267 | undisturbed, a pass leaves exactly what sorts after the excess, and one copy more if and only if the excess holds every copy that can be opened: then the last of those in order, the only readable copy left |
| `CopyWorkers.CleanKeepsBest` | internal/worker/overreplication.go:210-267 | every copy kept scores at least as high as every copy removed if and only if no copy was spared, or the spared one scores as the last victim does |
| `CopyWorkers.LowScorerKept` | internal/worker/overreplication.go:210-267 | four copies of which only the lowest scorer opens: a pass down to two keeps it and removes one that scores higher |
| `CopyWorkers.CleanObject` | internal/worker/overreplication.go:210-267 | sorts, drops the first excess victims that may go, counts removals and failures, never goes below the factor, and undisturbed leaves exactly the set of the exact law |
| `CopyWorkers.OtherCopyBackend` | internal/worker/drainer.go:291-298 | finds another backend exactly when the lookup names one |
| `CopyWorkers.MoveOff` | internal/worker/drainer.go:333-356 | exactly when a move succeeds, a failing store included; success takes the object off its backend with no copy fewer, otherwise nothing changes |
| `CopyWorkers.DrainOne` | internal/worker/drainer.go:282-328 | exactly what a drain of one object comes to under failing drops and moves; success takes the object off the backend and leaves a copy, one that can be opened if there was one; otherwise nothing changes, however stale the lookup |
| `Provisioning.UnionMembers` | internal/provisioning/view.go:283-336 | a union holds a permission if and only if a selected grant carries it |
| `Provisioning.ExpandWildcardGrants` | internal/provisioning/view.go:283-301 | every declared bucket gets the union of the user's wildcards, and so does the wildcard map |
| `Provisioning.ApplyNamedGrants` | internal/provisioning/view.go:305-336 | a named grant displaces the wildcard on its declared bucket and unions with its like; one notice per grant naming an undeclared bucket |
| `Provisioning.GrantsByUser` | internal/provisioning/view.go:271-278 | the merged grants equal their declarative meaning for every user and bucket |
| `Provisioning.GrantedMeans` | internal/provisioning/view.go:267-336 | a permission holds on a declared bucket if and only if a grant naming it carries it, or none names it and a wildcard does |
| `Provisioning.AdminGrantsByUser` | internal/provisioning/view.go:342-355 | each resource gets the union of the user's grants naming it |
| `Provisioning.OrderDoesNotMatter` | internal/provisioning/view.go:271-355 | the merge is the same for every order of the grant rows, notices included |
| `Provisioning.MergeBuckets` | internal/provisioning/view.go:161-187 | config's buckets, then the stored ones whose name is free; the rest are shadowed with a notice each; declared is every name |
| `Provisioning.SplitIsExact` | internal/provisioning/view.go:161-187 | the stored buckets split exactly into served and shadowed |
| `Provisioning.ServedByConfig` | internal/provisioning/view.go:161-187 | with distinct stored names, a bucket is served if and only if config does not have its name |
| `Provisioning.MergeStoredUsers` | internal/provisioning/view.go:228-265 | every stored user holds exactly what the rows give it, and exactly the enabled credentials of known users are kept |
| `SeekTable.RangeEnv.FetchAt` | internal/compression/ranged.go:195-208 | succeeds if and only if the range lies inside and the answer has its length, is then exactly that slice, and each failure is named |
| `SeekTable.RangeEnv.ReadFooter` | internal/compression/ranged.go:151-159 | keeps the tail of the object, or leaves what it had |
| `SeekTable.RangeEnv.ReadSkipFrame` | internal/compression/ranged.go:164-169 | the last bytes exactly, for any 64-bit offset a footer names, from the tail or a fetch |
| `SeekTable.RangeEnv.GetFrameByIndex` | internal/compression/ranged.go:173-185 | for any unsigned offset and size, exactly that slice or a refusal, with no wrap-around, and exactly when |

## Left out

- Sizes, counters and offsets are unbounded integers except in `SeekTable`, in the
  parsed numbers of `Text` and in the ranged read, which assumes the envelope fits
  64 bits; the overflow of a counter is not modelled.
- Prober.RecoveryProber.Probe: the count of failed checks does not wrap; the source
  keeps it in 32 bits, which only 2^31 failed checks in one outage exhaust.
- Cleanup.LostClaimStaysLost: assumes instances agree on one clock; skew between
  instances is not modelled.
- Cleanup.SettlementSafe: assumes a path queued for deletion is not written again,
  which the per-write paths give; rows from before those paths are not modelled.
- UsageRetention.RowIsWhole: says nothing of rows whose backend was removed and charged
  again; what a removal drops is a term of `UsageFleet.UsageConserved`.
- UsageFleet.UsageConserved: Redis and the database agree on one clock.
- Tracker.UsageTracker.FlushUsage: flushes local counters only; the batches of a
  shared backend are the steps of `UsageFleet`.
- Admission.NeverOverspends: one instance with local counters and limits that do not
  change; concurrent checks may overshoot, as the source says.
- Copies.NeverLost: removals that keep no copy, such as reconcile dropping a row for
  bytes it found missing, are not worker steps and are left out.
- Cache: an entry's size is given rather than summed from its data and metadata.
- ChunkReaders: pooled buffers are values; that two readers never share one is not
  stated, only that each returns its own once.
- CleanupWorker.ProcessCleanupQueue: nobody else claims during the tick; several
  instances at once are the subject of `Cleanup`.
- The pages of a drain, which decide how much one tick does, not what a step may do.
- Goroutine races below the steps modelled, except the counter registry's.
- AES-GCM, HMAC and Zstandard themselves; Redis, S3, Vault and HTTP clients.
- The metadata store beyond the writes modelled, the write coordinator's retries,
  and Postgres, whose writes match the SQLite ones.
- Root and config users of the merged view, configuration validation, metrics,
  logging, audit records, dependency wiring and process supervision.
