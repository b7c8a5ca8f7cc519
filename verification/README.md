# FluxDNS in Dafny: cache, snapshots, configuration editing

This project models the parts of FluxDNS whose correctness is hardest to see from the code, and proves what they
promise. It uses Dafny 4.11 and nothing else; `dafny verify dfyconfig.toml` checks all of it.

What is modelled, by component:

- **Single flight** (`SingleFlight`, `MemoryCacheStore`): leaders, followers, wakers and shutdown of the in-memory
  cache store, as a state machine over every interleaving, and as a class that performs the locked sections.
- **Records** (`Eviction`, `RecordStore`, `MemoryCacheStore`): lookup, compare-and-swap, eviction by weight and
  invalidation, compared with a reference map that never purges.
- **Commit pipeline** (`CacheFacade`, `CommitPipeline`): every path a leader lease can take from a request to its
  completion.
- **Lifetimes** (`Admission`, `Lifetime`): time to live, optimistic window, and what a save and restore does to both.
- **Configuration files** (`ConfigTransaction`, `ConfigFingerprint`): stage, journal, rename, crash anywhere, recover.
- **Snapshots** (`SnapshotOwner`, `ByteCodec`, `RecordCodec`, `CacheKeyCodec`, `SnapshotFile`): who may publish a file,
  and that what is written is read back.
- **Configuration editing** (`MergeChanged`, `RenameReferences`, `SourceEdit`): writing back only what changed,
  renaming references, splicing text.
- **DoH routes** (`DohRoute`): path templates and the decision whether two of them overlap.
- **Background work** (`LateFinalizer`, `RefreshAdmission`, `Telemetry`): bounded task sets, refresh slots, and the
  telemetry queue.
- **Latency report** (`LatencyReport`): percentiles from logarithmic buckets.

`Basics`, `CachePort` and `Counting` hold shared vocabulary.

A function stands for a locked section or a pure computation; a class performs the same work step by step and is
proved to agree with the functions; a state machine interleaves the sections, and its theorems hold for every run. The
clock, the digest, the DNS parser and the spelling rules of configuration values are parameters.

Three properties that one might expect turned out not to hold as they stand. Each is stated with an input and with the
condition under which it does hold:

- A compare-and-swap can report an insertion and evict that very record at once; two writes to an empty store show it
  (`RecordStore.InsertedRecordCanBeEvicted`). The record stays exactly when it and all younger records fit the limit
  (`RecordStore.InsertedRecordStaysExactlyWhenItFits`).
- A restored entry can carry a later expiry than the original on an absolute scale: exactly when the original expiry had
  passed at the restoration, or the encoder read the wall clock with a longer delay than the decoder. It can be answered
  fresh after its original expiry exactly when that delay is longer and also outlasts the restoration
  (`Lifetime.RestoredExpiryShift`; inputs in `Lifetime.PassedExpiryMovesLater` and `Lifetime.DelayedReadingKeepsFresh`).
- The number that an invalidation reports can be smaller than a store that never purges would report
  (`RecordStore.InvalidationCountsCanDiffer`). They agree exactly when no lookup or write touched one of the matching
  records past its retention (`RecordStore.InvalidationCounts`).

Two more hold under a condition on what the code is used with, and the condition is exact:

- The configuration transaction compares 64-bit fingerprints, not contents. It is atomic exactly when the fingerprint
  tells the two contents apart (`ConfigTransaction.AtomicExactlyWhenDistinguished`). The entry points above it only
  pass on valid configuration texts; whether two of those can share a fingerprint is not decided here.
- Over variants that read the keys they share alike, an edit that moves a tagged resource to another variant is written
  back with the meaning wanted exactly when the variants also give those keys the same defaults
  (`MergeChanged.UnionLawExactlyWhenDefaultsAgree`). The four tagged enums of `backend/src/config/model.rs` do both.

## Model

| member | source | states |
|---|---|---|
| `SingleFlight.RunKeeps` | backend/src/cache/memory.rs:225-328 | every run of reserve, publish, drop, poll, cancel, wake and shutdown keeps the invariant that ties loads, leases, waiters, parked wakers and completions together |
| `SingleFlight.OpenLoadHasOneLease` | backend/src/cache/memory.rs:442-483 | before shutdown an uncompleted load has exactly one live lease, its own |
| `SingleFlight.PresentLoadIsJoined` | backend/src/cache/memory.rs:442-463 | in every run before shutdown, reserving a key whose load is there adds exactly one waiter token, of that load's generation, and one follower, and changes nothing else |
| `SingleFlight.AbsentLoadIsLed` | backend/src/cache/memory.rs:464-481 | in every run before shutdown, reserving a key without a load adds exactly one lease and its open load, of a generation larger than that of every lease, waiter, load and completion so far |
| `SingleFlight.ReservationsEndWithShutdown` | backend/src/cache/memory.rs:442-454 | in every run a reservation has no effect exactly from the first shutdown step on |
| `SingleFlight.FollowersAreLiveWaiters` | backend/src/cache/memory.rs:254-271 | in every run the follower count of a load is the number of live waiters of its generation |
| `SingleFlight.LiveWaiterNeverViolates` | backend/src/cache/memory.rs:292-328 | a live waiter is never told of a protocol violation |
| `SingleFlight.PollTellsTheRecord` | backend/src/cache/memory.rs:292-328 | in every run a poll answers the completion on record for the waiter's generation, and only while there is none a timeout or a wait |
| `SingleFlight.StaleTokenIsInert` | backend/src/cache/memory.rs:225-271 | a step changes a load only by presenting a token of its own generation, by adding a follower, or by shutdown |
| `SingleFlight.CompletedAtMostOnce` | backend/src/cache/memory.rs:225-252 | no generation is completed twice in a run |
| `SingleFlight.HistoryGrowsAlongRun` | backend/src/cache/memory.rs:225-252 | a completion on record is never changed or removed later in the run |
| `SingleFlight.OnlyEndingsAreRecorded` | backend/src/cache/memory.rs:225-252 | in every run a completion comes on record only by a publication, and then as published, by dropping the lease, as abandoned, or by shutdown, as cancelled |
| `SingleFlight.EndingsAreRecorded` | backend/src/cache/memory.rs:98-117 | in every run publishing or dropping a lease completes its generation and uses the lease up, unless shutdown did so before; then a publication changes nothing |
| `SingleFlight.ShutdownCompletesAll` | backend/src/cache/memory.rs:573-595 | in every run, after shutdown every generation ever issued is completed |
| `SingleFlight.EndedLeaseIsCompleted` | backend/src/cache/memory.rs:98-117 | in every run a generation whose lease is gone, published or dropped, has been completed |
| `SingleFlight.WaitersOfAGenerationAgree` | backend/src/cache/memory.rs:292-328 | any two answers to waiters of one generation, at any two moments of a run, are the same completion |
| `SingleFlight.EndedLeaseAnswersItsWaiters` | backend/src/cache/memory.rs:225-252 | in every run, after the step that ends a lease every waiter of its generation is answered at its next poll |
| `SingleFlight.NobodyIsStranded` | backend/src/cache/memory.rs:254-278 | in every run, with no lease left and no wake-up under way, nobody is parked and every waiter is answered |
| `SingleFlight.NoTokensNoLoads` | backend/src/cache/memory.rs:254-271 | once all tokens are gone the load table is empty |
| `Eviction.EvictsShortestPrefix` | backend/src/cache/memory.rs:149-203 | the evicted keys are the shortest prefix, in the order of insertion instant, version and key, whose removal fits the limit; every sufficient prefix contains them |
| `Eviction.SurvivesWhenSuffixFits` | backend/src/cache/memory.rs:170-203 | a record survives eviction exactly when it and all younger records fit together |
| `Eviction.EarlierGoFirst` | backend/src/cache/memory.rs:182-197 | a record is evicted before another only if it was inserted earlier, or at the same instant with a smaller version |
| `RecordStore.WriteEvictsShortestPrefix` | backend/src/cache/memory.rs:374-440 | a granted write leaves the old and the new records less the shortest sufficient prefix |
| `RecordStore.CompareAndSwapAnswers` | backend/src/cache/memory.rs:374-440 | the answer from the fields: conflict with the version shown, refusal in favour of a fresh record of higher quality, refusal of an entry over the limit by itself, each leaving everything the store shows; otherwise the next version |
| `RecordStore.LatestWriteIsHeld` | backend/src/cache/memory.rs:374-440 | a write that reports insertion or replacement and was inserted no earlier than any other record is held afterwards under its version |
| `RecordStore.GetAnswers` | backend/src/cache/memory.rs:332-372 | a lookup answers the record shown, leaves what is shown, and counts a hit exactly when the record can be answered from |
| `RecordStore.HeldForAMinute` | backend/src/ports/cache.rs:271-278 | a record is shown until one minute after its last answerable instant |
| `RecordStore.CompareAndSwapCounts` | backend/src/cache/memory.rs:374-440 | conflicts are counted exactly for conflicts, evictions exactly as many as records displaced |
| `RecordStore.InvalidateRemoves` | backend/src/cache/memory.rs:543-564 | an invalidation removes exactly the records of its key, namespace, namespace and revision, or all |
| `RecordStore.ShutDownEmpties` | backend/src/cache/memory.rs:573-595 | shutdown leaves no record and keeps the counters |
| `RecordStore.CompareAndSwapKeeps` | backend/src/cache/memory.rs:374-440 | entry count and weight in the statistics equal the recomputed ones after every compare-and-swap, and versions stay distinct |
| `RecordStore.TraceKeeps` | backend/src/cache/memory.rs:332-440 | the same in every state of every sequence of calls |
| `RecordStore.InvalidateKeeps` | backend/src/cache/memory.rs:543-564 | the same after invalidation |
| `RecordStore.FreshNeverDowngraded` | backend/src/cache/memory.rs:374-440 | no compare-and-swap replaces a fresh record by one of lower quality, under any key |
| `RecordStore.InsertedRecordCanBeEvicted` | backend/src/cache/memory.rs:374-440 | two writes to an empty store of limit 65, the second of which reports an insertion although its record is gone |
| `RecordStore.InsertedRecordStaysExactlyWhenItFits` | backend/src/cache/memory.rs:374-440 | a granted write leaves its record in the store exactly when that record and all younger ones fit the limit |
| `RecordStore.StoreRefinesReference` | backend/src/cache/memory.rs:205-223 | under a monotone clock an unlimited store answers every call of every sequence of lookups, writes and invalidations as a map that never purges; only the number an invalidation reports may be smaller, exactly when some call before looked up or wrote a matching key past the retention of its record |
| `RecordStore.InvalidateReportsMatches` | backend/src/cache/memory.rs:543-564 | the number an invalidation reports is the number of matching records it removes |
| `RecordStore.InvalidationCounts` | backend/src/cache/memory.rs:543-564 | after any calls that number is at most the one of the map that never purges, and equal exactly when no lookup or write touched a matching key past the retention of the record the map still holds |
| `RecordStore.InvalidationCountsCanDiffer` | backend/src/cache/memory.rs:205-223 | a write, a lookup past the retention and an invalidation for which the two numbers differ |
| `RecordStore.VersionsIncrease` | backend/src/cache/memory.rs:374-440 | versions issued along a run strictly increase |
| `RecordStore.VersionedWriteReplacesIssuedRecord` | backend/src/cache/memory.rs:374-440 | a write conditioned on a version replaces exactly the record one call issued under that version and key, held without interruption since (no ABA) |
| `MemoryCacheStore.CurrentWeight` | backend/src/cache/memory.rs:149-168 | the loop over the records computes the saturating sum of their weights |
| `MemoryCacheStore.Victim` | backend/src/cache/memory.rs:170-203 | the scan finds the record that precedes all others in the eviction order |
| `MemoryCacheStore.MemoryCacheStore.EvictOldest` | backend/src/cache/memory.rs:170-203 | the loop ends, leaves what `Eviction.Evict` says, and counts each eviction |
| `MemoryCacheStore.MemoryCacheStore.EnforceCapacity` | backend/src/cache/memory.rs:170-203 | the object's state follows `RecordStore.EnforceCapacity` |
| `MemoryCacheStore.MemoryCacheStore.Get` | backend/src/cache/memory.rs:332-372 | lookup, purge of an entry past retention, hit and miss counts, shutdown and deadline errors |
| `MemoryCacheStore.MemoryCacheStore.CompareAndSwap` | backend/src/cache/memory.rs:374-440 | the object's state and answer follow `RecordStore.CompareAndSwap` in every branch, whose answers `RecordStore.CompareAndSwapAnswers` gives from the fields |
| `MemoryCacheStore.MemoryCacheStore.Invalidate` | backend/src/cache/memory.rs:543-564 | removes the matching records and reports their number |
| `MemoryCacheStore.MemoryCacheStore.CompleteLoad` | backend/src/cache/memory.rs:225-252 | completes an open load of the presented generation only, and hands out its wakers |
| `MemoryCacheStore.MemoryCacheStore.ReleaseWaiter` | backend/src/cache/memory.rs:254-271 | drops one follower; the last one of a completed load removes it |
| `MemoryCacheStore.MemoryCacheStore.ReserveLoad` | backend/src/cache/memory.rs:442-483 | refused exactly for an expired deadline or after shutdown; otherwise follower of the load that is there, with one follower more, or leader of a new open load of a larger generation |
| `MemoryCacheStore.MemoryCacheStore.PollLoad` | backend/src/cache/memory.rs:292-328 | completion, timeout, violation, or parking of the waker |
| `MemoryCacheStore.MemoryCacheStore.Shutdown` | backend/src/cache/memory.rs:573-595 | clears the records, cancels every open load and collects all wakers |
| `CacheFacade.RetryInserts` | backend/src/cache/service.rs:404-468 | a write whose versioned target vanished becomes, on retry, an insertion of the fetched response unless the store is full for it |
| `CacheFacade.PerformWrite` | backend/src/cache/service.rs:662-699 | admission, then compare-and-swap, with the record that was written |
| `CacheFacade.WriteWithRetry` | backend/src/cache/service.rs:411-434 | the write, and one retry as an insertion when the versioned target is gone, each with its own reading of clock and deadline |
| `CacheFacade.Commit` | backend/src/cache/service.rs:404-468 | publishes under the lease exactly what is owed to its last attempt: ready with the record just stored and not yet expired, a miss for a conflict, a refusal or an expired record, a failure when the write could not be made |
| `CacheFacade.VerdictIsOwed` | backend/src/cache/service.rs:439-457 | outcome and completion of a write told from the store before and after it and from admission, in every case and both directions |
| `CacheFacade.FinalWriteIsLastAttempt` | backend/src/cache/service.rs:411-434 | there is a second attempt, as an insertion, exactly when an admitted replacement finds nothing shown under its key |
| `CacheFacade.DisabledAdmitsNothing` | backend/src/cache/service.rs:662-684 | a disabled cache admits nothing; an enabled one stores wire, provenance, revision and instant of the request |
| `CommitPipeline.RunKeeps` | backend/src/resolution.rs:260-339 | in every run each issued lease has exactly one owner or is completed, and queues keep their bounds |
| `CommitPipeline.LeaseCompletedExactlyOnce` | backend/src/resolution.rs:119-143 | a lease that left every owner is completed, by exactly one move of the run, whether queues are full, closed or stopped |
| `CommitPipeline.ReadyRecordsWereWritten` | backend/src/cache/service.rs:404-468 | for a follower that is told ready, an earlier move of the run put that very record into the store, with the version then issued, for the lease it waits on and under the key of the request handed off with that lease |
| `CommitPipeline.FollowersGetTheirOwnKey` | backend/src/dns/policy.rs:1302-1324 | if every lease is handed off with a request for its own key, as the policy does, the record was stored under the follower's key |
| `CommitPipeline.AnnouncementIsOwed` | backend/src/cache/service.rs:404-468 | in every run, what the worker announces for a lease before shutdown is owed to its last write for it, and a replacement that found nothing was tried again before |
| `CommitPipeline.GivenUpOnlyWithReason` | backend/src/resolution.rs:119-143 | in every run a lease is given up unanswered only when abandoned, handed to a stopped publisher, refused by a closed or full queue or a worker that is gone, left in an abandoned queue or worker, or overtaken by shutdown |
| `CommitPipeline.WorkEnds` | backend/src/resolution.rs:260-339 | every work move lowers a bound on the work left |
| `CommitPipeline.BusyCanWork` | backend/src/resolution.rs:232-339 | a pipeline that holds a lease always has a work move |
| `CommitPipeline.WorkDrains` | backend/src/resolution.rs:232-339 | from every reachable state work moves alone end within a stated number of moves, and when none is possible no lease is left in the pipeline |
| `CommitPipeline.FollowersAlwaysFinish` | backend/src/resolution.rs:232-339 | once that is so, no request holds a lease and wake-ups are delivered, no follower is parked and each is answered |
| `CommitPipeline.IdlePipelineStrandsNobody` | backend/src/resolution.rs:232-258 | when the pipeline is idle and no request holds a lease, every follower is answered |
| `Admission.ComputeChecksum` | backend/src/cache/admission.rs:78-90 | the loop computes the 64-bit FNV-1a digest of the canonical wire |
| `Admission.AdmittedForItsLifetime` | backend/src/cache/admission.rs:92-192 | expiry, window, class, quality and contents of an admitted entry from the fields of response and policy; a zero time to live is rejected |
| `Admission.LifetimeIsUnique` | backend/src/cache/admission.rs:172-192 | a response has exactly one time to live, or none: the smallest record value, or for negative answers the SOA value, the smallest record value or the failure value, cut at a nonzero maximum, or for failures the failure value |
| `Admission.RejectedWithoutLifetime` | backend/src/cache/admission.rs:129-155 | a response without a time to live is rejected, with its reason |
| `Lifetime.AnsweredExactlyWithinWindow` | backend/src/cache/service.rs:623-660 | a response with a positive time to live is admitted and answered exactly before that time plus, in optimistic mode, the window of its class, both stated from the fields of response and policy |
| `Lifetime.NeverAnsweredLate` | backend/src/cache/admission.rs:92-192 | the same upper bound without any assumption on the clock's range |
| `Lifetime.LookupDecides` | backend/src/cache/service.rs:623-660 | fresh, stale, expired, miss or unavailable, from the instants of the record and the answer of the store |
| `Lifetime.RestoredRemaining` | backend/src/cache/codec.rs:283-293 | saving and restoring keeps what was left, less the wall-clock time in between |
| `Lifetime.RestoredKeepsAge` | backend/src/cache/codec.rs:50-64 | a restored entry is as old as when it was saved, keeps a window exactly when that had not run out, and is rejected exactly when age or ends do not fit the clock |
| `Lifetime.RestoreNeverLengthens` | backend/src/cache/codec.rs:50-64 | under a wall clock that does not go back, neither the expiry nor the window gets longer from the encoder's reference instant |
| `Lifetime.RestoredExpiryShift` | backend/src/cache/codec.rs:283-293 | the restored expiry on an absolute scale, exactly when it is later than the original, and exactly when the entry can be fresh after it |
| `Lifetime.PassedExpiryMovesLater` | backend/src/cache/codec.rs:114-118 | an entry restored after its expiry, without any delay, whose expiry moves to the restoration and which is answered stale |
| `Lifetime.DelayedReadingKeepsFresh` | backend/src/cache/codec.rs:50-64 | an entry saved with a delayed clock reading that is answered fresh after its original expiry |
| `Lifetime.LifetimeSurvivesRestarts` | backend/src/cache/codec.rs:283-293 | no chain of restarts lets an entry outlive what it had left |
| `Lifetime.ServFailNeverAnsweredAfterFiveMinutes` | backend/src/config/contract.rs:414-419 | under the validated range a cached SERVFAIL is never answered after five minutes, restarts included (section 7.1 of RFC 2308) |
| `ConfigTransaction.FileSystem.CommitCandidate` | backend/src/config/store.rs:252-283 | stopped after any operation, the commit leaves exactly the effect of a prefix of its file operations |
| `ConfigTransaction.FileSystem.RecoverTarget` | backend/src/config/store.rs:285-303 | skip, replace or refuse one target, stopped anywhere |
| `ConfigTransaction.FileSystem.RecoverPending` | backend/src/config/store.rs:186-221 | stopped after any operation, recovery leaves the effect of a prefix of its plan, and reports its outcome |
| `ConfigTransaction.CommitPhases` | backend/src/config/store.rs:252-283 | before the journal is published both files are old; from then on the disk can be completed or is complete |
| `ConfigTransaction.CrashThenRecoverIsAtomic` | backend/src/config/store.rs:186-303 | a crash after any operation, any number of interrupted recoveries and a complete one leave both files new if the journal was published, both old otherwise, and no journal |
| `ConfigTransaction.AtomicExactlyWhenDistinguished` | backend/src/config/store.rs:285-303 | a two-file commit is atomic under all crashes exactly when the fingerprint tells old from new content |
| `ConfigTransaction.CollisionSplitsFiles` | backend/src/config/store.rs:285-303 | with equal fingerprints a crash between the replacements leaves one file new and one old after recovery |
| `ConfigFingerprint.FingerprintInUseCanSplitFiles` | backend/src/config/hash.rs:4-11 | for the byte-level function below the validated entry points: two byte strings with the same 64-bit FNV-1a fingerprint for which atomicity fails |
| `ConfigTransaction.RecoveryIsIdempotent` | backend/src/config/store.rs:186-221 | on any disk a successful recovery leaves no journal and a further one does nothing |
| `ConfigTransaction.ForeignSourceStopsRecovery` | backend/src/config/store.rs:285-303 | a source that is neither old nor new stops recovery before it touches any file |
| `ConfigTransaction.ForeignSnapshotIsKept` | backend/src/config/store.rs:186-221 | a snapshot that is neither old nor new is never written, however far recovery gets |
| `ConfigTransaction.RecoverySucceedsExactlyWhen` | backend/src/config/store.rs:186-303 | on any disk, recovery of a pending transaction succeeds exactly when every target carries the new fingerprint, or the old one with the new one staged, all within the size limit |
| `ConfigTransaction.RecoveryLeavesTheNew` | backend/src/config/store.rs:186-303 | and then each target holds what it held, if that was new, and otherwise what was staged |
| `ConfigTransaction.DamagedStageStopsRecovery` | backend/src/config/store.rs:298-302 | with a damaged stage and a source that is not new, recovery stops before it touches any file |
| `ConfigTransaction.DamagedSnapshotStageIsNotInstalled` | backend/src/config/store.rs:298-302 | a damaged stage of the snapshot is never installed, however far recovery gets |
| `ConfigTransaction.ForeignJournalIsRefused` | backend/src/config/store.rs:192-200 | a journal that does not parse, names another source, or pairs snapshot and stage wrongly is refused and nothing is touched |
| `SnapshotOwner.CacheSnapshotOwner.PublishSwitch` | backend/src/cache/snapshot_owner.rs:267-302 | below the last generation no write captured before the switch can pass the gate afterwards, and the next periodic write is never skipped |
| `SnapshotOwner.CacheSnapshotOwner.BeginShutdown` | backend/src/cache/snapshot_owner.rs:305-335 | afterwards no earlier write passes the gate, no periodic write starts, and the source handed out, on the first call only, passes it as the final write |
| `SnapshotOwner.CacheSnapshotOwner.Drop` | backend/src/cache/snapshot_owner.rs:404-416 | afterwards no earlier write passes the gate and no periodic write starts |
| `SnapshotOwner.CacheSnapshotOwner.SnapshotCurrent` | backend/src/cache/snapshot_owner.rs:450-472 | hands out the owner's own source exactly when it runs, its settings enable snapshots and the version on record is not the store's; reports no change exactly when they agree; what it hands out passes the gate as long as nothing changes |
| `SnapshotOwner.CacheSnapshotOwner.Record` | backend/src/cache/snapshot_owner.rs:484-498 | after a write that is still current the next one is skipped if the version did not move, and never skipped if it did |
| `SnapshotOwner.RunKeeps` | backend/src/cache/snapshot_owner.rs:450-564 | every interleaving of stores, switches, writes, shutdown and drop keeps the invariant |
| `SnapshotOwner.CaptureDecides` | backend/src/cache/snapshot_owner.rs:450-472 | write, skip or nothing, each exactly by running, enabled and the version on record |
| `SnapshotOwner.OnlyEnabledSourcesAreWritten` | backend/src/cache/snapshot_owner.rs:450-472 | in every run no write, periodic or final, is ever begun from a source whose settings disable snapshots |
| `SnapshotOwner.PeriodicWriteBegins` | backend/src/cache/snapshot_owner.rs:450-482 | in every run a periodic write can begin exactly when none is under way, the owner runs with snapshots enabled and the version on record differs; it captures source and reset counter of that moment |
| `SnapshotOwner.GateDecides` | backend/src/cache/snapshot_owner.rs:550-564 | in every run the gate passes a write exactly when generation, store and reset counter are current and the owner runs or the write is final; a refused write ends without touching the file |
| `SnapshotOwner.OnlyRenamesChangeTheFile` | backend/src/cache/snapshot.rs:87-96 | in every run the file changes only by the rename of a write that passed the gate, and then holds what that write read |
| `SnapshotOwner.RecordDecides` | backend/src/cache/snapshot_owner.rs:484-498 | in every run the version read goes on record exactly when the store still has it and the owner runs and has not moved on |
| `SnapshotOwner.ShutdownLeavesFinalWriteDue` | backend/src/cache/snapshot_owner.rs:305-346 | in every run shutdown stops the owner and leaves the final write due exactly when snapshots are enabled |
| `SnapshotOwner.FinalWriteIsNotForgotten` | backend/src/cache/snapshot_owner.rs:305-396 | and in every run without a drop it stays due until it is begun |
| `SnapshotOwner.GatePassesOnlyCurrentSource` | backend/src/cache/snapshot_owner.rs:550-564 | a write passes the gate only with the current generation, store and reset counter, and after stop only as the final write |
| `SnapshotOwner.GatePassesOnlyUndisturbedWrites` | backend/src/cache/snapshot_owner.rs:514-564 | no step between its capture and the gate removed records of its store, nor, below the last generation, switched, shut down or dropped the owner |
| `SnapshotOwner.AfterShutdownOnlyFinalPublishes` | backend/src/cache/snapshot_owner.rs:305-396 | once shutdown has begun only the one final write changes the file |
| `SnapshotOwner.SkipMeansFileIsCurrent` | backend/src/cache/snapshot_owner.rs:450-472 | in every run the periodic task skips only when the file holds the records of the current store, at the current path, all read at the current version, or when it is the file recovered at start and since then no record changed, nothing was renamed and the source was not switched |
| `DohRoute.Find` | backend/src/config/doh_route.rs:42-43 | the first occurrence of the marker, or that there is none |
| `DohRoute.JoinSplit` | backend/src/config/doh_route.rs:127-128 | splitting at slashes loses nothing |
| `DohRoute.SplitJoin` | backend/src/config/doh_route.rs:127-128 | joining slash-free parts and splitting again gives the parts |
| `DohRoute.AcceptedTemplates` | backend/src/config/doh_route.rs:29-62 | a template is accepted exactly when it is a clean rooted path with at most one marker, as a whole segment; otherwise the error says which |
| `DohRoute.MatchedPaths` | backend/src/config/doh_route.rs:68-108 | exactly which paths a template matches, bare or with an identifier, on their characters |
| `DohRoute.FilledIsMatched` | backend/src/config/doh_route.rs:68-88 | the path made for a client identifier is matched and gives the identifier back |
| `DohRoute.MatchesBySegments` | backend/src/config/doh_route.rs:68-138 | matching text and matching segments agree on every path and every valid template |
| `DohRoute.OverlapsExactlyWhenCommonPath` | backend/src/config/doh_route.rs:91-152 | the overlap test is true exactly when some path is matched by both templates |
| `DohRoute.RoutesWithoutOverlapAreUnambiguous` | backend/src/config/doh_route.rs:91-98 | at most one of pairwise non-overlapping templates matches a path |
| `MergeChanged.MergeChanged` | backend/src/config/edit.rs:359-393 | the recursive procedure with its loops computes `Merge` |
| `MergeChanged.MergeFields` | backend/src/config/edit.rs:364-383 | the two key loops leave under every key what merging says |
| `MergeChanged.UnchangedKeepsSource` | backend/src/config/edit.rs:360-362 | with no change the source stays verbatim |
| `MergeChanged.CanonicalSourceBecomesAfter` | backend/src/config/edit.rs:359-393 | a source spelled canonically becomes the wanted value, on all trees |
| `MergeChanged.MergedSourceMeansAfter` | backend/src/config/edit.rs:358-393 | if the source means the old value, defaults omitted and leaves spelled freely, the merged source means the new one, also when the edit moves a tagged resource to another variant |
| `MergeChanged.UnionLawExactlyWhenDefaultsAgree` | backend/src/config/model.rs:710-733 | over variants that read shared keys alike, the law above holds for all sources and edits exactly when they also give them the same defaults |
| `MergeChanged.UntouchedKeepsSpelling` | backend/src/config/edit.rs:358-393 | every part the edit leaves alone, an omitted default included, keeps its spelling |
| `RenameReferences.ApplyChanges` | backend/src/config/edit.rs:216-319 | updates are merged where the original document has them, creations appended in order, renames recorded; refused exactly when some change is not applicable, with the reason of the first such change |
| `RenameReferences.RewriteItems` | backend/src/config/edit.rs:418-506 | the loop rewrites every item of a collection or reports an unsupported one |
| `RenameReferences.RewriteReferences` | backend/src/config/edit.rs:426-506 | all collections are rewritten, or it fails exactly when some item of some collection is unsupported |
| `RenameReferences.RewrittenExactlyWhenSupported` | backend/src/config/edit.rs:430-504 | an item is rewritten exactly when its collection and variant are known and have the lists they need, whatever is renamed |
| `RenameReferences.SiteIsRenamed` | backend/src/config/edit.rs:430-504 | every reference site of every variant gets its new name, selectors kept |
| `RenameReferences.SelectorIsKept` | backend/src/config/edit.rs:483-494 | renaming a rule-set reference changes its name, if renamed, and never its selector |
| `RenameReferences.OtherTextIsKept` | backend/src/config/edit.rs:430-504 | text that is no reference is left alone |
| `RenameReferences.ReferencesKeepTheirTarget` | backend/src/config/edit.rs:320-321 | a reference that named position i before names position i after, for renames, swaps and cycles |
| `RenameReferences.UntouchedResourceKeepsReferences` | backend/src/config/edit.rs:288-319 | a resource no change addresses keeps its name, place and every reference |
| `SourceEdit.SortIsStable` | backend/src/config/source_edit.rs:36-36 | the sort keeps, at every position, the collected edits in collected order |
| `SourceEdit.NeighboursDecide` | backend/src/config/source_edit.rs:37-39 | on a sorted list the check of neighbours decides whether any two edits clash |
| `SourceEdit.Splice` | backend/src/config/source_edit.rs:40-43 | the right-to-left loop equals replacing all ranges at once |
| `SourceEdit.EditDocument` | backend/src/config/source_edit.rs:36-43 | succeeds exactly on edits that do not clash, and then every byte outside the ranges survives in order with insertions in collected order |
| `ByteCodec.BigEndianRoundTrip` | backend/src/cache/codec.rs:295-303 | an integer that fits is read back |
| `ByteCodec.ReadBytesBack` | backend/src/cache/codec.rs:305-313 | a length-prefixed byte string within its limit is read back, whatever follows |
| `ByteCodec.ReadBytesIsCanonical` | backend/src/cache/codec.rs:351-357 | a byte string that can be read is the one encoding of its value |
| `ByteCodec.ReadBytesDecides` | backend/src/cache/codec.rs:351-357 | exactly when reading fails, and with which error |
| `ByteCodec.Reader.Take` | backend/src/cache/codec.rs:325-333 | takes the next octets and moves the cursor, or reports corruption and does not move |
| `ByteCodec.Reader.ByteString` | backend/src/cache/codec.rs:351-357 | limit and truncation errors of a length-prefixed string |
| `RecordCodec.NamespaceBack` | backend/src/cache/codec.rs:184-226 | every valid namespace is read back |
| `RecordCodec.RecordRoundTrip` | backend/src/cache/codec.rs:26-176 | every record within the limits is read back: key, version, provenance, class, quality, checksum and wire are the same, only the times are moved to the new clock |
| `RecordCodec.TrailingBytesAreCorrupt` | backend/src/cache/codec.rs:127-130 | bytes after a complete record make the payload corrupt |
| `RecordCodec.KeyIsCanonical` | backend/src/cache/codec.rs:86-104 | a key that decodes is valid, of the current version, and the one encoding of its value |
| `RecordCodec.DecodedIsValid` | backend/src/cache/codec.rs:94-176 | a payload that decodes gives a valid record: canonical key, valid provenance, and class, checksum and wire of a message the parser accepts |
| `RecordCodec.OtherVersionsAreIncompatible` | backend/src/cache/codec.rs:100-109 | another key version or entry version is reported as incompatible, whatever follows |
| `RecordCodec.MismatchIsCorrupt` | backend/src/cache/codec.rs:131-150 | a record whose class or checksum is not that of its message is corrupt |
| `RecordCodec.StorageKeyIsPrefixFree` | backend/src/cache/codec.rs:86-92 | different keys never share a storage key, and none is a proper prefix of another |
| `RecordCodec.ReadRecord` | backend/src/cache/codec.rs:94-176 | decoding with a moving cursor gives the result and error of the specification |
| `CacheKeyCodec.IdentityBack` | backend/src/cache/key.rs:55-121 | an encoded key determines namespace, query, transport, mode and four fingerprints |
| `CacheKeyCodec.KeysNeverAlias` | backend/src/cache/key.rs:55-121 | two requests with the same encoded key agree in every dimension |
| `SnapshotFile.HeaderRoundTrip` | backend/src/cache/snapshot.rs:333-361 | the 60-octet header is read back |
| `SnapshotFile.ReadBatch` | backend/src/cache/snapshot.rs:217-247 | the loop reads until a batch is full or the file ends, or stops at the first unreadable frame |
| `SnapshotFile.CacheSnapshotReader.NextBatch` | backend/src/cache/snapshot.rs:208-250 | reads a batch from where the last one ended, and refuses a batch of size zero |
| `SnapshotFile.BatchesAreOneBatch` | backend/src/cache/snapshot.rs:208-250 | batches of any sizes, ending anywhere, read what one batch of all their sizes reads: the same records, counts and cursor, or the same error |
| `SnapshotFile.BatchSizesDoNotMatter` | backend/src/cache/snapshot.rs:208-254 | batches with room for the rest of the file read it as a single pass does |
| `SnapshotFile.EveryRecordIsCountedOnce` | backend/src/cache/snapshot.rs:228-246 | loaded, expired, corrupt and incompatible plus what remains stays constant, and exactly the loaded records are delivered |
| `SnapshotFile.RecordsAreClassified` | backend/src/cache/snapshot.rs:217-247 | any body read to its end in any batches counts every record as loaded, expired, corrupt (damaged or of a repeated key) or incompatible, and delivers exactly the loaded ones in order |
| `SnapshotFile.UnreadableFrames` | backend/src/cache/snapshot.rs:219-229 | exactly when a frame cannot be read, and with which error |
| `SnapshotFile.WriteSnapshot` | backend/src/cache/snapshot.rs:104-182 | the pass writes header and frames of the first entry of every key digest, or reports the first error |
| `SnapshotFile.WriterCoversEveryKey` | backend/src/cache/snapshot.rs:123-130 | no key digest of the input is missing from what is written |
| `SnapshotFile.WrittenExactlyWhenItFits` | backend/src/cache/snapshot.rs:123-141 | entries within the limits of the format are written exactly when their keys have no more digests than a file may have records, one record for each |
| `SnapshotFile.OpenSnapshot` | backend/src/cache/snapshot.rs:270-320 | length, limit, header and checksum tests, with the digest taken chunk by chunk |
| `SnapshotFile.WrittenFileOpens` | backend/src/cache/snapshot.rs:270-331 | a written file passes all tests and its body is the one written |
| `SnapshotFile.OpensExactlyWhenIntact` | backend/src/cache/snapshot.rs:270-320 | a file opens exactly when its octets pass size, magic, version, counts and checksum, and with the header it carries |
| `SnapshotFile.AlteredFileIsRefused` | backend/src/cache/snapshot.rs:292-308 | a file of the same size that differs from one that opens, in the covered part or in the rest of the header, does not open unless the digest fails to tell the covered parts apart |
| `SnapshotFile.RefusalHasItsReason` | backend/src/cache/snapshot.rs:277-308 | too large, of another version, or corrupt, each exactly when it is |
| `SnapshotFile.SnapshotRoundTrip` | backend/src/cache/snapshot.rs:104-254 | a written file opens, and read in any batches with room for its records, the wall clock read anew for each record, it gives back the first entry of every key digest in order, as far as it is still answerable; the counts add up to the header |
| `LatencyReport.BucketMonotone` | backend/examples/contract-load/report.rs:38-43 | a longer latency never falls in an earlier bucket |
| `LatencyReport.BoundIsTight` | backend/examples/contract-load/report.rs:67-70 | a latency q and the bound r of its bucket satisfy q <= r and 16 (r - q) < q + 16 |
| `LatencyReport.BucketsCountEverySuccess` | backend/examples/contract-load/report.rs:36-45 | the buckets always sum to the number of successes |
| `LatencyReport.RankExists` | backend/examples/contract-load/report.rs:63-63 | every rank up to the number of samples has a sample |
| `LatencyReport.RankIsInFirstBucket` | backend/examples/contract-load/report.rs:64-72 | the first bucket whose cumulative count reaches a rank is the bucket of the sample of that rank |
| `LatencyReport.Counts.Observe` | backend/examples/contract-load/report.rs:31-56 | counts every observation once and keeps the histogram of the clamped latencies |
| `LatencyReport.Counts.Percentile` | backend/examples/contract-load/report.rs:59-74 | the reported percentile bounds the exact one as above; none without successes |
| `Telemetry.TelemetryWriter.EnqueueItem` | backend/src/observability.rs:655-690 | closed, filtered, appended, dropped, replacing the first low-priority log, or refused |
| `Telemetry.TelemetryWriter.PopFront` | backend/src/observability.rs:705-710 | the item taken followed by the queue is the queue before, and its place stays reserved while it is in flight |
| `Telemetry.TelemetryWriter.Settle` | backend/src/observability.rs:720-737 | a refused item is back in front of the queue without taking another place; a written one frees its place and leaves the queue alone |
| `Telemetry.RefusedOnlyWhenFullOrClosed` | backend/src/observability.rs:655-690 | in every run an item is refused exactly after closing, or when it is indispensable and the queue is full of such items; a refusal changes nothing |
| `Telemetry.AcceptedIsQueued` | backend/src/observability.rs:655-690 | in every run an item that is not refused goes last into the queue, displaces the first dispensable one, or is left out, by filter, room and priority |
| `Telemetry.CountersTell` | backend/src/observability.rs:711-737 | in every run emitted, dropped and failed count the items written, the accepted items lost, and the refusals of the output |
| `Telemetry.QueueNeverOverflows` | backend/src/observability.rs:655-690 | queue and item in flight fit the capacity at every moment of every run |
| `Telemetry.OnlyLowPriorityIsLost` | backend/src/observability.rs:655-761 | written items, then the one in flight, then the queue are the accepted items in order, with only low-priority logs missing |
| `Telemetry.ShutdownWritesEverything` | backend/src/observability.rs:647-653 | a flush begun after closing that ends well leaves the queue empty, and the high-priority items written are exactly those accepted |
| `Telemetry.DrainedStaysDrained` | backend/src/observability.rs:647-653 | and that stays so |
| `LateFinalizer.ActiveCountsLiveGuards` | backend/src/cache/service.rs:88-98 | the active counter is the number of live guards and never exceeds the capacity |
| `LateFinalizer.SubmissionSucceedsWhileThereIsRoom` | backend/src/cache/service.rs:167-202 | in every run a submission gets its permit exactly when shutdown has not closed them and fewer than the capacity are out, and its task is then live and in the task set |
| `LateFinalizer.ShutdownWaitsForItsTasks` | backend/src/cache/service.rs:204-249 | in every run a shutdown call takes the whole task set and returns only when all of it is done |
| `LateFinalizer.NoSubmissionAfterTakeover` | backend/src/cache/service.rs:167-202 | after a shutdown call took the task set no submission succeeds |
| `LateFinalizer.NothingActiveAfterShutdown` | backend/src/cache/service.rs:204-249 | when the shutdown call that took the tasks has returned, nothing is active and every permit is back |
| `RefreshAdmission.CounterIsLiveLeases` | backend/src/cache/service.rs:273-308 | the counter equals the live leases and stays within the limit, whatever the interleaving and spurious failures of the exchange |
| `RefreshAdmission.AttemptDecides` | backend/src/cache/service.rs:273-302 | in every run a thread is turned away exactly when the counter it read had reached the limit, and takes a slot exactly when it is below and unchanged |
| `RefreshAdmission.AdmittedIsConsumed` | backend/src/cache/service.rs:542-554 | in every run the first clone that asks for an admitted permit wins it, and nobody wins another |
| `RefreshAdmission.ConsumedAtMostOnce` | backend/src/cache/service.rs:542-554 | all clones of a permit win at most once, and only if it was admitted |
| `RefreshAdmission.AllDroppedMeansZero` | backend/src/cache/service.rs:304-308 | when every permit is dropped the counter is zero |

## Left out

- SingleFlight.RunKeeps: counts followers without the 64-bit saturation of the source, because a run would need 2^64 waiters of one generation to reach it.
- MemoryCacheStore.MemoryCacheStore.ReserveLoad: store operations are atomic steps; the mutex and its poisoning are not modelled.
- CacheFacade.Commit: runs without interference; the interleaved commit is in CommitPipeline.
- Lifetime.AnsweredExactlyWithinWindow: assumes the clock can represent the end of the window, because an unrepresentable expiry makes the entry expire at once; the upper bound holds without it.
- RecordStore.StoreRefinesReference: speaks of a store without a weight limit; what a limit evicts is in Eviction.
- ConfigFingerprint.FingerprintInUseCanSplitFiles: the two byte strings are no configuration texts; the callers of the commit demand UTF-8 and a text that adds one web user, and no such pair is given.
- ConfigTransaction.CrashThenRecoverIsAtomic: renames are atomic and durable, and directory synchronization, permissions and the lock file are not modelled.
- SnapshotOwner.RunKeeps: the version and reset counters of a store do not wrap around, the status record is not modelled, and records that Moka evicts or expires by itself do not count as changes.
- SnapshotOwner.SkipMeansFileIsCurrent: says nothing of the content of a file that was already there at start, because recovery also accepts files with expired, corrupt or incompatible records.
- SnapshotOwner.GatePassesOnlyUndisturbedWrites: speaks of the gate; an invalidation between the gate and the rename is not excluded by the source either.
- DohRoute.MatchesBySegments: text is a sequence of characters, so byte offsets inside a multi-byte character do not occur.
- MergeChanged.MergeChanged: works on values and returns the merged tree instead of updating it in place; the order of mapping keys is not modelled.
- MergeChanged.MergedSourceMeansAfter: a key without a default may be missing, so the reader's refusal of a source that lacks a required key is not modelled.
- RenameReferences.RewriteReferences: all scalars are text, so a number where a name is expected is treated as a name; the single modules dns, statistics and logs hold no references and are left out.
- SourceEdit.EditDocument: collecting the edits and reparsing the result are left to the YAML library.
- RecordCodec.RecordRoundTrip: the DNS library is a parameter that must accept the canonical wire of the record and give it back.
- CacheKeyCodec.KeysNeverAlias: an oversized component is reported with the error of the record codec.
- SnapshotFile.OpenSnapshot: deadlines, symbolic links and I/O errors other than a short file are not modelled; the digest is a parameter.
- LatencyReport.Counts.Percentile: counters and the product with the numerator do not overflow; the numerator zero, which nothing uses, gives the bound of the first bucket.
- Telemetry.TelemetryWriter.EnqueueItem: metric snapshots, health records and the output itself are not modelled.
- LateFinalizer.NothingActiveAfterShutdown: a deadline that aborts tasks is a task that ends.
- The newer configuration persistence module and its own recovery.
- The Moka cache store beyond its two counters.
- DNS parsing and resolution, upstream transports, listeners, rule sets, management HTTP, authentication, statistics storage and the user interface.
- Configuration range validation and file watching.
