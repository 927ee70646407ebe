# Mova: verified models of its protocols and decisions

Mova is a self-hosted media server. Most of it is SQL and HTTP, but several of its parts are small algorithms and
protocols whose mistakes would delete a library, overrun a disk, leak an event or call a provider twice. This project
models those parts in Dafny and proves what they promise. Everything that touches the outside (disk, clock, provider,
database) is a parameter that may answer in any way.

Run `dafny verify dfyconfig.toml` to check the whole project.

## What is modelled

- **Audio-track cache** (`AudioTrackQuota`, `AudioTrackRuns`, `AudioTrackPruning`, `AudioTrackCache`). The quota
  allocator. The first module is the coordinator as a state machine over single steps: admission, snapshot, directory
  listing, removal of one file, commit, growth of temporary files, publication, release, files vanishing. A reservation
  prunes from a snapshot that others invalidate while it works; the quota still holds after every step of every run. The
  last two are the same code as classes whose loops delete files, and their calls are shown to be runs of the machine.
- **Request reuse** (`BoundedCache`, `RequestReuse`, `RequestKeys`). A bounded cache before one lock per canonical key,
  held in a map of weak references. Tasks interleave and may be cancelled at every await.
- **Realtime** (`RealtimeMessages`, `RealtimeHub`, `ResourceKeys`, `RealtimeDispatcher`, `ScanBatches`, `RealtimeDelivery`).
  The hub's channels against the visibility predicate, the dispatcher's buffers and finished-scan guards over every run,
  failing queries included, what its messages contain, and both together: from a change to the streams that hear of it.
- **Library storage** (`MountTables`, `LibraryStorage`, `StorageRecords`, `MissingMedia`). Which mounts a library lives on,
  how each is judged, what a scan records, and which catalog paths may be deleted.
- **Local metadata** (`Text`, `Decimals`, `TmdbIds`, `LocalNfo`, `ParentSelection`, `EpisodeSelection`, `LocalMetadata`,
  `LocalMetadataReapplication`). Choosing one document for a group and one for each episode, and applying them in place
  before and after enrichment.
- **Provider matching** (`StrictMatch`, `RequestGate`). Selecting the one search result a title may be bound to, spacing
  requests and retrying them.
- **Smaller parts.** The password limiter against its event log (`AuthRateLimit`), merging episode outlines
  (`OutlineMerge`), sampling and fingerprinting for intro detection (`IntroFingerprint`), the scan registry and the
  inspection throttle (`ScanRegistry`), atomic cache files (`CacheFiles`).
- **Shared.** `Wrappers`, `Sequences`, `Sorting`, `Ordering`, `Sums`.

## Where the code and its claims differ

- `crates/mova-application/src/library_storage.rs:21-22` says a library counts as removed when every recorded mount was
  removed. The code (lines 633-650) leaves a recorded "/" out of the count, so a library whose healthy root lies on "/"
  counts as removed when its one mount below the root goes. `StorageRecords.HealthyRootCanBeRemoved` is that case.
  The other way round, an abnormal root that is not recorded keeps a library whose every recorded mount was removed:
  `StorageRecords.UnrecordedRootKeepsTheLibrary`. `StorageRecords.RemovalDiffersIff` shows that there is no third case.
- A reservation protects its temporary path, not the path it is published under. So another reservation, whether its
  snapshot is older or newer than the publication, can evict that file while the first is still held:
  `AudioTrackRuns.ComesUpForEvictionIff` is the exact condition, and
  `AudioTrackRuns.PublishedFileOfLiveReservationCanBeEvicted` such a run.
- The episode conflict flag depends on the order of the files, because each document is compared only with the one
  selected so far. `EpisodeSelection.FlagIsFileOrderIndependentIff` gives the exact condition under which it does not,
  `EpisodeSelection.ThreeDocumentsInTwoOrders` an example.
- The binding that decides between parent documents is the first bound file's, so it depends on the order when bound
  files disagree: `ParentSelection.BindingIsOrderIndependentIffAgreed`.
- Without a year or season hint the first of several competitors wins: `StrictMatch.UndatedOrderMattersIff`, with
  `StrictMatch.FirstOfTwoWins` as an example.
- The final error of pruning, that the quota cannot be satisfied, is never returned (`AudioTrackPruning.CacheDirectory.PruneToLimit`).
- A limit of zero failures, or of zero keys, behaves as a limit of one (`AuthRateLimit`).
- A full limiter can forget a key that is locked out: `AuthRateLimit.LockedKeyLeavesIffOldest` says exactly when, and
  `AuthRateLimit.ThirdKeyEndsALockout` is such a table.
- The inspection throttle reads the clock before it waits for its table, so a request that is overtaken there can be
  admitted within the cooldown: `ScanRegistry.DecidedAsDocumentedIff`, and
  `ScanRegistry.OvertakenRequestIsAdmittedEarly` for an example.
- A subscriber whose library list repeats a library receives its messages more than once:
  `RealtimeHub.ExactlyOnceUnlessRepeated`.
- A local episode appears more than once when the provider lists its number repeatedly: `OutlineMerge.OutlineConservesItems`.

## Model

| member | source | states |
|---|---|---|
| `AudioTrackQuota.QuotaHoldsInEveryRun` | apps/mova-server/src/audio_track_cache.rs:151-218 | After initialization, in every interleaving of admissions, collection, removal of single files, commits, growth of temporary files within their reservation, publication and release, settled files plus all unpublished reservations stay within the quota, and so do the bytes on disk; `reserved_bytes` is the sum of the live reservations and the active paths are theirs. |
| `AudioTrackQuota.StepKeepsInv` | apps/mova-server/src/audio_track_cache.rs:57-218 | Every single step of that machine, also one taken while another task prunes from a stale snapshot, keeps the bookkeeping, the provenance of every file, the coverage of the running snapshot and the footprint bound. |
| `AudioTrackQuota.FootprintWithinSnapshot` | apps/mova-server/src/audio_track_cache.rs:151-218 | Whatever published, grew or ended since the snapshot, the footprint is at most the files the snapshot does not protect plus the snapshot's reservations: the reason a stale snapshot is enough. |
| `AudioTrackQuota.CommitWithinQuota` | apps/mova-server/src/audio_track_cache.rs:197-217 | Committing a reservation after its prune leaves the footprint within the quota. |
| `AudioTrackQuota.CommitNeverOverflows` | apps/mova-server/src/audio_track_cache.rs:197-217 | When a reservation commits, `reserved_bytes` plus the request is at most the quota, so the checked addition never fails. |
| `AudioTrackQuota.RemuxesWithinSlots` | apps/mova-server/src/audio_track_cache.rs:96-114 | Admissions waiting, reservations live and the one being reserved always add up with the free permits to the concurrency limit. |
| `AudioTrackQuota.EvictionSparesUnpublishedFiles` | apps/mova-server/src/audio_track_cache.rs:151-218 | A file about to be evicted is never the temporary file of a live reservation, whenever that was taken; if a live reservation produced it, that reservation has published it. |
| `AudioTrackRuns.ComesUpForEvictionIff` | apps/mova-server/src/audio_track_cache.rs:151-218 | In every state a run reaches, for every live reservation with a non-empty file: without being published again, that file can come up for eviction exactly when it is published already, there are two slots or more, and the reservation leaves some of the quota. |
| `AudioTrackRuns.NextReservationReachesIt` | apps/mova-server/src/audio_track_cache.rs:170-187 | With nobody pruning, one admission and some quota left, the very next reservation, asking for all that is left, takes its snapshot after the publication and still comes to the published file of a reservation in force. |
| `AudioTrackRuns.PublishedFileOfLiveReservationCanBeEvicted` | apps/mova-server/src/audio_track_cache.rs:151-218 | The failing run from the start of the cache: write, publish, next reservation. |
| `AudioTrackRuns.PruningIsARun` | apps/mova-server/src/audio_track_cache.rs:398-440 | Listing the unprotected files and removing the oldest while the rest is above the limit is a run of the machine; it ends pruned exactly when what is left fits. |
| `AudioTrackRuns.ReservationEvictsOnlyForQuota` | apps/mova-server/src/audio_track_cache.rs:178-187 | In every interleaving, a reservation removes a file only while what it listed, all reservations and the request together exceed the quota. |
| `AudioTrackRuns.InitializationEvictsOnlyForQuota` | apps/mova-server/src/audio_track_cache.rs:116-149 | At the start files are removed only while the listed ones alone exceed the quota. |
| `AudioTrackRuns.VolumeEvictsOnlyWhatIsMissing` | apps/mova-server/src/audio_track_cache.rs:296-325 | The pruning for the volume removes a file only while fewer bytes than missing are gone. |
| `AudioTrackRuns.VolumePruningFreesWhatIsMissing` | apps/mova-server/src/audio_track_cache.rs:296-325 | When it is done, the missing bytes are gone or nothing is left to remove. |
| `AudioTrackQuota.DiskWithinFootprint` | apps/mova-server/src/audio_track_cache.rs:151-218 | The real bytes on disk, unfinished temporary files included, never exceed the footprint. |
| `AudioTrackPruning.EvictionOrderUnique` | apps/mova-server/src/audio_track_cache.rs:398-440 | The order of eviction is determined by the directory alone. |
| `AudioTrackPruning.OlderFilesGoFirst` | apps/mova-server/src/audio_track_cache.rs:398-440 | An evicted file was modified before every unprotected file that stays, or at the same time and its path comes first. |
| `AudioTrackPruning.EvictionOrderTotal` | apps/mova-server/src/audio_track_cache.rs:358-396 | The listed sizes add up to all unprotected bytes. |
| `AudioTrackPruning.EvictionRemainder` | apps/mova-server/src/audio_track_cache.rs:398-440 | After evicting a prefix of the order, the rest of it is the order of what is left, and its total is what is left. |
| `AudioTrackPruning.EvictionSparesProtected` | apps/mova-server/src/audio_track_cache.rs:398-440 | No evicted path is protected, and every evicted path existed. |
| `AudioTrackPruning.CacheDirectory.CollectEntries` | apps/mova-server/src/audio_track_cache.rs:358-396 | Lists exactly the unprotected files, each once, with size and time. |
| `AudioTrackPruning.CacheDirectory.PruneToLimit` | apps/mova-server/src/audio_track_cache.rs:398-440 | Evicts the oldest files first, ties by path, and no more than needed: the shortest prefix that brings the rest within the limit when no removal fails and the sizes add up below 2^64; then the result is the true remaining total. The only error is the failure to remove the next file: the final error about an unsatisfiable quota is never returned, not even when the total saturates. |
| `AudioTrackPruning.CacheDirectory.EvictWhileAbove` | apps/mova-server/src/audio_track_cache.rs:398-440 | The removal loop: stops at the first prefix within the limit or at the first failing removal. |
| `AudioTrackCache.PublishedExactlyWhen` | apps/mova-server/src/audio_track_cache.rs:245-275 | An output is published exactly when its source plus 256 MiB is within 128 GiB and it is non-empty and strictly below that sum. |
| `AudioTrackCache.PruneSpares` | apps/mova-server/src/audio_track_cache.rs:151-218 | A prune keeps every protected file and accounts for what it removed. |
| `AudioTrackCache.AudioTrackCacheCoordinator.TryAdmit` | apps/mova-server/src/audio_track_cache.rs:96-114 | Takes a permit if one is free, and refuses without queueing otherwise: the admission step of the machine. |
| `AudioTrackCache.AudioTrackCacheCoordinator.EnsureInitialized` | apps/mova-server/src/audio_track_cache.rs:116-149 | Prunes to the whole quota once; only success marks the coordinator initialized. The call is a run of the machine. |
| `AudioTrackCache.AudioTrackCacheCoordinator.Reserve` | apps/mova-server/src/audio_track_cache.rs:151-218 | Without interference: which inputs are refused and why, that success adds exactly this reservation, that old reservations plus the request plus all unprotected files fit the quota, that protected files are untouched, that free space covers headroom and reservations, and that failure returns the permit. A request that fits beside everything is granted and no file is removed for it. Whatever the outcome, the call is a run of the machine's steps from the state before to the state after. |
| `AudioTrackCache.AudioTrackCacheCoordinator.MakeRoom` | apps/mova-server/src/audio_track_cache.rs:185-197 | Prunes to what the reservations leave of the quota and, when the volume is short, once more by the missing bytes, from what the first pruning left and from what was there before; fails if the volume stays short. |
| `AudioTrackCache.AudioTrackCacheCoordinator.Release` | apps/mova-server/src/audio_track_cache.rs:57-68 | Dropping a reservation returns its bytes, its path and its permit, and nothing else: the release step of the machine. |
| `BoundedCache.InsertRemembers` | crates/mova-application/src/media_enrichment.rs:125-141 | The cache holds exactly the last `capacity` keys that were new when inserted, oldest first. |
| `BoundedCache.InsertSpaced` | crates/mova-application/src/media_enrichment.rs:125-141 | A key is new again only after `capacity` other new keys. |
| `BoundedCache.EvictedAfterCapacityNewKeys` | crates/mova-application/src/media_enrichment.rs:125-141 | A key that was inserted is missing only if `capacity` different new keys followed it. |
| `BoundedCache.FoundExactlyWhenRecent` | crates/mova-application/src/media_enrichment.rs:117-123 | In any state with such a history, a key has a value exactly when it is recent, and it is the last one inserted for it. |
| `BoundedCache.BoundedCache.Get` | crates/mova-application/src/media_enrichment.rs:117-123 | Finds a key exactly when it is among the last `capacity` keys that were new when inserted, and then the value last inserted for it. |
| `BoundedCache.BoundedCache.Insert` | crates/mova-application/src/media_enrichment.rs:125-141 | Refines the abstract insertion; the queue and the map stay in step, and the histories of new keys and of last values grow by this call. |
| `RequestReuse.OneLockPerKey` | crates/mova-application/src/media_enrichment.rs:78-102 | In every interleaving with cancellation, tasks that hold or wait for a lock share it exactly when their keys are equal, although the map holds weak references and is pruned on every access. |
| `RequestReuse.SingleFlight` | crates/mova-application/src/media_enrichment.rs:432-484 | Two provider calls for one canonical key never overlap. |
| `RequestReuse.CachedKeyIsNotCalled` | crates/mova-application/src/media_enrichment.rs:432-484 | While a provider call for a key runs, that key is not in the cache. |
| `RequestReuse.NoCallUntilEvicted` | crates/mova-application/src/media_enrichment.rs:432-484 | After a stored success the next call for that key starts only after `capacity` later, different new keys. |
| `RequestReuse.WaiterReusesResult` | crates/mova-application/src/media_enrichment.rs:432-484 | A task that waited for the same key while another called is done without a second call, and the result is cached. |
| `RequestReuse.HitOrOneCall` | crates/mova-application/src/media_enrichment.rs:432-484 | A cached key is answered at once; a task that finds nothing under its lock makes one call. |
| `RequestReuse.StepKeepsInv` | crates/mova-application/src/media_enrichment.rs:78-141 | Every task step, including cancellation at any await, keeps locks, owners, cache and call history consistent. |
| `RequestReuse.RequestLocks.LockSharedRequest` | crates/mova-application/src/media_enrichment.rs:78-102 | Called in a state of the machine, with any steps of other tasks between its two looks at the lock counts, it performs the task's two lock-map steps: the map and the lock it returns are the machine's, so the single-flight results speak about it. |
| `RequestKeys.SameKeyIff` | crates/mova-application/src/media_enrichment.rs:896-929 | Requests share a key exactly when they agree, up to case and surrounding space, on library type and language, and name the same item or else agree on normalized title, year and season hint. |
| `RequestKeys.KeyIsCanonical` | crates/mova-application/src/media_enrichment.rs:896-929 | Canonicalizing a key changes nothing exactly when the request names an item or normalizing its title twice is normalizing it once. |
| `RequestKeys.SameSeasonsSameKey` | crates/mova-application/src/media_enrichment.rs:942-954 | Outline requests share the season part of their key exactly when they ask for the same positive seasons, in whatever order and however often. |
| `RealtimeHub.RoutingEqualsVisibility` | apps/mova-server/src/realtime.rs:107-197 | For every hub state reached by publishing, subscribing, unsubscribing and disconnecting, a subscriber receives a message as often as it is owed, which is at least once exactly when the message is visible to it. |
| `RealtimeHub.ExactlyOnceUnlessRepeated` | apps/mova-server/src/realtime.rs:139-161 | A subscriber receives every visible message on exactly one receiver and every other on none, if and only if it is an administrator or its library list has no repetition. |
| `RealtimeHub.RunKeepsInv` | apps/mova-server/src/realtime.rs:106-210 | The channels of libraries, users, sessions and administrators stay distinct and every subscriber keeps listening to its own. |
| `RealtimeHub.SessionChannelIsDropped` | apps/mova-server/src/realtime.rs:163-175 | In every reached state, dropping a session frees its channel exactly when no live stream of the session is left. |
| `RealtimeHub.NewStreamStartsEmpty` | apps/mova-server/src/realtime.rs:139-161 | A new stream starts with nothing to read and changes nothing for the others. |
| `RealtimeHub.RealtimeHub.Publish` | apps/mova-server/src/realtime.rs:107-137 | Refines the abstract send to the channels of the message's audience. |
| `RealtimeHub.RealtimeHub.Subscribe` | apps/mova-server/src/realtime.rs:139-161 | Opens missing channels and returns receivers on exactly the subscriber's own. |
| `RealtimeHub.RealtimeHub.UnsubscribeSession` | apps/mova-server/src/realtime.rs:163-175 | Drops the session channel when nobody listens any more. |
| `RealtimeDispatcher.NoChangeSignalIsLost` | apps/mova-server/src/realtime.rs:385-498 | A key that arrived and was not included in a successful revision query since is in exactly the pending set its suffix selects; failing queries lose nothing, and nothing is pending that never arrived. |
| `RealtimeDispatcher.ChangedKeyIsRouted` | apps/mova-server/src/realtime.rs:385-397 | What one changed key does: a revoked session or a user is signed out, any other key joins exactly the set of its suffix. |
| `RealtimeDispatcher.FinishedHasNoBatch` | apps/mova-server/src/realtime.rs:402-465 | No job has both a finished guard and a pending progress batch. |
| `RealtimeDispatcher.FinishedStaysFinished` | apps/mova-server/src/realtime.rs:402-465 | Once finished, a job has no pending batch and publishes nothing until its guard goes. |
| `RealtimeDispatcher.FinishedSilencesJob` | apps/mova-server/src/realtime.rs:402-465 | Handling a finish that is not stale publishes it, and until its guard is dropped no later step publishes progress of that job. |
| `RealtimeDispatcher.GuardHoldsThroughIff` | apps/mova-server/src/realtime.rs:402-465 | Over any run the guard of a finished job is in place all the way exactly when no step is a newer event of the job or a tick after its age. |
| `RealtimeDispatcher.RealtimeDispatcher.HandleScanEvent` | apps/mova-server/src/realtime.rs:402-459 | Refines the abstract step for started, progress, item and finished events with their sequence numbers. |
| `RealtimeDispatcher.RealtimeDispatcher.FlushResourceKeys` | apps/mova-server/src/realtime.rs:484-526 | Puts all keys back when the query fails and publishes by audience when it succeeds. |
| `RealtimeDispatcher.RealtimeDispatcher.FlushScanProgress` | apps/mova-server/src/realtime.rs:528-538 | Refines the abstract tick: drops expired guards, publishes every batch it can name and clears them. |
| `RealtimeDispatcher.RealtimeDispatcher.HandleResourceChanged` | apps/mova-server/src/realtime.rs:385-401 | Routes a key to session invalidation or to the pending set its suffix selects. |
| `ScanBatches.BatchHoldsWhatCame` | apps/mova-server/src/realtime.rs:402-459 | In every run, the batch of a job holds the last snapshot and the last version of every item that came since the job was last published or finished, and there is one exactly when something came. |
| `ScanBatches.WhatCameIsPublished` | apps/mova-server/src/realtime.rs:402-483 | The step that empties a batch publishes in one message of the job the last version of every item collected, under the last snapshot, or the one the database has when none came. |
| `ScanBatches.TickPublishesEveryBatch` | apps/mova-server/src/realtime.rs:528-538 | A tick publishes exactly the batches it can name, each under its own snapshot or else the one the database has. |
| `ScanBatches.EventPublishes` | apps/mova-server/src/realtime.rs:402-459 | A handled checkpoint or finish publishes its snapshot with the items collected; other events publish nothing, and stale ones change nothing. |
| `ResourceKeys.AudienceOfKey` | apps/mova-server/src/realtime.rs:731-742 | On the text of a key: administrators hear of admin keys, a library or a user of keys that name it by number, and nobody of any other key. |
| `ResourceKeys.SessionKeys` | apps/mova-server/src/realtime.rs:714-729 | On the text of a key: which keys sign out a user, and which name a revoked web or native session. |
| `ResourceKeys.NegativeIsRead` | apps/mova-server/src/realtime.rs:710-712 | A decimal with a minus sign is read as its number when that fits 64 bits, and not at all otherwise. |
| `ResourceKeys.DecimalIsRead` | apps/mova-server/src/realtime.rs:710-712 | The same without a sign. |
| `ResourceKeys.ContinueWatchingKeys` | apps/mova-server/src/realtime.rs:385-397 | The suffix that selects the continue-watching set. |
| `RealtimeDelivery.WhoMaySee` | apps/mova-server/src/realtime.rs:107-137 | Scan messages are for owners, administrators and those with access to the library; changes and sign-outs for those their audience names. |
| `RealtimeDelivery.OutputReachesItsAudience` | apps/mova-server/src/realtime.rs:107-137 | In every hub state reached, an output of the dispatcher published through the hub reaches exactly the streams entitled to it. |
| `RealtimeDelivery.ChangeReachesItsAudience` | apps/mova-server/src/realtime.rs:484-526 | A pending key whose revision the database returns is in exactly one message of the flush, with that revision, and exactly the streams its audience names receive it. |
| `RealtimeDelivery.StepReachesItsStreams` | apps/mova-server/src/realtime.rs:381-498 | Sending all outputs of a step through the hub adds exactly the copies a stream is owed; it receives nothing exactly when it is entitled to none of them. |
| `MountTables.DeepestIs` | crates/mova-scan/src/storage.rs:92-106 | The deepest of the points at or above a path is unique. |
| `MountTables.MountAt` | crates/mova-scan/src/storage.rs:83-88 | The last entry for a mount point, the one on top. |
| `MountTables.MountHolding` | crates/mova-scan/src/storage.rs:92-106 | One pass from the end finds the top entry of the deepest mount at or above the path. |
| `MountTables.MountsBelow` | crates/mova-scan/src/storage.rs:109-122 | One top entry for each mount point strictly below the path. |
| `LibraryStorage.BuildRegions` | crates/mova-application/src/library_storage.rs:454-508 | Regions are the recorded mounts, the one holding the root and those below it; each carries its last record and its current entry, and the record decides the root's mount if it has one that holds it. |
| `LibraryStorage.KnownFilesPresent` | crates/mova-application/src/library_storage.rs:582-595 | One known file found is enough; otherwise a failed look-up is a failure, and only clean absence is absence. |
| `LibraryStorage.AssessLibraryStorage` | crates/mova-application/src/library_storage.rs:341-452 | Judges every region, root and others by their own rules, and decides. |
| `StorageRecords.VerdictMeans` | crates/mova-application/src/library_storage.rs:526-580 | Healthy, removed and each abnormal reason are given exactly when their own cause holds: timeout; nothing mounted, or recorded storage without the known files; files missing without a record; a failed look-up of known files, or a probe that could not read the root or mount. |
| `StorageRecords.RegionsAre` | crates/mova-application/src/library_storage.rs:454-508 | The regions are every recorded mount, the one that holds the root now, and those below the root. |
| `StorageRecords.RootPointIs` | crates/mova-application/src/library_storage.rs:454-508 | The root is on the deepest recorded mount at or above it; only without one does the table decide. |
| `StorageRecords.UnavailableExactlyWhen` | crates/mova-application/src/library_storage.rs:613-653 | The library is unavailable exactly when its root is abnormal and either on a network share, by record or else by the table, or not recorded; the issue is the root's. |
| `StorageRecords.UnavailableWithoutMount` | crates/mova-application/src/library_storage.rs:341-452 | Without a mount table, or without any mount for the root, it is unavailable and says so. |
| `StorageRecords.OnlyAHealthyShareAborts` | crates/mova-application/src/library_storage.rs:138-188 | A failure stops the scan only at the root itself, healthy on one of seven kinds of network share; every other path is skipped. |
| `StorageRecords.WalkedUnlessAway` | crates/mova-application/src/library_storage.rs:147-160 | Traversal is skipped exactly when the root folder is missing or its storage abnormal, and below the root exactly the mounts that are not healthy are left out. |
| `StorageRecords.AbnormalRootIsScanned` | crates/mova-application/src/library_storage.rs:613-653 | An example of a scan with an abnormal root: local storage that lost the library's files. |
| `StorageRecords.CurrentRootIsHolding` | crates/mova-application/src/library_storage.rs:203-234 | Whatever the record says, the deepest mounted region at or above the root is the mount that holds it now. |
| `StorageRecords.RecordIsWhatWasRead` | crates/mova-application/src/library_storage.rs:203-234 | Unless the root is abnormal, a mount is recorded exactly when it is healthy and holds the root or lies below it, as it is mounted now. |
| `StorageRecords.AbnormalRootKeepsItsRecord` | crates/mova-application/src/library_storage.rs:203-234 | With an abnormal root, the record is the root's old one and, as they are mounted now, the healthy mounts below the root. |
| `StorageRecords.HealthyRecordIsMounts` | crates/mova-application/src/library_storage.rs:203-234 | With every region healthy the record is exactly the mount holding the root plus the mounts below it. |
| `StorageRecords.RecordReadsBack` | crates/mova-application/src/library_storage.rs:203-508 | That record read back with the same table names the same root mount, has every region recorded as it is mounted, and asks for no known files. |
| `StorageRecords.RecordIsWrittenAgain` | crates/mova-application/src/library_storage.rs:203-508 | The next healthy scan with the same table writes the same record. |
| `StorageRecords.AbnormalRootIsLocal` | crates/mova-application/src/library_storage.rs:613-653 | An available plan with an abnormal root has a recorded, non-network root and skips the traversal. |
| `StorageRecords.AwayStepKeepsRoot` | crates/mova-application/src/library_storage.rs:203-234 | A scan with an abnormal root keeps the root's record and adds nothing that could hold the root. |
| `StorageRecords.RootRecordSurvives` | crates/mova-application/src/library_storage.rs:203-234 | Over any number of refused or abnormal scans the root's record is unchanged. |
| `StorageRecords.ReturningStorageIsRecognized` | crates/mova-application/src/library_storage.rs:377-388 | After any such run, the same storage mounted again needs no known files and is healthy once the root is readable in time. |
| `StorageRecords.RemovalNamesTheMissingMounts` | crates/mova-application/src/library_storage.rs:613-653 | That outcome names exactly the recorded mounts other than "/", none of which is in the mount table. |
| `StorageRecords.RemovalIsDocumentedUnlessSlashIsRecorded` | crates/mova-application/src/library_storage.rs:613-653 | The outcome means what the documentation says, every recorded mount gone, exactly when "/" is not recorded. |
| `StorageRecords.RemovalDiffersIff` | crates/mova-application/src/library_storage.rs:613-653 | The outcome and the documented rule, every recorded mount gone, differ in exactly two cases: a recorded "/" with every other mount gone, unless the root is abnormal network storage; and every mount gone while the root is abnormal and unrecorded. |
| `StorageRecords.RemovalAgainstTheDocumentation` | crates/mova-application/src/library_storage.rs:613-653 | Without a recorded "/" the outcome is the documented rule together with a recorded or normal root; with one the rule never holds, and the outcome asks for the other mounts alone. |
| `StorageRecords.UnrecordedRootKeepsTheLibrary` | crates/mova-application/src/library_storage.rs:613-653 | The second difference is real: an unreadable root without a record keeps a library whose every recorded mount is gone. |
| `StorageRecords.HealthyRootCanBeRemoved` | crates/mova-application/src/library_storage.rs:613-653 | Counterexample to the documentation: a healthy root on "/" and one removed mount below it remove the library. |
| `MissingMedia.VerifyMissingMediaPaths` | crates/mova-application/src/library_storage.rs:693-812 | The second look before deletion, with its loops over catalog and candidates. |
| `MissingMedia.LookUpAll` | crates/mova-application/src/library_storage.rs:753-768 | Collects the present candidates and whether any look-up failed. |
| `MissingMedia.NoUnjustifiedRemoval` | crates/mova-application/src/library_storage.rs:693-812 | An unobserved path in scope is left out of the present ones exactly when its storage is dead, its name is ignored, or looking it up did not find it. |
| `MissingMedia.VerifiedExactlyWhen` | crates/mova-application/src/library_storage.rs:693-812 | Deletion is allowed exactly when the root is on the mount scanned, with the same storage, kind of verdict and folder, and there is nothing to look up, or the look-ups finished and no failed one meets an unreadable root on healthy network storage. |
| `MissingMedia.ChangedRootDeletesNothing` | crates/mova-application/src/library_storage.rs:240-252 | Another root mount, other storage at it, another kind of verdict or a folder gone or back: the check reports a change and nothing is deleted. |
| `MissingMedia.OtherwiseNothingIsDeleted` | crates/mova-application/src/library_storage.rs:693-812 | The other outcomes, each exactly when: a lost worker is an error, a timeout a change, and an outage names the root's storage, recorded and current. |
| `MissingMedia.UnassessedDeletesNothing` | crates/mova-application/src/library_storage.rs:693-718 | Storage that is unavailable is reported with its issue, removed storage without one. |
| `MissingMedia.DeadByItsMount` | crates/mova-application/src/library_storage.rs:162-173 | A path is dead exactly when the deepest region at or above it, the root's included, is not healthy. |
| `MissingMedia.AbnormalNetworkRootDeletesNothing` | crates/mova-application/src/library_storage.rs:693-718 | Abnormal network or unrecorded storage under the root never leads to deletion. |
| `MissingMedia.UnreadableNetworkRootKeepsTheCatalog` | crates/mova-application/src/library_storage.rs:769-812 | If a healthy network root stops answering during the look-ups, whatever is still given up was dead, ignored or truly absent. |
| `MissingMedia.ExcludedPathsAreDeadOrLookedUp` | crates/mova-application/src/library_storage.rs:154-160 | A path discovery skips lies on dead storage, or on a healthy mount further down where it is looked up; dead storage below the root is always skipped. |
| `TmdbIds.NormalFormIsCanonical` | crates/mova-application/src/local_metadata.rs:345-352 | Normalizing keeps the number and normalizing again changes nothing. |
| `TmdbIds.OnlyDigitsSpell` | crates/mova-application/src/local_metadata.rs:345-352 | A value spells a number exactly when, trimmed and without a leading plus, it is decimal digits for a positive 64-bit number. |
| `TmdbIds.OtherDecimalsSpellNothing` | crates/mova-application/src/local_metadata.rs:345-352 | Zero and decimals beyond 64 bits spell nothing. |
| `Text.TrimRemovesSpace` | crates/mova-application/src/local_metadata.rs:550-553 | Trimming takes off white space at both ends and nothing else. |
| `Text.AsciiWhitespace` | crates/mova-application/src/local_metadata.rs:550-553 | Which ASCII characters are white space. |
| `TmdbIds.SameIdentifierSameNumber` | crates/mova-application/src/local_metadata.rs:345-352 | Two spellings are one identifier exactly when they spell the same positive number. |
| `TmdbIds.IdentityIsAgreement` | crates/mova-application/src/local_metadata.rs:332-343 | A document has an identity exactly when all its TMDB spellings agree, in whatever order. |
| `LocalNfo.ProjectAt` | crates/mova-application/src/local_metadata.rs:786-791 | After a projection a field holds the last stated value, or what it held before. |
| `LocalNfo.ReplaceStated` | crates/mova-application/src/local_metadata.rs:786-791 | Writes stated values in order and leaves fields alone that only blanks are given for. |
| `LocalNfo.ApplySeriesContainerArtwork` | crates/mova-application/src/local_metadata.rs:287-309 | Clears conventional artwork whose file is gone, then writes what was found. |
| `LocalNfo.ParentTexts` | crates/mova-application/src/local_metadata.rs:569-646 | A parent writes both titles from its title, the overview or else the outline, and the premiere or else the air date. |
| `LocalNfo.ParentDetails` | crates/mova-application/src/local_metadata.rs:569-620 | Original title, sort title, tagline and content rating come from the elements of their names. |
| `LocalNfo.ParentLists` | crates/mova-application/src/local_metadata.rs:569-620 | Countries, genres and studios are listed in their own fields, with a dot between any two, and not written when empty. |
| `LocalNfo.MovieArtwork` | crates/mova-application/src/local_metadata.rs:569-646 | A movie's first poster, backdrop and logo go to the file. |
| `LocalNfo.SeriesPictures` | crates/mova-application/src/local_metadata.rs:569-646 | A series' first poster, backdrop and logo go to the series. |
| `LocalNfo.SeasonTexts` | crates/mova-application/src/local_metadata.rs:569-646 | Title, overview, poster and backdrop of the season are those of the first season named under the file's number. |
| `LocalNfo.UnnamedSeasonSaysNothing` | crates/mova-application/src/local_metadata.rs:569-646 | Without such a season the document writes no season field. |
| `LocalNfo.EpisodeTexts` | crates/mova-application/src/local_metadata.rs:733-772 | Title, original title, sort title and overview of an episode come from their elements, the outline standing in for the overview. |
| `LocalNfo.EpisodeDetails` | crates/mova-application/src/local_metadata.rs:733-772 | Tagline and content rating come from their elements, the date from the air date or else the premiere. |
| `LocalNfo.EpisodePictures` | crates/mova-application/src/local_metadata.rs:733-772 | An episode's poster is its first thumbnail or else its first poster, its backdrop the first backdrop. |
| `LocalNfo.ConventionalArtwork` | crates/mova-application/src/local_metadata.rs:287-309 | Artwork found by convention goes to the series, each kind to its own field. |
| `LocalNfo.ParentKeepsToItsFields` | crates/mova-application/src/local_metadata.rs:569-646 | A parent never writes the fields of an episode; a movie none of a series, a series none of a file's artwork. |
| `LocalNfo.EpisodeKeepsToItsFields` | crates/mova-application/src/local_metadata.rs:733-772 | An episode document writes only episode fields and the file's poster and backdrop. |
| `ParentSelection.FoundIsBest` | crates/mova-application/src/local_metadata.rs:171-240 | The first match of the sorted, deduplicated candidates is the best document of the group that qualifies, and there is none only if none qualifies. |
| `ParentSelection.OfferIs` | crates/mova-application/src/local_metadata.rs:171-203 | A file offers its series document to a series and its own to a movie, when the document is of that kind. |
| `ParentSelection.BoundBy` | crates/mova-application/src/local_metadata.rs:323-330 | A file is bound by a provider item that spells a number when the provider is TMDB in any case. |
| `ParentSelection.FirstBindingCounts` | crates/mova-application/src/local_metadata.rs:323-330 | The first bound file decides the binding. |
| `ParentSelection.SelectedDocument` | crates/mova-application/src/local_metadata.rs:171-240 | Who speaks for the group: the best document with the bound identity, else the best without one; without a binding the best that does not contradict itself; nobody only if all are contradictory or of other identities. |
| `ParentSelection.ClashIsAmongDocuments` | crates/mova-application/src/local_metadata.rs:204-212 | The conflict flag is set exactly when some document contradicts itself or, without a binding, two documents disagree. |
| `ParentSelection.ChoiceIsOrderIndependent` | crates/mova-application/src/local_metadata.rs:171-240 | With the same binding, every order of the files gives the same document, hint and conflict. |
| `ParentSelection.ParentSelectionIsOrderIndependent` | crates/mova-application/src/local_metadata.rs:151-240 | For files whose bindings agree, the order of the files decides nothing. |
| `ParentSelection.BindingIsOrderIndependentIffAgreed` | crates/mova-application/src/local_metadata.rs:323-330 | The binding is the same in every order exactly when all bound files agree. |
| `ParentSelection.HintedBindingKeepsTheDocument` | crates/mova-application/src/local_metadata.rs:171-240 | Once enrichment binds the files to the identity hinted at, the same document keeps speaking for them. |
| `EpisodeSelection.SelectEpisodes` | crates/mova-application/src/local_metadata.rs:648-706 | The loop over the files: for every episode, the result of offering its documents in file order. |
| `EpisodeSelection.DocumentsAre` | crates/mova-application/src/local_metadata.rs:648-706 | The documents of an episode are those of its files that are an episode's, name no other season or episode, and do not contradict themselves. |
| `EpisodeSelection.PickedExactlyWhenDocumented` | crates/mova-application/src/local_metadata.rs:648-706 | An episode has a selected document exactly when one counts for one of its files. |
| `EpisodeSelection.PickIsSmallest` | crates/mova-application/src/local_metadata.rs:697-699 | The selected document has the smallest source path of those that fit. |
| `EpisodeSelection.EpisodeSelectionIsFileOrderIndependent` | crates/mova-application/src/local_metadata.rs:648-706 | Every order of the files selects the same document for an episode. |
| `EpisodeSelection.FlagNeedsClash` | crates/mova-application/src/local_metadata.rs:688-705 | The conflict flag is raised only if two documents of the episode differ in identity. |
| `EpisodeSelection.ForemostClashAlwaysFlags` | crates/mova-application/src/local_metadata.rs:688-705 | Two differing documents that come before every one without an identity raise the flag in every order. |
| `EpisodeSelection.FlagIsOrderIndependentIff` | crates/mova-application/src/local_metadata.rs:688-705 | The flag is the same for every order of an episode's documents exactly when no two differ, or two differ that both come, by path, before every document without an identity. |
| `EpisodeSelection.FlagIsFileOrderIndependentIff` | crates/mova-application/src/local_metadata.rs:648-706 | The same for every order of the files. |
| `EpisodeSelection.ThreeDocumentsInTwoOrders` | crates/mova-application/src/local_metadata.rs:688-705 | The same three documents of an episode raise the flag in one order and not in the other. |
| `LocalMetadata.ApplyGroupLocalMetadata` | crates/mova-application/src/local_metadata.rs:151-285 | Updates the files in place to the reset, parent-projected and episode-projected group and reports hint and conflict. |
| `LocalMetadata.ApplyEpisodeGroupProjection` | crates/mova-application/src/local_metadata.rs:648-731 | Projects in place each episode's selected document on all its files. |
| `LocalMetadata.ApplyParentProjection` | crates/mova-application/src/local_metadata.rs:569-646 | Projects the selected parent on one file, after conventional artwork for a series. |
| `LocalMetadata.FieldOfFile` | crates/mova-application/src/local_metadata.rs:249-285 | The final value of every field: the episode document, else the parent, else conventional artwork, else the old value unless it is stale conventional artwork. |
| `LocalMetadata.MarksOfFile` | crates/mova-application/src/local_metadata.rs:249-285 | A document is marked selected exactly when it is the one that speaks for its episode, movie or series, suppressed exactly when selected on conflict, and nothing else about the file changes. |
| `LocalMetadata.ClearedExactlyWhen` | crates/mova-application/src/local_metadata.rs:287-309 | Exactly the conventional artwork that is no longer found is cleared, each kind by its own finding. |
| `LocalMetadataReapplication.ApplyingTwiceIsApplyingOnce` | crates/mova-application/src/local_metadata.rs:147-285 | On unchanged documents, applying local metadata twice equals applying it once, for whole files. |
| `LocalMetadataReapplication.ReapplicationRestores` | crates/mova-application/src/local_metadata.rs:147-285 | However enrichment rewrote the files, bindings included, applying again gives every field of every file the value that the documents selected now state, clears stale conventional artwork and leaves the other fields as written. |
| `LocalMetadataReapplication.ReapplicationRestoresYears` | crates/mova-application/src/local_metadata.rs:147-285 | The same for the year of the movie or series and the year of the episode. |
| `LocalMetadataReapplication.ReapplicationRestoresTheSame` | crates/mova-application/src/local_metadata.rs:147-285 | With unchanged documents, and bindings unchanged or set to the identity hinted at, what is restored, fields and years, is what the first application wrote. |
| `LocalMetadataReapplication.SameChoice` | crates/mova-application/src/local_metadata.rs:147-285 | Unchanged bindings, or a binding to the identity hinted at, keep the selected document. |
| `StrictMatch.MatchStandsOut` | crates/mova-application/src/metadata.rs:574-735 | With a year or season hint the match is exactly the candidate that stands out: of the right year, the only one of the strongest rank that the season check leaves, within the limits of 40; ties give none. |
| `StrictMatch.MatchIsOrderIndependent` | crates/mova-application/src/metadata.rs:574-735 | With a year or season hint every order of the results gives the same match. |
| `StrictMatch.UndatedOrderMattersIff` | crates/mova-application/src/metadata.rs:574-735 | Without either, the order matters exactly when different candidates compete. |
| `StrictMatch.FirstOfTwoWins` | crates/mova-application/src/metadata.rs:574-735 | Two equally titled results without a year: the one listed first is bound, in both orders. |
| `StrictMatch.CompetingIsBestRank` | crates/mova-application/src/metadata.rs:1626-1763 | The six direct rules and three alternative ones together select all candidates of the best rank. |
| `StrictMatch.StrongestTierCompetes` | crates/mova-application/src/metadata.rs:1626-1763 | On titles and relations alone: exact titles before titles equal but for separators before numbered subtitles, the original before the translated title, alternative titles last; exactly the candidates of the right year in the strongest tier that has any compete. |
| `StrictMatch.StrongestTierWinsUndated` | crates/mova-application/src/metadata.rs:574-610 | The same for all results when neither year nor season is known, over their own titles. |
| `StrictMatch.UntitledPageWinsUndated` | crates/mova-application/src/metadata.rs:574-610 | When no result has such a title, the whole page competes. |
| `StrictMatch.SelectStrictMovieMatch` | crates/mova-application/src/metadata.rs:574-651 | The movie selector computes the match without a season. |
| `StrictMatch.SelectStrictTvMatch` | crates/mova-application/src/metadata.rs:653-735 | The series selector computes the match. |
| `StrictMatch.ClassifyAlternatives` | crates/mova-application/src/metadata.rs:611-652 | One pass sorts candidates by their strongest alternative title; a failed request drops the candidate. |
| `StrictMatch.FilterBySeason` | crates/mova-application/src/metadata.rs:737-782 | Keeps candidates whose season aired in the year; more than 40 candidates give none. |
| `StrictMatch.Deduplicate` | crates/mova-application/src/metadata.rs:1278-1292 | Keeps exactly the first result of every id, in the order of the results. |
| `RequestGate.SentAsSoonAsAllowed` | crates/mova-application/src/metadata.rs:257-275 | In every interleaving, a request is sent no sooner than asked, than 25 ms after every earlier one and than every earlier deferral allows, and it waits for nothing else. |
| `RequestGate.TurnsTakeTime` | crates/mova-application/src/metadata.rs:257-267 | Any stretch of a run with n requests takes at least n intervals. |
| `RequestGate.RetryDelayBounds` | crates/mova-application/src/metadata.rs:277-289 | The provider's own delay is kept up to 30 s; otherwise delays double from 250 ms, with 0 to 100 ms more by turns. |
| `RequestGate.TmdbRequestGate.SendJson` | crates/mova-application/src/metadata.rs:317-386 | At most three attempts; a retry only after a failure that may pass; each is sent exactly at the latest of when it is asked, 25 ms after the last and the delay after the failure; the result is the last outcome, which is final or the third. |
| `RequestGate.TmdbRequestGate.WaitTurn` | crates/mova-application/src/metadata.rs:258-267 | Takes the next slot and moves the gate one interval on. |
| `RequestGate.TmdbRequestGate.DeferFor` | crates/mova-application/src/metadata.rs:269-275 | Moves the gate to the deadline, never back. |
| `AuthRateLimit.EntryMeans` | apps/mova-server/src/auth_rate_limit.rs:70-123 | An entry read as a log: while its window is open it counts every failure since the window opened, below the threshold; the failure that reached the threshold started the lockout in force. |
| `AuthRateLimit.StepMeans` | apps/mova-server/src/auth_rate_limit.rs:70-123 | One more event keeps that reading; a new window opens exactly when the lockout is served, or without one when the window is over. |
| `AuthRateLimit.FailuresLockOut` | apps/mova-server/src/auth_rate_limit.rs:95-123 | Failures within one window add up, and the one that reaches the threshold locks the key out from then on. |
| `AuthRateLimit.ServedLockoutStartsAgain` | apps/mova-server/src/auth_rate_limit.rs:70-123 | After a lockout is over the key starts again with the next event. |
| `AuthRateLimit.RetainedAre` | apps/mova-server/src/auth_rate_limit.rs:135-141 | An entry is kept while its lockout lasts, and for twice the longer of window and lockout after it was last seen. |
| `AuthRateLimit.LockedExactlyAtThreshold` | apps/mova-server/src/auth_rate_limit.rs:95-123 | The counter never passes the threshold and reaches it exactly when the key is locked out. |
| `AuthRateLimit.LockoutLasts` | apps/mova-server/src/auth_rate_limit.rs:70-123 | Nothing that happens to a key before its deadline lifts, shortens or extends the lockout. |
| `AuthRateLimit.RemainingSecondsRoundsUp` | apps/mova-server/src/auth_rate_limit.rs:168-173 | The least whole number of seconds that reaches the deadline. |
| `AuthRateLimit.LockedKeyLeavesIffOldest` | apps/mova-server/src/auth_rate_limit.rs:125-154 | Making room can forget a locked key exactly when a new key meets a table full of live entries of which it is one seen longest ago. |
| `AuthRateLimit.ThirdKeyEndsALockout` | apps/mova-server/src/auth_rate_limit.rs:125-154 | Two locked keys in a table of two: a failure of a third key forgets the first in the middle of its lockout, whatever the choices made. |
| `AuthRateLimit.AuthRateLimiter.CheckAt` | apps/mova-server/src/auth_rate_limit.rs:70-93 | Refuses exactly during a lockout, with the rounded-up seconds; extends the log of a tracked key and tracks no new one. |
| `AuthRateLimit.AuthRateLimiter.RecordFailureAt` | apps/mova-server/src/auth_rate_limit.rs:95-123 | Extends the log of the key after making room, and reports the lockout; the table never exceeds its capacity. |
| `AuthRateLimit.AuthRateLimiter.MakeRoom` | apps/mova-server/src/auth_rate_limit.rs:125-154 | Forgets stale entries, and the oldest if that is not enough, only for a new key at a full table. |
| `AuthRateLimit.AuthRateLimiter.RecordSuccess` | apps/mova-server/src/auth_rate_limit.rs:62-68 | Forgets exactly that key. |
| `OutlineMerge.MergeRemoteOutline` | crates/mova-application/src/media_items.rs:835-981 | The nested loops compute the specified merge. |
| `OutlineMerge.MergeEpisodes` | crates/mova-application/src/media_items.rs:857-914 | Remote episodes numbered from one, then the local ones not listed, sorted by number. |
| `OutlineMerge.SeasonsAreTheLocalOnes` | crates/mova-application/src/media_items.rs:835-981 | Exactly the local seasons, in ascending order, under their own ids. |
| `OutlineMerge.EpisodesPerNumber` | crates/mova-application/src/media_items.rs:835-981 | How often every episode number appears: as often as listed, or once if only the library has it. |
| `OutlineMerge.MergedBelongs` | crates/mova-application/src/media_items.rs:835-981 | An outline episode carries the item and availability of the local episode of its number, or none. |
| `OutlineMerge.MergedAreSorted` | crates/mova-application/src/media_items.rs:835-981 | Episodes come in ascending order. |
| `OutlineMerge.ItemsAreConserved` | crates/mova-application/src/media_items.rs:835-981 | Within one merged season every local item appears, exactly once if and only if the provider lists its number at most once. |
| `OutlineMerge.OutlineConservesItems` | crates/mova-application/src/media_items.rs:835-981 | In the whole outline a local item is shown once, or as often as the last season listed under its number lists its episode, never in another season, and so exactly once if and only if listed at most once there. |
| `OutlineMerge.OutlineShows` | crates/mova-application/src/media_items.rs:835-981 | Everything shown: titles and overviews are the provider's or else the library's, pictures the provider's where it lists the season or episode, intro, item, availability and progress always the library's. |
| `OutlineMerge.OutlineSeasonsHoldTheInventory` | crates/mova-application/src/media_items.rs:835-981 | Every season of the outline ascends, its episodes belong to the local ones of their numbers, and each number appears as often as the season in force lists it, or once if only the library has it. |
| `OutlineMerge.LastSeasonCounts` | crates/mova-application/src/media_items.rs:835-981 | Of several provider seasons with one number the last is in force. |
| `OutlineMerge.ForeignSeasonsChangeNothing` | crates/mova-application/src/media_items.rs:835-981 | Seasons the library lacks or that are numbered below one do not change the result. |
| `OutlineMerge.EmptyOutlineIsLocal` | crates/mova-application/src/media_items.rs:791-833 | Merging an empty outline equals the local outline. |
| `IntroFingerprint.RepresentativesSpanTheSeason` | crates/mova-application/src/intro_detection.rs:224-240 | More than eight inputs are sampled from first to last, at strictly increasing positions. |
| `IntroFingerprint.SampleIndexIsNearest` | crates/mova-application/src/intro_detection.rs:224-240 | Each position is the one nearest to the even spacing. |
| `IntroFingerprint.StreamDeterminesInputs` | crates/mova-application/src/intro_detection.rs:242-255 | Two input lists give the same bytes exactly when they are canonically the same. |
| `IntroFingerprint.CodeLayout` | crates/mova-application/src/intro_detection.rs:245-253 | The order of everything in the code of an input. |
| `IntroFingerprint.NumberBytes` | crates/mova-application/src/intro_detection.rs:245-253 | Numbers are in two's complement, least byte first. |
| `IntroFingerprint.ShortNumberBytes` | crates/mova-application/src/intro_detection.rs:245-253 | The same for 32-bit numbers. |
| `IntroFingerprint.SameCanonicalInput` | crates/mova-application/src/intro_detection.rs:242-255 | The defaults confuse only a duration of -1 with none and an empty hash with none. |
| `IntroFingerprint.SameOne` | crates/mova-application/src/intro_detection.rs:245-253 | The encoding of one input can be told apart from whatever follows it. |
| `IntroFingerprint.FeedHasher` | crates/mova-application/src/intro_detection.rs:242-255 | The loop feeds exactly that byte stream. |
| `IntroFingerprint.SameText` | crates/mova-application/src/intro_detection.rs:275-278 | A length-prefixed text can be told apart from what follows. |
| `ScanRegistry.OneActiveScanPerLibrary` | apps/mova-server/src/state.rs:129-225 | In every interleaving, of two handles for a library all but one have left the table or finished. |
| `ScanRegistry.HandlesAreAccountedFor` | apps/mova-server/src/state.rs:129-225 | Every handle given out is registered, on its way out, or finished, and only one of these. |
| `ScanRegistry.NoScanStartsDuringDeletion` | apps/mova-server/src/state.rs:129-183 | While a delete guard lives no scan of the library is registered. |
| `ScanRegistry.ForeignFinishChangesNothing` | apps/mova-server/src/state.rs:199-220 | A finish for another job or an idle library changes nothing. |
| `ScanRegistry.ApplyKeepsInv` | apps/mova-server/src/state.rs:129-254 | Every step keeps the table, the guards and the handles consistent. |
| `ScanRegistry.Registry.RegisterScan` | apps/mova-server/src/state.rs:150-183 | Refuses while deleting or scanning; otherwise issues the one unfinished handle of the library. The registration step of the machine. |
| `ScanRegistry.Registry.ActiveScanOf` | apps/mova-server/src/state.rs:186-196 | The handle of the running scan is the one issued; if there is none, all of the library are finished. |
| `ScanRegistry.Registry.FinishScan` | apps/mova-server/src/state.rs:199-220 | Finishes the running scan if it is that job's; no other flag changes. The machine's removal, followed by marking the handle finished when it was that job's. |
| `ScanRegistry.Registry.BeginDelete` | apps/mova-server/src/state.rs:131-141 | Only one deletion of a library at a time; the step of the machine that issues a guard. |
| `ScanRegistry.Registry.EndDelete` | apps/mova-server/src/state.rs:222-225 | Dropping the guard of a deletion lets scans of that library start again, and is the machine's step for it. |
| `ScanRegistry.AdmittedExactly` | apps/mova-server/src/state.rs:48-67 | A request gets through exactly the directories never admitted or over the cooldown of their last admission, once each, in whatever order the clocks were read. |
| `ScanRegistry.DecidedAsDocumentedIff` | apps/mova-server/src/state.rs:45-67 | A request decides a directory by the documented cooldown exactly when it was not overtaken: no request that read a later clock, past the cooldown, came to the table before one that is still within it. |
| `ScanRegistry.NotOvertakenInOrder` | apps/mova-server/src/state.rs:45-67 | Requests that come to the table in the order of their instants are never overtaken. |
| `ScanRegistry.OvertakenRequestIsAdmittedEarly` | apps/mova-server/src/state.rs:45-67 | Instants 0, 600, 599 in the order of the table: the third is admitted within the cooldown. |
| `ScanRegistry.MediaInspectionThrottle.Admit` | apps/mova-server/src/state.rs:48-67 | The pruned table decides as the full history of requests and admissions would, for any instants. |
| `CacheFiles.DestinationsAreWhole` | crates/mova-application/src/cache.rs:130-183 | However writers interleave and wherever they stop, a destination holds what it held at the start or the whole payload of a writer that published: publishing checks only that the temporary file is not empty, and wholeness comes from the write having reported success. |
| `CacheFiles.PublishReplacesOnlyTheDestination` | crates/mova-application/src/cache.rs:187-204 | Publishing puts the whole payload at the destination, takes the temporary file away and touches nothing else. |
| `CacheFiles.EndedWriteLeavesNoTemporary` | crates/mova-application/src/cache.rs:113-119 | A published write leaves no temporary file, and neither does a failed one whose cleanup succeeds. |
| `CacheFiles.WriteAtomically` | crates/mova-application/src/cache.rs:130-183 | Success replaces the destination alone; a failure at any step changes nothing but a temporary file that could not be removed. |

## Left out

- SQL, HTTP handlers, cookies, response mapping, environment parsing, the web front ends and translations: plumbing with easy claims.
- Real file-system calls, `statvfs`, FFmpeg, the HTTP client, timers and the database listener: parameters of the model.
- AudioTrackQuota.QuotaHoldsInEveryRun: supposes distinct temporary paths, one cache root and quota, no other writer in the directory, and a listing that returns every file not touched while it runs, whose sizes add up below 2^64; instants of modification are arbitrary.
- AudioTrackCache.AudioTrackCacheCoordinator.Reserve: proved as one call without interference, and as a run of the machine when the files together stay below 2^64 bytes and the temporary path is new; interleavings are `AudioTrackQuota`.
- AudioTrackPruning.CacheDirectory.PruneToLimit: that the result is the true remaining total needs sizes that add up below 2^64, because the code saturates.
- RequestReuse.SingleFlight: concerns one process and one shared set of caches; failed lookups are not cached, as in the code.
- RequestKeys.SameKeyIff: title normalization is a parameter, of which nothing is supposed; Unicode case folding is not modelled.
- RealtimeHub.RoutingEqualsVisibility: each hub operation is one step, although subscribing releases the map lock before it joins a channel; the 32-message buffer that a slow receiver can overrun, and messages that fail to serialize, are not modelled.
- RealtimeDispatcher.FinishedStaysFinished: says nothing about the order of progress events, since a transient event with a lower sequence number may be applied after a reliable one with a higher.
- The revisions and items inside a scan message and their sort order, and the two queues in front of the dispatcher.
- LibraryStorage.BuildRegions: regions are a map, so their order is left out; diagnostic texts are left out, and which known files are sampled is the environment's answer.
- MissingMedia.VerifyMissingMediaPaths: the fresh assessment, the catalog and the look-up answers are inputs; that canonicalizing the root may fail is part of the answers.
- Parsing of the mount table's text.
- LocalMetadata.ApplyGroupLocalMetadata: files are values in an array and their optional texts one map by field; artwork discovery is a function of the document, that is, the file system does not change between calls.
- ParentSelection.SelectedDocument: whether a document is named after a file is a parameter, because the code resolves links.
- NFO parsing, snapshots, ratings, credits and artwork sanitizing: branch-level checks.
- StrictMatch.MatchStandsOut: the three title relations are parameters, and the provider's answer for an id does not change during one selection; the search's page limit is left out.
- RequestGate.TmdbRequestGate.SendJson: the caller has the gate to itself; requests of several callers are covered by `RequestGate.SentAsSoonAsAllowed`. Which status codes and transport errors are transient, and the parsing of Retry-After (section 10.2.3 of RFC 9110), are inputs.
- AuthRateLimit.AuthRateLimiter.RecordFailureAt: instants do not overflow, and the choice between equally old keys is arbitrary.
- OutlineMerge.MergeRemoteOutline: ordered maps are ascending sequences, and playback progress is reduced to two fields.
- IntroFingerprint.StreamDeterminesInputs: concerns the bytes fed to SHA-256, not the digest; texts are their UTF-8 bytes and lengths fit 64 bits.
- ScanRegistry.HandlesAreAccountedFor: waiting for a scan to finish is left out, because the code checks the flag and only then registers for the notification, so waking up is not guaranteed.
- CacheFiles.DestinationsAreWhole: durability after a crash of the machine is left out; the lock around a cache path follows the pattern proved in `RequestReuse`.
- The lease heartbeat and retry back-off of background jobs: its window and tick do not give the strict timing that would be worth stating.
