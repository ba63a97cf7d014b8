# loraplex, modelled and proved in Dafny

loraplex is an HTTP proxy in front of vLLM that keeps LoRA adapters on disk and spreads
requests over a cluster. This project models its stateful parts and proves how they behave
over every input and every run, and under which interleavings they keep their promises.

| file | models | form |
|---|---|---|
| `HashRing.dfy` | `internal/routing/ring.go` | class `Ring` over a sorted slice and a peer map, with a reference definition "nearest virtual node clockwise" |
| `Lru.dfy` | `internal/cache/lru.go` | class `LRU` (map, list of elements, byte counter) refining a recency sequence; `container/list` is a sequence of element objects |
| `Staging.dfy` | the staging-directory name (`internal/cache/manager.go:98-105`) | functions on strings |
| `Disk.dfy` | the directory tree, metadata files, recursive delete, rename | functions on maps |
| `AdapterStore.dfy` | `internal/cache/store.go` | class `Store` over a disk and an `LRU` |
| `CacheMachine.dfy` | all of the cache as one state machine: overlapping fetches, hits, evictions, refreshes, crashes; one step per filesystem call, directory scan or index operation | datatypes |
| `CacheInvariants.dfy`, `CacheAgreement.dfy`, `CacheTheorems.dfy`, `CacheSizes.dfy`, `CacheCapacity.dfy`, `CacheConservation.dfy` | what every step of that machine keeps, and the theorems over its runs | lemmas |
| `CacheWitness.dfy` | runs from an empty cache that show which promises cannot be kept | lemmas that build runs |
| `CacheReached.dfy` | what the manager's calls are as machine steps | lemmas |
| `CacheMeta.dfy` | `internal/cache/meta.go` and the identity test of `revalidateAdapter` | functions, with what they mean stated without them |
| `CacheManager.dfy` | `internal/cache/manager.go` | class `Manager`, whose ghost state runs the machine alongside the real fields |
| `Revalidation.dfy`, `CheckTiming.dfy` | the timing of background revalidation, and its link to metadata files and flags | state machine; lemmas |
| `Routing.dfy`, `Forwarder.dfy` | `internal/routing/forwarder.go`, `internal/proxy/proxy.go` | protocol over a cluster with changing rings and a failing network; class `Forwarder` for one node |
| `Admin.dfy`, `EvictBroadcast.dfy` | `internal/admin/handler.go` (evict) | class `AdminHandler`; broadcast protocol |
| `Membership.dfy` | `internal/discovery/file.go`, feeding the ring | class `FileDiscovery`; timed protocol over `real` time |
| `HashKey.dfy` | `internal/proxy/body.go` (`buildHashKey`), `internal/config/config.go` (`validateHashOn`) | functions on strings |

How the parts hang together: the methods of `Store` and `Manager` change real fields, and
`Manager.Valid()` says that disk and index are always those of a machine state that some run
from an empty cache reaches in which nothing overtakes an index insertion, as is the case for
calls made one at a time, restarts included. Interleaved calls are runs of the machine itself. What the filesystem, the clock
and the origins answer is an argument (a "script") of the method, so each contract is for
all answers, failures included. SHA-256 is a pair of uninterpreted functions into 32 bits.
Loads are real numbers and arbitrary inputs.

## Premises the code relies on but does not enforce

- Adapter IDs are canonical paths, none is a path prefix of another, none starts with
  ".tmp", and no two flatten to one staging name (`Disk.GoodIds`). The exact conditions:
  another ID shares the staging directory of an ID if and only if that contains "/" or "__"
  (`StagingSharedIff`; the pair "a/b" and "a__b" is `StagingCollision`); an eviction keeps
  every indexed adapter on disk if and only if no other indexed ID lies below the evicted one
  (`EvictionKeepsAgreementIff`, `NestedIdsBreakAgreement`); a restart relists an adapter if
  and only if its ID does not start with ".tmp" and its size can be read (`Store.Rebuild`).
- A successful `Fetch` leaves `adapter_config.json` in place (`CacheManager.Honest`). The HTTP
  and HuggingFace origins check this, the S3 origin does not.
- While an adapter is being fetched no other fetch and no new hit of it starts: `singleflight`
  sees to that among `ensure` calls, but not between an `ensure` and the refetch of a background
  revalidation of the same adapter. A hit that is already under way may be overtaken by one.
- Properties that compare two rings assume that no two different peers share a virtual-node
  hash, because `sort.Slice` is not stable. `OwnerFixedIffNearestPeerUnique` is the exact condition.

## Where the code does less than its documentation says

- Looking at the disk and marking an adapter in the index are separate steps, and no lock
  covers both. An eviction, a room-making or a revalidation that takes the adapter out in
  between leaves the index listing an adapter without a directory, though no call fails
  (`EvictionOvertakesHit`, `RoomOvertakesHit`; from an empty cache, `AgreementCanBreak`). The
  index lists only adapters on disk and not about to be deleted in every state of a run if and
  only if every insertion finds its adapter like that (`AlignedIffInsertionsLand`), which, as long as deletes
  work, is if and only if nothing picked the adapter since it was looked at
  (`LandsIffUndisturbed`). The next restart repairs the index (`CrashRecovery`).
- A size is recorded once. A hit that scanned the old copy and touches after a revalidation has
  installed the new one leaves the old size in the index (`StaleSizeIndexed`; from an empty
  cache, `SizesCanBreak`). Where insertions land, recorded sizes cover the bytes on disk in
  every state if and only if every newcomer is inserted with a size that does
  (`CoveredIffInsertionsAccurate`), as is the case for calls made one at a time (`ReachedInv`).
- A delete that fails halfway but leaves the configuration file is relisted by a restart, and
  then complete if and only if nothing else is missing (`HalfDeletedRelistedIff`,
  `HalfDeletedIsRelisted`).
- `storage.max_size` is documented as bounding disk usage. Overlapping fetches each make room
  before any of them is indexed, so `k` of them can hold `(k - 1) * size` bytes more
  (`CapacityBound`, reached by runs from an empty cache in `CapacityBoundIsReached`). Exactly:
  indexed plus in-flight bytes are within the limit in every state of a run if and only if
  every room-making finds that its adapter and all reservations of others fit and that room
  for all of them takes no more out of the index than room for its own (`RoomWithinIff`),
  every hit re-touches an indexed adapter or finds room for what it scanned, and every restart
  finds no more on disk than fits (`WithinLimitIff`). For a fetch alone that means that the
  adapter itself fits (`LoneFetchFitsIff`).
- `hash_on: header:a/b` passes validation as header `a/b` and is then read as header `a`
  (`SlashInNameMisread`; exact condition in `NamesAgreeIffNoSlash`).
- When no origin answers `Head`, or the metadata write fails and leaves the file as it was, the
  metadata stays expired and the next request starts the next check at once, and only then
  (`RestartsAtOnceIff`); without answers there is no rate at all (`UnansweredHasNoRate`). A
  metadata write that fails after truncating leaves a file that cannot be read, and the
  adapter is not checked again until it is fetched anew (`MaybeRevalidate`).
- A time to live below one second is recorded as 0 seconds, and such a copy is never checked
  (`RecordedIsDueIff`). A copy whose origin gave neither ETag nor revision is fetched anew by
  every check (`FetchedIdentityIff`).
- A heartbeat file whose first line is blank announces the empty address (`BlankLineAnnounces`;
  what any file announces is in `AnnouncesFirstLine`).
- `ForwardWithFallback` looks the owner up a second time, so a ring change after the decision
  can make a node forward to itself and execute the request twice (`ChangingRingExecutesTwice`);
  the request is still bounded. Under any ring changes a node is visited twice if and only if
  that forward arrived (`RepeatsIffCameBack`), and it is sent if and only if the second lookup
  finds the node to own the key (`ForwardsToSelfIff`).
- A composite key without its value is the model alone, so a request without a tenant and with
  model `acme/foo` is routed like tenant `acme` with model `foo` (`MissingTenantCollides`; all
  collisions in `KeysCollideIff`).
- Files that a failing origin has written stay in the staging directory and are installed with
  the copy of the next origin that succeeds (`FailedOriginLeaks`). The installed directory is
  that origin's copy and nothing else if and only if it has a file of the same name for each
  of them (`FinishedIsPureIff`).

## Model

| member | source | states |
|---|---|---|
| `HashRing.RotationIsClockwise` | internal/routing/ring.go:85-98 | walking on from the search index with wraparound never comes closer to the key again |
| `HashRing.SlotIsModulo` | internal/routing/ring.go:92 | the wraparound used in the proofs is the code's modulo |
| `HashRing.ProbeIsNearest` | internal/routing/ring.go:85-98 | the first probe that hits a pool of virtual nodes is a nearest one of that pool |
| `HashRing.OwnerIsNearest` | internal/routing/ring.go:57-74 | the search names a member at the least clockwise distance; it names none exactly on an empty circle |
| `HashRing.OwnerIsUnique` | internal/routing/ring.go:57-74 | without cross-peer ties a key has at most one owner |
| `HashRing.DistinctHashesHaveNoTies` | internal/routing/ring.go:137-145 | hashes that tell peers apart satisfy the tie premise |
| `HashRing.OwnerRefinesNearest` | internal/routing/ring.go:57-74 | the code's answer is `p` if and only if `p` is nearest clockwise |
| `HashRing.SameMembersSameOwner` | internal/routing/ring.go:36-74 | nodes that know the same member set agree on every owner, whatever the order or duplicates they were told |
| `HashRing.OwnerFixedIffNearestPeerUnique` | internal/routing/ring.go:51-53 | every outcome of the unstable sort gives the same owner if and only if the nearest virtual nodes belong to one peer |
| `HashRing.TieSplitsOwnership` | internal/routing/ring.go:51-53 | two sorted arrangements of one tie that name different owners |
| `HashRing.MinimalDisruption` | internal/routing/ring.go:36-74 | growing the member set by any set of peers leaves a key's owner unless a newcomer takes it |
| `HashRing.AddingPeer` | internal/routing/ring.go:36-74 | adding a peer changes an owner only to that peer |
| `HashRing.RemovingPeer` | internal/routing/ring.go:36-74 | removing a peer changes only the keys it owned |
| `HashRing.FallbackIsNearestOther` | internal/routing/ring.go:77-100 | the fallback is nearest among the other peers' virtual nodes, and nil exactly when there are none; no tie premise |
| `HashRing.FallbackIsOwnerWithout` | internal/routing/ring.go:77-100 | skipping a peer names whom a ring rebuilt without that peer would name as owner |
| `HashRing.AppendedIsPool` | internal/routing/ring.go:43-49 | the appended slice holds exactly the members' virtual nodes, duplicates in the address list included |
| `HashRing.SortByHash` | internal/routing/ring.go:51-53 | sorted by hash and a permutation, no more |
| `HashRing.Ring.Update` | internal/routing/ring.go:36-54 | members are exactly the given addresses, loads are back to 0, the slice is a sorted permutation of what was appended |
| `HashRing.Ring.SearchIndex` | internal/routing/ring.go:66-68 | the binary search finds the smallest index whose hash is at least the key's |
| `HashRing.Ring.Owner` | internal/routing/ring.go:57-74 | returns a peer of the peer map that is nearest clockwise; nil exactly when no virtual node exists |
| `HashRing.Ring.Fallback` | internal/routing/ring.go:77-100 | returns a known peer other than the skipped one, nearest among the others; nil exactly when the others have no virtual node |
| `HashRing.Ring.Peers` | internal/routing/ring.go:119-127 | every peer exactly once |
| `HashRing.Ring.UpdatePeerLoad` | internal/routing/ring.go:129-135 | sets the load of a known peer and nothing else |
| `Lru.KeptIsLongestFit` | internal/cache/lru.go:60-67 | eviction keeps the longest prefix that leaves room: it fits or is empty, and no longer prefix fits |
| `Lru.TouchedTotal` | internal/cache/lru.go:31-50 | touching adds the size of a newcomer and nothing for a known adapter |
| `Lru.TouchedSpec` | internal/cache/lru.go:31-50 | touching keeps each adapter listed once and puts it in front |
| `Lru.TouchedKeepsOrder` | internal/cache/lru.go:35-49 | a touch puts its adapter before all others and keeps those in their order |
| `Lru.WithoutKeepsOrder` | internal/cache/lru.go:75-82 | a removal keeps the others in their order |
| `Lru.WithoutAt` | internal/cache/lru.go:75-82 | removing an adapter cuts out its one position and keeps the order of the rest |
| `Lru.CutTotal` | internal/cache/lru.go:82 | the counter drops by exactly the removed entry's size |
| `Lru.LinkedIds` | internal/cache/lru.go:15-21 | the map's keys are the list's adapters |
| `Lru.LRU.Touch` | internal/cache/lru.go:31-50 | refines `Touched`; map, list and counter stay consistent |
| `Lru.LRU.Evict` | internal/cache/lru.go:55-69 | removes exactly the suffix outside the longest fitting prefix and returns it oldest first |
| `Lru.LRU.Remove` | internal/cache/lru.go:71-84 | refines `Without`; reports whether the adapter was listed |
| `Lru.LRU.Contains` | internal/cache/lru.go:86-91 | true exactly for the listed adapters |
| `Lru.LRU.Items` | internal/cache/lru.go:109-117 | all IDs, most recent first |
| `Staging.RestoreIffUnambiguous` | internal/cache/manager.go:99 | flattening "/" to "__" can be undone if and only if no underscore stands before an underscore or a slash |
| `Staging.StagingIsolated` | internal/cache/manager.go:99-100 | two distinct IDs without an underscore before an underscore or a slash never share a staging directory |
| `Staging.StagingSharedIff` | internal/cache/manager.go:99-100 | another ID shares the staging directory of an ID if and only if that ID contains "/" or "__" |
| `Staging.TwinShares` | internal/cache/manager.go:99-100 | the other ID: one "/" turned into "__", or one "__" into "/" |
| `Staging.StagingCollision` | internal/cache/manager.go:99-100 | "a/b" and "a__b" share one |
| `Disk.SumRemove` | internal/cache/store.go:122-138 | the size of a directory does not depend on the order of the walk |
| `Disk.PathsApart` | internal/cache/store.go:24-26 | over good IDs no adapter or staging directory lies in another |
| `Disk.FlatIdsAreGood` | internal/cache/store.go:24-26 | IDs without a slash that are no staging names satisfy the premise on IDs |
| `Disk.RemoveOnly` | internal/cache/store.go:66-69 | a recursive delete, successful or not, changes only its own directory |
| `Disk.RemoveSparesOthersIff` | internal/cache/store.go:66-69 | as far as the disk goes, a delete leaves all other directories alone if and only if none lies below it |
| `AdapterStore.TouchAllReverses` | internal/cache/store.go:116-118 | touching in order of time leaves the newest in front |
| `AdapterStore.LeftoversAreChosen` | internal/cache/store.go:58-68 | the scripts cover everything that a failing delete can leave |
| `AdapterStore.CollectedRebuilds` | internal/cache/store.go:85-118 | sorting and touching what the walk collected gives a rebuilt index |
| `AdapterStore.Store.MeasureDir` | internal/cache/store.go:122-138 | the loop computes the sum of all file sizes |
| `AdapterStore.Store.Touch` | internal/cache/store.go:47-54 | a failed size scan leaves the index alone, a successful one touches with the measured size |
| `AdapterStore.Store.MakeRoom` | internal/cache/store.go:56-64 | the index loses its shortest sufficient suffix at once; directories go oldest first until a delete fails |
| `AdapterStore.Store.Remove` | internal/cache/store.go:66-69 | forgets the adapter even when the delete fails |
| `AdapterStore.CollectedRelistsIff` | internal/cache/store.go:87-118 | an adapter on disk is relisted if and only if its ID does not start with ".tmp" and its size can be read |
| `AdapterStore.Store.Rebuild` | internal/cache/store.go:75-120 | from an empty index: exactly the readable directories with a configuration file and no ".tmp" prefix, once each, in the order of the configuration files' modification times, newest first |
| `AdapterStore.SortByMod` | internal/cache/store.go:112-114 | ordered by time, same adapters |
| `CacheMachine.VictimsLeave` | internal/cache/lru.go:55-69 | the victims of a room-making are exactly the entries that leave the index, each once |
| `CacheInvariants.DeleteEffect` | internal/cache/store.go:58-68 | a failing or succeeding delete touches only its own directory, and leaves nothing there but what was there |
| `CacheInvariants.StepStaging` | internal/cache/manager.go:107-140 | from download to rename a staging directory holds one complete download of its adapter |
| `CacheInvariants.StepOwnFiles` | internal/cache/manager.go:98-153 | every file in an adapter's or staging directory was written by fetches of that adapter |
| `CacheInvariants.RunInv` | internal/cache/manager.go:74-223 | disk and staging invariants hold in every state of every run, whatever interleaves, crashes included |
| `CacheAgreement.SafeStep` | internal/cache/store.go:56-69 | an adapter on disk that nobody is about to delete stays so through every step that does not take it out of the index for deletion |
| `CacheAgreement.StepAlignedIff` | internal/cache/manager.go:75-76 | a step keeps the index right if and only if it does not insert an adapter that is gone or about to be deleted |
| `CacheAgreement.AlignedIffInsertionsLand` | internal/cache/manager.go:74-154 | in every run, whatever fails, the index lists only adapters on disk and not about to be deleted in all states if and only if every insertion finds its adapter so |
| `CacheAgreement.LandsIffUndisturbed` | internal/cache/store.go:47-54 | an insertion lands if no eviction, room-making or revalidation picked its adapter since it was seen or put on disk; while deletes work, only if |
| `CacheAgreement.UndisturbedRunsAgree` | internal/cache/manager.go:74-154 | so the index lists only adapters on disk in every run in which nothing is overtaken like that |
| `CacheAgreement.EvictionOvertakesHit` | internal/cache/manager.go:75-76 | from every state with an adapter on disk, an eviction between the scan and the index insertion of a hit leaves it indexed and gone, no call failing |
| `CacheAgreement.RoomOvertakesHit` | internal/cache/store.go:47-64 | the same with another fetch making room, and the index counts bytes nobody made room for |
| `CacheTheorems.IndexAgreesWithDisk` | internal/cache/manager.go:74-154 | when every insertion lands, indexed adapters are always on disk; when moreover no call fails and nothing is being fetched or deleted, the two sets are equal |
| `CacheTheorems.EvictionKeepsAgreementIff` | internal/cache/store.go:66-69 | whatever the IDs, an eviction keeps every indexed adapter on disk if and only if no other indexed ID lies below the evicted one |
| `CacheTheorems.NestedIdsBreakAgreement` | internal/cache/store.go:66-69 | evicting "a" deletes "a/b" while the index still lists it |
| `CacheTheorems.CrashRecovery` | internal/cache/store.go:75-120 | cut any run, whatever fails, between any two steps: a rebuild lists exactly the adapters with a configuration file, once each, newest first, with nobody else's files and no staging directory, and the index is right again; while deletes are whole or nothing, all adapters on disk, each complete |
| `CacheTheorems.HalfDeletedRelistedIff` | internal/cache/store.go:91-96 | what a failing delete leaves is relisted if and only if the configuration file is left, and complete if and only if no file is missing |
| `CacheTheorems.HalfDeletedIsRelisted` | internal/cache/store.go:66-69 | a delete that leaves the configuration file without the weights, relisted though incomplete |
| `CacheCapacity.LoadOverRun` | internal/cache/manager.go:132-152 | indexed plus in-flight bytes stay within the limit plus `k` further adapters, by induction over the run |
| `CacheCapacity.CapacityBound` | internal/cache/manager.go:132-152 | with at most `k` fetches of at most `size <= maxSize` bytes between making room and indexing, in any interleaving and with any failures, indexed plus in-flight bytes never exceed `maxSize + (k - 1) * size` |
| `CacheWitness.CapacityBoundIsReached` | internal/cache/manager.go:132-152 | for every number and size of fetches and every filling that leaves room for one, a run from an empty cache keeps all premises of the bound, has no failing call, and ends exactly at it |
| `CacheWitness.AgreementCanBreak` | internal/cache/manager.go:75-76 | for every adapter that fits, a run from an empty cache, with no failing call, ends with it indexed and not on disk |
| `CacheWitness.SizesCanBreak` | internal/cache/lru.go:35-40 | for any two sizes, a run from an empty cache, with no failing call, ends with a copy of the second size on disk and the first recorded |
| `CacheCapacity.RoomWithinIff` | internal/cache/lru.go:55-69 | a room-making leaves indexed and reserved bytes within the limit if and only if newcomer and reservations fit together and room for all would take no more out of the index |
| `CacheCapacity.WithinLimitIff` | internal/cache/manager.go:132-152 | all states of a run, whatever overlaps, fails or crashes, are within the limit if and only if every room-making, hit and restart meets its condition |
| `CacheCapacity.LoneFetchFitsIff` | internal/cache/lru.go:55-69 | alone, a fetch stays within the limit if and only if its adapter fits by itself |
| `CacheSizes.CoveredIffInsertionsAccurate` | internal/cache/lru.go:35-49 | where insertions land, recorded sizes cover the bytes on disk in all states if and only if every newcomer is inserted with a size that does |
| `CacheSizes.ScanStaysAccurate` | internal/cache/store.go:47-54 | a scanned size covers the adapter until another copy of it is installed |
| `CacheSizes.CounterBoundsDisk` | internal/cache/lru.go:19 | then the counter bounds what all indexed adapters have on disk, metadata aside |
| `CacheSizes.StaleSizeIndexed` | internal/cache/manager.go:209-211 | a hit overtaken by a refetch: both insertions land, the old size stays, and sizes still cover the disk if and only if the new copy is no larger than the old scan |
| `CacheCapacity.HitGrowsLoadIff` | internal/cache/lru.go:35-49 | the premise on hits: a hit grows the load if and only if its adapter has left the index since it was scanned |
| `CacheCapacity.UndisturbedHitsAreCounted` | internal/cache/manager.go:74-78 | when no call fails, a hit that nothing overtakes satisfies that premise |
| `CacheConservation.FetchConservation` | internal/cache/manager.go:61-154 | initial presence plus installs equals removals plus final presence; downloads are installed, given up or still held |
| `CacheConservation.PresentNotFetched` | internal/cache/manager.go:74-85 | in a run that neither removes nor revalidates it, a present adapter is not being fetched: at most its finished fetch is still cleaning up |
| `CacheConservation.OneFetchServesAll` | internal/cache/manager.go:61-96 | in a run in which the adapter arrives, is neither removed nor revalidated, and no finished download is given up, any number of overlapping callers cost one download and one install |
| `CacheReached.ReachedInv` | internal/cache/manager.go:34-43 | in every state that calls made one at a time reach from an empty cache, failures and restarts included, all invariants hold, the index lists only adapters on disk, and its counter covers their bytes |
| `CacheReached.RestartReached` | internal/cache/store.go:75-120 | a rebuilt index over the disk as it was left is such a state |
| `CacheReached.ReachedSmoothlyAgrees` | internal/cache/manager.go:74-154 | after calls from an empty cache in which nothing failed, index and disk hold the same adapters, each complete |
| `CacheManager.Manager.TryOrigins` | internal/cache/manager.go:107-119 | the first origin that succeeds is used; earlier partial files stay in staging |
| `CacheManager.FinishedIsPureIff` | internal/cache/manager.go:107-147 | the installed directory is the winning origin's copy and nothing else if and only if that copy has every file name a failed origin left behind |
| `CacheManager.FailedOriginLeaks` | internal/cache/manager.go:108-116 | a file of a failed origin that is installed with the next one's copy |
| `CacheManager.Manager.MakeReady` | internal/cache/manager.go:121-140 | records origin, ETag, revision, time and the whole seconds of the time to live, measures with that record and makes exactly the room those bytes need |
| `CacheManager.Manager.Place` | internal/cache/manager.go:142-152 | exactly when the calls work and clearing the destination left no file in it, the staging directory becomes the adapter's, and the adapter is most recent with its measured size |
| `CacheManager.Manager.FetchFromOrigin` | internal/cache/manager.go:98-154 | success: present, indexed in front, with every file of the first successful origin and a record of its identity, the time and the time to live, exactly the needed suffix gone from index and disk, all else untouched; failure: at most its own directories and a least recent suffix differ; without disk failures it succeeds exactly if some origin does |
| `CacheManager.Manager.EnsureInternal` | internal/cache/manager.go:74-96 | success means present and indexed; a hit changes only recency, a miss is a fetch of the first successful origin's copy; a check starts exactly on a hit of a due copy that is not being checked, as an access in the timing machine does |
| `CacheManager.Manager.MaybeRevalidate` | internal/cache/manager.go:156-173 | starts and flags a check exactly when checks are on, none of the adapter is running, and its readable metadata has a positive time to live that passed since its fetch time |
| `CacheManager.Manager.EvictAdapter` | internal/cache/manager.go:218-223 | gone from the index always, from disk when the delete succeeds, also while it is being fetched; other adapters untouched |
| `CacheManager.Manager.RevalidateAdapter` | internal/cache/manager.go:185-216 | no answer: nothing changes; the first answer names the recorded ETag, or revision where there is none: only the metadata is rewritten, to the new fetch time; otherwise the old copy is gone, replaced by the first successful origin's copy and record, or absent |
| `CacheManager.FetchedIdentityIff` | internal/cache/manager.go:121-207 | a fetched copy is recognised when its origin repeats its identity, if and only if it gave one, and never when it names another ETag |
| `CacheMeta.UnchangedIffSameContent` | internal/cache/manager.go:195-201 | the code's comparison holds exactly when both sides have an identity and it is the same, ETag before revision |
| `CacheMeta.RepeatedIdentityIff` | internal/cache/meta.go:27-32 | a repeated identity is recognised if and only if there is one |
| `CacheMeta.OtherIdentityDiffers` | internal/cache/manager.go:195-201 | another ETag, or no identity on either side, counts as changed |
| `CacheMeta.ExpiredIffDue` | internal/cache/meta.go:20-25 | metadata is expired exactly when it is readable, has a positive time to live, and more nanoseconds than that have passed |
| `CacheMeta.RecordedIsDueIff` | internal/cache/manager.go:121-127 | a fetched copy is due once the whole seconds of the configured time to live have passed, and never if there are none |
| `CacheMeta.WithMetaRewrites` | internal/cache/manager.go:202-204 | rewriting metadata changes nothing else, and leaves the new record, the old one, or an unreadable file |
| `CheckTiming.AccessStartsIff` | internal/cache/manager.go:161-173 | an access starts a check in the timing machine exactly when the copy on disk is due and none is running |
| `CheckTiming.FetchStores` | internal/cache/manager.go:121-153 | a fetch that records the present time is the machine's stamping and storing |
| `CheckTiming.RewriteFinishes` | internal/cache/manager.go:201-207 | a metadata rewrite is the machine's end of the check, with the outcome of the write |
| `CheckTiming.RemovalEvicts` | internal/cache/manager.go:218-223 | a removal is the machine's eviction |
| `Revalidation.OneCheckAtATime` | internal/cache/manager.go:167-182 | at most one live check per adapter, flagged exactly while it lives |
| `Revalidation.StartsSpaced` | internal/cache/manager.go:156-207 | successive starts of one adapter's checks lie more than the time to live apart, if none of its own checks leaves an old fetch time in place |
| `Revalidation.RevalidationRate` | internal/cache/meta.go:20-25 | `n` starts within a window satisfy `(n - 1) * TTL < window` |
| `Revalidation.RestartsAtOnceIff` | internal/cache/manager.go:156-207 | after a check of an expired adapter the next access, at the same instant, starts another if and only if no origin answered or the metadata write failed and changed nothing |
| `Revalidation.UnansweredHasNoRate` | internal/cache/manager.go:189-193 | without answers some run starts any number of checks of one adapter at one instant |
| `ForwarderModel.Forwarder.Decide` | internal/routing/forwarder.go:37-52 | forwards exactly to a known remote owner below the threshold and never a forwarded request; overflow exactly when the remote owner is overloaded; the decision of the protocol machine |
| `ForwarderModel.Forwarder.ForwardWithFallback` | internal/routing/forwarder.go:76-93 | tries the owner, then only the peer that would own the key without it on the ring as it is by then, never itself and nobody twice |
| `ForwarderModel.Forwarder.ServeHTTP` | internal/proxy/proxy.go:68-122 | forwards exactly a client's request with a remote owner below the threshold that still has an owner at the second lookup; handles it here exactly when no forward is answered; a single failed try means there is no remote fallback; it forwards to itself if and only if it owns the key by then |
| `Routing.StepInv` | internal/routing/forwarder.go:37-93 | every protocol step keeps: forwards are marked, marked requests are leaves, activations and delivered forwards correspond, executions are recorded once |
| `Routing.DecidesToForwardIff` | internal/routing/forwarder.go:37-52 | in the protocol a request is sent on exactly when it is a client's, does not pass through, its owner is not overloaded and another peer is nearest |
| `Routing.FailureForwardsIff` | internal/routing/forwarder.go:82-93 | after a failure the entry tries exactly the peer nearest without the one it tried, if that is remote, and handles the request itself otherwise |
| `Routing.BoundedForwarding` | internal/proxy/proxy.go:76-123 | under any rings and failures: at most two forwards, one hop, three executions, none twice by one activation, and an answered request was executed |
| `Routing.RequestTerminates` | internal/proxy/proxy.go:76-123 | at most eleven protocol steps per client request, however rings change |
| `Routing.EntryProgresses` | internal/proxy/proxy.go:79-93 | until the client is answered some step is possible |
| `Routing.ExecutionsOnDistinctNodes` | internal/routing/forwarder.go:76-93 | so with the entry's ring fixed during the request no node executes it twice |
| `Routing.RepeatsIffCameBack` | internal/routing/forwarder.go:76-93 | under any ring changes and failures, a node is visited twice if and only if the entry forwarded to itself first, and executes twice if and only if both its activations then execute |
| `Routing.ForwardsToSelfIff` | internal/routing/forwarder.go:76-82 | the entry forwards to itself if and only if its second lookup found it to own the key |
| `Routing.ChangingRingExecutesTwice` | internal/routing/forwarder.go:76-93 | a run in which the ring changes between the two lookups: the entry forwards to itself and executes the request twice |
| `Admin.AdminHandler.Evict` | internal/admin/handler.go:80-116 | the adapter leaves the index and, if the delete succeeds, the disk, nothing else does; messages go out exactly for a successful, unmarked eviction, one to each distinct other peer |
| `Admin.AdminHandler.Broadcast` | internal/admin/handler.go:98-111 | one message to each distinct peer but this node |
| `EvictBroadcast.EvictReachesEveryone` | internal/admin/handler.go:80-116 | message count equals the entry's distinct other peers, recipients send none, every reached node has neither files nor index entry, and without losses every peer is reached |
| `EvictBroadcast.BroadcastsIff` | internal/admin/handler.go:91-111 | one message to each distinct other peer goes out exactly for a client's eviction whose delete succeeded; the adapter is gone from the node exactly if the delete left nothing at its path |
| `Membership.HeartbeatRoundTrip` | internal/discovery/file.go:87-125 | what a node writes is what every node reads |
| `Membership.AnnouncesFirstLine` | internal/discovery/file.go:118-125 | any file announces its first line without surrounding white space, if that line is not empty |
| `Membership.BlankLineAnnounces` | internal/discovery/file.go:122-125 | a blank first line announces the empty address |
| `Membership.OthersFilesSpared` | internal/discovery/file.go:105-108 | subdirectories and dot files are neither deleted nor reported |
| `Membership.ScanKeepsIff` | internal/discovery/file.go:105-126 | a scan reports and keeps a node if and only if its last write is within the threshold |
| `Membership.ScanIsSafe` | internal/discovery/file.go:95-129 | a scan reports and keeps every live node and reports nobody staler than the threshold |
| `Membership.MembershipSafety` | internal/discovery/file.go:67-129 | that holds of every scan of every run when the threshold is at least the largest gap |
| `Membership.ShortThresholdDropsLive` | internal/discovery/file.go:113-116 | below that a silent live node is dropped and its file deleted |
| `Membership.LeaverStaysGone` | internal/discovery/file.go:59-65 | after a graceful leave no file of the node exists and no scan reports it until it joins again |
| `Membership.DeadNodeFades` | internal/discovery/file.go:113-126 | a dead node is reported exactly until the threshold has passed since its last write |
| `Membership.ClusterConverges` | cmd/loraplex/main.go:189-194 | one threshold and one gap after the last join or leave every live node's ring is built from exactly the live nodes and all owners agree |
| `Membership.FileDiscovery.Scan` | internal/discovery/file.go:95-129 | for any failing calls, the loop deletes exactly the stale files it can, reports exactly the fresh peers it can read and rebuilds the ring from them |
| `Membership.FileDiscovery.Beat` | internal/discovery/file.go:67-85 | heartbeat first, then scan, so that a node is on its own ring whenever its calls succeed |
| `Membership.FailuresOnlyOmit` | internal/discovery/file.go:95-129 | failing calls never make a scan report or delete more than it would |
| `Membership.FileDiscovery.SetPeers` | internal/discovery/discovery.go:40-50 | the registered callback rebuilds the ring from the reported peers |
| `HashKey.NamesAgreeIffNoSlash` | internal/config/config.go:182-196 | validator and key builder agree on the header name if and only if it has no slash, and then on whether the form is composite |
| `HashKey.AcceptedIff` | internal/config/config.go:182-196 | exactly the three fixed forms and `header:` with a non-empty name, alone or before "/model", are accepted |
| `HashKey.ModelKeyIff` | internal/proxy/body.go:52-53 | under `model` two requests share a key if and only if their models are equal |
| `HashKey.TenantKeyIff` | internal/proxy/body.go:55-56 | under `tenant`, if and only if their tenants are |
| `HashKey.HeaderKeyIff` | internal/proxy/body.go:64-75 | under `header:<name>`, if and only if that one header is |
| `HashKey.SlashedHeaderKeyIff` | internal/proxy/body.go:64-75 | with a slash in the name, if and only if the header before the first slash is |
| `HashKey.CompositeKeysCollideIff` | internal/proxy/body.go:58-73 | in the composite forms, exactly for equal parts or when one request absorbs the other |
| `HashKey.SlashInNameMisread` | internal/proxy/body.go:64-75 | `header:a/b` is accepted as `a/b` and read as `a` |
| `HashKey.KeysCollideIff` | internal/proxy/body.go:58-73 | two composite keys, with or without values, are equal exactly for equal parts or when one request absorbs the other |
| `HashKey.MissingTenantCollides` | internal/proxy/body.go:58-62 | no tenant and model "acme/foo" collide with tenant "acme" and model "foo" |
| `HashKey.SlashFreeKeysFaithful` | internal/proxy/body.go:58-73 | in every composite form, for non-empty slash-free values, keys are equal if and only if value and model are |

## Left out

- HTTP, S3, HuggingFace and Kubernetes clients: `Fetch` and `Head` are answers in a script.
- SHA-256 and how evenly virtual nodes spread: the hash functions are uninterpreted.
- The inside of `singleflight`: its contract is the step `Join`, one execution per ID shared by overlapping callers.
- The base-model shortcut of `ServeHTTP` and `fallback_to_base_model`: whether a request passes straight through is an input, and every way of serving it here is one outcome.
- Health polling and load measurement: a load is an arbitrary input, and an update of the ring resets it to 0.
- Response streaming, header copying, JSON and YAML, metrics, the statistics and warm-up endpoints, `ParseSize`: formatting and I/O.
- `ValidateAdapterID` and path cleaning: IDs are canonical by premise, so the check never rejects one.
- Directories nested inside an adapter's directory: a directory holds files only, and its size is theirs.
- Overflow of the 64-bit byte counter, and the entry's `accessedAt` time, which nothing reads.
- Pointers to peers: `Owner`, `Fallback` and `Peers` return values, so a load written through a shared `*Peer` after the lock is released is not seen.
- The Go memory model: the body of each locked region is one step.
- Torn or partial heartbeat files, a scan that takes time, and a loop iteration racing with `Stop`: in the timed protocol a heartbeat write and a scan are one step each, all their calls succeed, and clocks are shared; failing calls are in `FileDiscovery.Scan`.
- Heartbeat files left from before the modelled run: a run starts with an empty directory.
- A fetch by `ensure` beside a revalidation fetch of the same ID, which share a staging directory: excluded by premise.
- A directory walk is one step: files that come or go during a size scan are not seen, and an adapter whose time cannot be read while its size can is not modelled.
- The goroutine started by `maybeRevalidate`: its lifetime and the clearing of its flag are in `Revalidation`, its effect on disk and index in `RevalidateAdapter`.
- CacheCapacity.CapacityBound: covers runs without a crash and hits on indexed adapters; `WithinLimitIff` is exact for all runs.
- Revalidation.RevalidationRate: takes the expiry check and the setting of the flag as one step, and assumes that no check of the adapter ends with an old fetch time in place and that dropping an old copy succeeds.
- Staging.StagingIsolated: says nothing about pairs of ambiguous IDs, some of which do not collide.
- AdapterStore.Store.Rebuild: a directory nested inside an adapter's directory is not modelled.
