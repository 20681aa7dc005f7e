# A verified model of webdavs3

webdavs3 is an S3 object store kept on a WebDAV server: object data is files, metadata is
SQLite databases that are also uploaded there. This project models its core in Dafny and
proves what its design relies on. `dafny verify dfyconfig.toml` checks everything.

- **Object store.** Objects are single blobs addressed by their SHA-256 and shared by every key
  and bucket on a location, or manifests of the parts of a multipart upload. `Put` splits large
  bodies, `Delete` guards shared blobs, the collector sweeps what nothing refers to. In every run
  of calls, failing ones included, the store reads as a plain map from (bucket, key) to bytes
  (`StoreRuns.RunRefinesMap`); `StoreRuns.Gateway.Serve` shows that each service call is such a
  step, and `StoreRuns.Gateway.ServeAll` makes the runs of any list of calls and compares every
  answer with the map. Separately, every disk a crash can leave is readable from the last uploaded
  metadata, except after two kinds of calls (`StoreRuns.Risky`): a call that meets no fault leaves
  a readable disk exactly when it is not one of them.
- **Usage log.** Daemons append deltas, upload their own, and import each other's. In every
  interleaving each delta is counted at most once, what a daemon has seen of another one is a
  growing prefix, and totals agree once everybody has flushed and synced. Every sync may translate
  location ids anew; a delta stays where its first import put it.
- **Cache of open databases.** Step by step over any number of threads, with the mutex given up in
  the middle of an eviction, what racing Gets leave behind, and sequentially as a
  least-recently-used list.
- **Listing.** The LIKE pattern of a prefix, the batched scan with delimiter grouping, pages and
  continuation tokens, and the web UI's loops that page while they delete or move keys. With a
  delimiter, exactly when following tokens covers the listing, repeats entries or gets stuck.
- **Structure merge and bucket repair** between daemons, the latter over runs in which clients
  write and delete and snapshots and databases are damaged in between.
- **Transfer.** The aws-chunked decoder of AWS Signature Version 4 ("Transferring Payload in
  Multiple Chunks"), the retrying upload with its temp-then-rename form, and the canonical query
  string (percent-encoding as in RFC 3986, sections 2.1 and 2.3).

Services that change state are classes whose methods loop and assign as the original does; their
contracts are stated over values (`World`, `Tables`, `Log`, `State`), and the lemmas about those
values carry the properties. A Go string or byte slice is a Dafny string with one character per
byte. Nondeterministic assignments stand for WebDAV requests that may fail; the ghost counter
`faults` says whether any did, so a contract can say what happens when none does.

What the model takes as given: SHA-256 gives 64 hex digits and tells apart the contents that are
ever stored as blobs on a location (`Config.bodies`, any set of contents; `StoreModel.ConfigExists`
shows that there are such digests); MD5, HMAC and hex decoding are arbitrary functions; upload
ids are drawn fresh and contain no `/`; base64 is a bijection, so a continuation token is modelled
by the key inside it.
Locking aside, each service call on the object store is atomic, and local SQLite statements fail
only where a uniqueness rule says so. In the object store a failed upload leaves nothing behind,
although data files are not uploaded by temp-then-rename; torn uploads are part of the models of
the retrying upload and of bucket repair.

The top-level README of webdavs3 says that deleting a key never removes its file, orphan cleanup
being "not yet implemented". The code does remove an unshared blob and all part files
(`internal/object/service.go:360-424`), and there is a collector; the model follows the code.

## Results about conditions

Where a promise holds only under a condition, the condition is proved to be exact:

- A file deletion leaves all snapshots readable exactly when no other bucket's outdated snapshot
  still needs the file (`CrashModel.DropKeepsReadableIff`); with one bucket on a location it always
  does (`CrashModel.OneBucketNeverStale`). A `Delete` that meets no fault does so exactly when its
  object is not the last one stored in a blob that such a snapshot needs
  (`ObjectStore.ObjectService.Delete`).
- A collection leaves them readable exactly when it keeps all they refer to
  (`GarbageCollect.SweepKeepsReadableIff`, and `Collector.GarbageCollect` when it meets no fault).
- A completed upload is readable exactly when it lists at least one part
  (`Multipart.CompletionReadableIff`).
- A failed transfer of a part is harmless exactly when that part was not recorded before: the
  clean-up deletes the file and keeps the record (`Multipart.FailedTransferHarmlessIff`).
- With a delimiter, a page that shows keys and the listing after its token show every entry
  exactly when no group was trimmed, or the trimmed group has a key after the last one shown; a
  page of groups only, exactly when every entry behind it has a key after the name of the last
  group (`DelimiterPages.ContinuationCoversIff`). When entries are shown twice is exact as well.
- A client that follows the tokens comes to the end within one request more than there are keys,
  or it is given some token twice and never does (`DelimiterChains.EndsOrRepeats`). Since LIKE
  folds case and names of groups do not, a token can lie before all keys
  (`DelimiterChains.CaseSendsBack`). Where all matching keys start with the prefix letter by
  letter, conditions are told by names (`DelimiterPages.ExactContinuation`), and such a client ends
  exactly when it meets no page of one group with members, which is followed by itself
  (`DelimiterPages.SamePageAgainIff`, `DelimiterChains.EndsIff`); it has then seen every key that
  is not grouped once (`DelimiterChains.EveryKeyOnce`), and missed exactly the groups trimmed
  behind a listed key that no earlier page had shown (`DelimiterChains.MissedIff`).
- In the cache, list and map agree exactly as long as no Get inserts an entry for a bucket that
  another Get has inserted meanwhile (`LruLeaks.AgreesIff`). Databases left out of the map are
  closed by eviction only, and CloseAll loses exactly them (`LruLeaks.LostIff`).
- Moving keys with different contents to another prefix keeps all of them exactly when none is
  copied onto a key still to be moved (`KeyMoves.ArriveIff`); this and the end of the loop are
  certain where neither prefix extends the other up to case (`KeyMoves.ApartIsClear`). Moving more
  than 1000 keys to places beyond them all never ends (`KeyMoves.ChasedNext`); moving a folder into
  a folder of its own can be like that (`KeyMoves.FolderIsChased`).
- Merging a structure database twice always succeeds the second time and never changes locations
  or users. It moves no bucket exactly when the first location with the endpoint of an imported
  remote location is that location itself (`StructureMerge.MergeTwiceIff`).
- A merge fails exactly when a new user's access key or a new bucket's id is taken.
- A bucket sync that meets no fault succeeds exactly when no bucket with a snapshot has a corrupt
  local database, and opens a closed bucket exactly when its snapshot is corrupt and its local
  database is not. A bucket that a failed write closed therefore stays closed until its snapshot
  becomes corrupt (`BucketSync.StaysClosed`), and without a local database an empty one is
  published (`BucketSync.ReopensIff`). The gate does not cover deletions
  (`BucketSync.ClosedKeepsLocal`).
- Renaming an object keeps its contents exactly when the new key is not the old one, to which an
  empty new name is turned (`PrefixOps.Server.MoveObject`).
- An upload configured with no attempts reports success without uploading
  (`RetryUpload.RetryClient.UploadFromFileVerified`).

## Model

| member | source | states |
|---|---|---|
| BucketDb.ManifestReadBack | internal/meta/bucketdb.go:125-189 | chunk rows written for a manifest in part order are read back as that manifest |
| BucketDb.BucketDB.InsertChunks | internal/meta/bucketdb.go:150-161 | the inserts of one transaction succeed exactly when part numbers are distinct, and then hold the manifest and leave all other keys' rows alone |
| BucketDb.BucketDB.PutObject | internal/meta/bucketdb.go:125-163 | replaces one object with its manifest, or changes nothing when two chunks share a number |
| BucketDb.BucketDB.GetObject | internal/meta/bucketdb.go:165-189 | the record of a key joined with its manifest, if there is one |
| BucketDb.BucketDB.DeleteObject | internal/meta/bucketdb.go:191-210 | removes one object and its chunk rows; reports whether it was there |
| BucketDb.BucketDB.CountByHashPath | internal/meta/bucketdb.go:214-218 | counts the objects of the bucket that are stored in a blob |
| BucketDb.BucketDB.CompleteMultipartUpload | internal/meta/bucketdb.go:439-485 | object, manifest, parts and upload change in one transaction or not at all |
| Layout.UploadOfPartPath | internal/object/gc.go:46-67 | a printed part path parses back to its upload id |
| Layout.PartPathInjective | internal/object/multipart.go:172 | different parts never share a path |
| Layout.DataAndPartsDisjoint | internal/object/service.go:171 | nothing lies both under `_data/` and under `_parts/` |
| Layout.NothingBelow | internal/object/service.go:171 | deleting one stored file removes exactly that file, although DELETE removes whole trees |
| RepairManager.Manager.CheckWrite | internal/repair/manager.go:38-51 | writes are refused exactly while the bucket is not healthy |
| RepairManager.Manager.MarkRepairing | internal/repair/manager.go:53-63 | exactly one caller claims a repair; other buckets are unaffected |
| RepairManager.Manager.MarkDegraded | internal/repair/manager.go:65-70 | the bucket becomes degraded, others keep their status |
| RepairManager.Manager.MarkHealthy | internal/repair/manager.go:72-77 | the bucket becomes healthy, others keep their status |
| StoreModel.NothingUnreadable | internal/object/service.go:275-324 | under the invariant every recorded object can be read, with the recorded size |
| StoreModel.FilesFrame | internal/object/gc.go:69-128 | files nobody refers to can come and go without any reader noticing |
| StoreSteps.BlobWritten | internal/object/service.go:171-182 | writing a blob over an equal one changes nothing readers see: deduplication is safe |
| StoreSteps.BlobRecorded | internal/object/service.go:183-200 | recording a blob whose file is in place changes what one key reads as, and nothing else |
| StoreSteps.ObjectRemoved | internal/object/service.go:360-372 | removing a record makes one key unreadable and nothing else |
| StoreSteps.PartWritten | internal/object/multipart.go:172-198 | a part file and its record change no object and no other part |
| StoreSteps.UploadCompleted | internal/object/multipart.go:230-312 | turning parts into an object keeps the invariant; the object reads as the parts joined |
| StoreSteps.UploadAborted | internal/object/multipart.go:321-363 | dropping an upload's records and any of its files changes nothing else |
| CrashModel.BlobWriteRecoverable | internal/object/service.go:178-182 | a crash after the data write leaves every uploaded snapshot readable |
| CrashModel.SyncRecoverable | internal/object/service.go:202-209 | a metadata upload never publishes a record whose data is missing |
| CrashModel.DropRecoverable | internal/object/service.go:373-424 | data deleted after the metadata upload is needed by no snapshot, unless another bucket's is outdated |
| CrashModel.DropKeepsReadableIff | internal/object/service.go:388-424 | a deletion leaves all snapshots readable exactly when no other bucket's outdated one needs the file |
| CrashModel.OutdatedSnapshotLosesData | internal/object/service.go:388-424 | two buckets and a failed metadata upload: a concrete deletion that makes a snapshot unreadable |
| Multipart.SortPartsSorted | internal/object/multipart.go:237-240 | the sort orders the listed parts by number |
| Multipart.ManifestFromParts | internal/object/multipart.go:241-275 | an accepted request's manifest is the uploaded parts with matching ETags, one per listed part |
| Multipart.CompletionReadableIff | internal/object/multipart.go:218-319 | a completed object is readable exactly when parts were listed |
| Multipart.FailedTransferHarmlessIff | internal/object/multipart.go:110-140 | the clean-up after a failed transfer keeps the store in order exactly when the part was not recorded before |
| Multipart.MultipartService.Create | internal/object/multipart.go:66-104 | opens an upload under a fresh id; no reader notices; the errors and the gate |
| Multipart.MultipartService.UploadPart | internal/object/multipart.go:142-201 | stores one part and its ETag, says what each error leaves behind, keeps crash safety |
| Multipart.MultipartService.BuildObject | internal/object/multipart.go:230-296 | the loop accepts or rejects the listed parts as the whole list deserves, with the first complaint |
| Multipart.MultipartService.Complete | internal/object/multipart.go:218-319 | the key reads as the listed parts joined in number order and nothing else changes; errors; usage delta |
| Multipart.MultipartService.Abort | internal/object/multipart.go:321-363 | forgets the upload, deletes its part files when no request fails, changes nothing readers see |
| ObjectStore.BlobNeededIff | internal/object/service.go:388-424 | the reference guard is right: a blob is needed exactly when some object is stored in it |
| ObjectStore.PiecesComplete | internal/object/service.go:225-272 | the parts sent for a large body complete to exactly that body |
| ObjectStore.ObjectService.Put | internal/object/service.go:126-215 | the key reads as the body and nothing else changes; without faults it succeeds; a failed metadata upload still takes effect; usage delta |
| ObjectStore.ObjectService.PutBlob | internal/object/service.go:160-215 | data, record, snapshot in this order, readable and crash safe at every point |
| ObjectStore.ObjectService.PutChunked | internal/object/service.go:225-272 | a body sent in parts is stored as that body, or the upload is abandoned without a trace for readers |
| ObjectStore.ObjectService.SendParts | internal/object/service.go:232-265 | parts 1, 2, ... hold consecutive pieces that join to the body; the first failure aborts |
| ObjectStore.ObjectService.Get | internal/object/service.go:275-296 | returns exactly the stored bytes when no request fails, and not-found exactly when there is no object |
| ObjectStore.ObjectService.GetChunked | internal/object/service.go:298-324 | the chunks one after the other |
| ObjectStore.ObjectService.Delete | internal/object/service.go:342-386 | the key is gone and nothing else changes; its data is gone exactly when nothing else needs it; without faults the disk stays readable exactly when the blob is not one an outdated snapshot needs; usage delta |
| ObjectStore.StaleDataGone | internal/object/service.go:373-424 | a deletion in that case does make a snapshot unreadable |
| ObjectStore.ObjectService.ReferredAnywhere | internal/object/service.go:388-417 | the loop over the other buckets finds a reference exactly when there is one |
| ObjectStore.ObjectService.MaybeDeleteDataFile | internal/object/service.go:388-424 | a shared blob is not touched, an unshared one is deleted |
| ObjectStore.ObjectService.Head | internal/object/service.go:427-434 | the record of an object, without its data |
| ObjectStore.ObjectService.List | internal/object/service.go:437-503 | one page of the listing, with the rows of its keys |
| GarbageCollect.NeededIsKept | internal/object/gc.go:29-77 | everything the tables need survives a collection |
| GarbageCollect.BlobKeptIff | internal/object/gc.go:47-51 | a blob is kept exactly when some object on the location is stored in it |
| GarbageCollect.PartKeptIff | internal/object/gc.go:58-77 | a part file is kept exactly when its upload is live or became an object |
| GarbageCollect.SweepHarmless | internal/object/gc.go:79-128 | a sweep, however far it gets, changes nothing readers see |
| GarbageCollect.SweepKeepsReadableIff | internal/object/gc.go:79-128 | after a full sweep the snapshots are readable exactly when all they refer to was kept |
| GarbageCollect.Collector.CollectReferences | internal/object/gc.go:29-77 | the marking loops find exactly the blobs and uploads the tables refer to |
| GarbageCollect.Collector.SweepData | internal/object/gc.go:81-109 | the pass over `_data/` removes targets only, and all of them when no request fails |
| GarbageCollect.Collector.SweepParts | internal/object/gc.go:111-128 | the pass over `_parts/` removes whole unreferenced uploads only, and all of them when no request fails |
| GarbageCollect.Collector.GarbageCollect | internal/object/gc.go:18-131 | without faults exactly the kept files remain; in any case no reader notices |
| StoreRuns.StepRepresents | internal/object/service.go:126-424 | one call keeps the correspondence with the client's plain map |
| StoreRuns.RunRefinesMap | internal/object/service.go:126-424 | after every run reads return exactly the bytes last stored, and not-found after a deletion |
| StoreRuns.NewGateway | cmd/webdavs3/main.go:249-270 | new services over an empty location meet all that calls ask of them: in order, crash safe, every id fresh, and nothing stored |
| StoreRuns.Gateway.Serve | internal/object/service.go:39-50 | every service call is such a step, whichever requests fail, keeps what the next call needs, answers reads with the stored bytes, and without faults endangers a crash exactly when it is a risky one |
| StoreRuns.Gateway.ServeAll | internal/object/service.go:39-50 | any list of calls with fresh ids makes a run from the client's map to the client's map, every read answered as that map says; it stops only at a part that was sent before and failed |
| Stats.FromAscending | internal/meta/stats.go:127-172 | rows of one source keep the order of the log |
| Stats.StatsDB.AddDelta | internal/meta/stats.go:107-114 | appends one own row under the next id |
| Stats.StatsDB.GetTotalUsage | internal/meta/stats.go:116-125 | the sum over the location's rows, zero without any |
| Stats.StatsDB.MergeFromFile | internal/meta/stats.go:127-172 | imports a downloaded log row by row, renaming locations and ignoring rows already there |
| Stats.StatsDB.Export | internal/meta/stats.go:175-213 | what a flush uploads is exactly the daemon's own rows |
| StatsCluster.MergeExtends | internal/meta/stats.go:127-172 | merging any snapshot, however stale, extends the copied prefix to the longer of the two and touches no other source |
| StatsCluster.StepKeepsInv | internal/meta/stats.go:107-213 | appends, flushes and syncs, each with its own location map, keep every daemon's copies prefixes of the originals |
| StatsCluster.StepMonotone | internal/meta/stats.go:107-213 | what a daemon has written and what it has seen only grows; an imported row is never changed |
| StatsCluster.StepTranslates | internal/meta/stats.go:127-172 | only a sync of the two daemons brings a new row, under the location its map gives |
| StatsCluster.TotalBySource | internal/meta/stats.go:116-125 | a total splits by source without loss or double counting |
| StatsCluster.TotalIsShares | internal/sync/sync.go:531-569 | a daemon's total is its own deltas plus the seen prefix of each other daemon's |
| StatsCluster.RunAccounting | internal/sync/sync.go:531-569 | that holds at every moment of every run |
| StatsCluster.RunMonotone | internal/sync/sync.go:531-569 | between any two moments of a run the prefixes only grow |
| StatsCluster.QuietFlushesAll | internal/meta/stats.go:175-194 | once nobody appends, every flush uploads everything |
| StatsCluster.SyncedIsCaughtUp | internal/sync/sync.go:531-569 | a sync with a snapshot flushed in the quiet stretch catches up with that daemon for good |
| StatsCluster.TotalsConverge | internal/sync/sync.go:531-569 | once all have flushed and then synced, every total is the global sum, each delta under the location the syncs translate it to |
| LruConcurrent.StepKeepsInv | internal/meta/lru.go:40-123 | every step of every thread keeps list, map, locks and closes consistent |
| LruConcurrent.NoReaderHoldsClosed | internal/meta/lru.go:40-86 | in every interleaving nobody between Get and release holds a closed database, and none is closed twice |
| LruConcurrent.HitsAreOpen | internal/meta/lru.go:43-51 | what the map answers with is open, is the bucket asked for, and its lock is never waited for under the mutex |
| LruConcurrent.ListBound | internal/meta/lru.go:61-83 | with n threads and capacity at least 1 the list never exceeds capacity + n - 1 |
| LruConcurrent.BoundIsReached | internal/meta/lru.go:61-83 | the bound is exact: two threads can bring a cache of capacity 1 to two entries |
| LruLeaks.StepAgreesIff | internal/meta/lru.go:61-83 | a step makes list and map part exactly when it inserts an entry for a bucket that has one already |
| LruLeaks.AgreesIff | internal/meta/lru.go:40-123 | over a run they agree at every moment exactly when no insertion does that |
| LruLeaks.LostIff | internal/meta/lru.go:108-123 | only CloseAll loses open databases, exactly those in the list that the map does not name; what is lost stays open |
| LruLeaks.AtRest | internal/meta/lru.go:40-123 | when all threads are idle after a run without such an insertion, the open databases are exactly those the map names |
| LruLeaks.TwoGetsCollide | internal/meta/lru.go:61-83 | two Gets of one bucket can leave an open database that Remove does not find |
| LruLeaks.CloseAllLeavesOpen | internal/meta/lru.go:108-123 | and that CloseAll then leaves open |
| LruSequential.LRUCache.Get | internal/meta/lru.go:40-86 | a hit moves to the front and keeps its handle, a miss opens and evicts the last of a full list; evicted is closed, listed is open; a failed open changes nothing |
| LruSequential.LRUCache.Remove | internal/meta/lru.go:89-105 | exactly the one entry leaves and is closed |
| LruSequential.LRUCache.CloseAll | internal/meta/lru.go:108-123 | every listed database is closed and the cache is empty |
| LruSequential.CacheIsMostRecent | internal/meta/lru.go:40-105 | after any history the list is a prefix of the most-recently-used order |
| LruSequential.CacheIsFull | internal/meta/lru.go:61-83 | without removals it is exactly the `cap` ids got most recently |
| Listing.LikeEscaped | internal/meta/bucketdb.go:329-372 | the escaped prefix followed by `%` matches exactly the keys that start with the prefix up to ASCII case |
| Listing.EscapeLike | internal/meta/bucketdb.go:359-371 | the loop puts an escape before each special character |
| Listing.RowsAre | internal/meta/bucketdb.go:324-343 | the rows are exactly the matching keys beyond the cursor, in order |
| Listing.Query | internal/meta/bucketdb.go:324-343 | one query returns the first `limit` of them |
| Listing.RowsContinue | internal/meta/bucketdb.go:315-316 | a cursor at a row continues with exactly the rows after it |
| Listing.ItemsAre | internal/meta/bucketdb.go:284-294 | the entries of a listing are those of its rows, each once |
| Listing.NoGroups | internal/meta/bucketdb.go:221-229 | without a delimiter every row is its own entry |
| Listing.ListObjectsBatched | internal/meta/bucketdb.go:254-320 | the batched scan gives the first `maxKeys` distinct entries of one pass over all rows |
| Listing.ScanBatches | internal/meta/bucketdb.go:254-320 | the same for any batch size, and it terminates |
| Listing.ScanRows | internal/meta/bucketdb.go:273-304 | the inner loop collects the entries of the rows it has read and stops when the page is full |
| Listing.ListObjects | internal/meta/bucketdb.go:220-249 | one query and the batched scan agree with the same page |
| Listing.TruncatedIff | internal/object/service.go:472-479 | for any delimiter a page is truncated exactly when there are more entries than fit, and is then full |
| Listing.PageEntries | internal/object/service.go:466-500 | a page shows only matching keys and their groups, no group twice |
| Listing.PageOfKeys | internal/object/service.go:449-500 | without a delimiter a page is the next stretch of matching keys and the token its last key |
| Listing.TokensListEverything | internal/object/service.go:449-500 | following tokens lists every matching key exactly once in order, in full pages but the last |
| DelimiterPages.ContinuationCoversIff | internal/object/service.go:472-500 | with a delimiter, page and continuation show every entry exactly when no group is trimmed behind a listed key and, on a page of groups only, no later entry lies wholly before the token |
| DelimiterPages.ContinuationRepeatsIff | internal/object/service.go:472-500 | they show something twice exactly when a listed group has a key after the token |
| DelimiterPages.ExactContinuation | internal/object/service.go:472-500 | for keys that start with the prefix letter by letter both are told by names: whether a group comes after the last key and, with groups only, whether the last one has members |
| DelimiterPages.TokenAdvancesIff | internal/object/service.go:480-500 | the token moves on except with pages of one entry within a first group followed by another |
| DelimiterPages.SamePageAgainIff | internal/object/service.go:480-500 | a page of one group is followed by the same page exactly when the group has members |
| DelimiterPages.DelimiterSkipsAGroup | internal/object/service.go:480-496 | a concrete listing in which a trimmed group is never shown |
| DelimiterChains.EndsOrRepeats | internal/object/service.go:449-500 | for all keys and page sizes a client that follows tokens ends within one request more than there are keys, or gets a token twice and never ends |
| DelimiterChains.CaseSendsBack | internal/meta/bucketdb.go:254-309 | a concrete listing with a prefix of another case: pages of two groups that are followed by themselves for ever |
| DelimiterChains.EndsIff | internal/object/service.go:449-500 | a client that follows tokens comes to an end exactly when it meets no page of one group with members |
| DelimiterChains.StuckForEver | internal/object/service.go:480-500 | such a page is all it gets from there on |
| DelimiterChains.LostIff | internal/object/service.go:480-500 | what a page loses is exactly the group trimmed behind a listed key |
| DelimiterChains.MissedIff | internal/object/service.go:449-500 | by the end an entry has been missed exactly when a page lost it and none before had shown it |
| DelimiterChains.EveryKeyOnce | internal/object/service.go:449-500 | by the end every key that is not grouped has been shown once, in order |
| PrefixOps.Server.StorageUsedBytes | internal/webui/handlers.go:127-147 | the paging loops add up the length of every object readers can get, each once |
| PrefixOps.Server.DeletePrefix | internal/webui/handlers.go:327-350 | success leaves no matching key and no other change; not-found exactly when nothing matched; failures only after a fault |
| PrefixOps.Server.DeleteListed | internal/webui/handlers.go:335-340 | deleting the keys of a page leaves what comes after it |
| PrefixOps.Server.CopyObject | internal/webui/handlers.go:436-444 | the new key reads as the old one and nothing else changes, or nothing changes |
| PrefixOps.Server.RenamePrefix | internal/webui/handlers.go:404-434 | after any number of pages the bucket holds what moving the listed keys one by one makes of it; the loop ends where no copy lands under the old prefix, and where one page holds all keys, and does not where the copies land beyond a full page; a failure part of the way leaves at most one key copied and not deleted |
| PrefixOps.Server.MoveObject | internal/webui/handlers.go:375-388 | a renamed object reads under its new key, its old key is gone and nothing else changes; a failed copy leaves the original; renaming an object to its own key loses it, and only that does |
| PrefixOps.RenamedExactly | internal/webui/handlers.go:404-434 | where no copy lands under the old prefix, the keys moved so far read under their new names and all else reads as before |
| KeyMoves.ArriveIff | internal/webui/handlers.go:415-424 | keys with different contents all arrive exactly when none is copied onto one that is still to be moved |
| KeyMoves.ProceedingNext | internal/webui/handlers.go:410-429 | where no copy lands under the old prefix, each page takes keys not moved before, and the last one leaves none |
| KeyMoves.ChasedNext | internal/webui/handlers.go:410-429 | where the copies land beyond more than a page of keys, a full page is followed by another one like it |
| KeyMoves.FolderIsChased | internal/webui/handlers.go:410-429 | a folder of any number of keys above 1000 for which that happens when it is moved into a folder of its own |
| ChunkedReader.Reader.Read | internal/s3api/chunked.go:54-75 | whatever the buffer sizes, the bytes handed out are those still pending, in order, and the end is reported once they are gone |
| ChunkedReader.Reader.LoadNextChunk | internal/s3api/chunked.go:77-114 | reads, checks and verifies one chunk before any of it is handed out |
| ChunkedReader.Reader.ReadChunkHeader | internal/s3api/chunked.go:116-149 | size and signature of a header line, or its error |
| ChunkedReader.Reader.ReadTrailingHeaders | internal/s3api/chunked.go:162-172 | fails exactly when no empty line follows |
| ChunkedReader.Reader.VerifyChunk | internal/s3api/chunked.go:174-195 | accepts exactly the signature that follows from the one before, and continues the chain |
| ChunkedReader.Consume | internal/s3api/chunked.go:54-75 | a caller with any list of buffer sizes gets the decoded bytes and the right end |
| ChunkedReader.HeaderRead | internal/s3api/chunked.go:116-149 | a header line is understood as it was meant |
| ChunkedReader.RoundTrip | internal/s3api/chunked.go:54-172 | decoding an encoding of non-empty chunks, with any trailing headers, returns their concatenation and a clean end |
| ChunkedReader.TruncationDetected | internal/s3api/chunked.go:77-172 | every strict prefix of an encoding ends in an error, after a prefix of the right bytes |
| ChunkedReader.OnlySignedData | internal/s3api/chunked.go:174-195 | with a key every delivered chunk carries the signature that follows from the seed and all chunks so far, and a clean end the one of the final empty chunk |
| RetryUpload.BackoffTotal | internal/webdav/retry.go:70-79 | n attempts sleep base*(2^(n-1) - 1) in all, while 64 bits suffice |
| RetryUpload.RetryClient.UploadFromFileVerified | internal/webdav/retry.go:62-104 | success only after an upload of the right size; at most `retries` uploads; exact total sleep when all fail; only the one path changes |
| RetryUpload.RetryClient.UploadFromFileAtomic | internal/webdav/retry.go:45-56 | at every moment the final path holds the old file or one of the right size and only it and the temporary path differ; without faults it ends with exactly the local file and no temporary one |
| RetryUpload.RetryClient.UploadFromFile | internal/webdav/retry.go:38-43 | metadata snapshots are uploaded the atomic way, other files in place; only these paths change; without faults the path holds exactly the local file |
| RetryUpload.SnapshotsAreAtomic | internal/webdav/retry.go:58-60 | the path of a bucket's snapshot is one of those |
| CanonicalQuery.EncodedInjective | internal/auth/sigv4.go:234-245 | percent-encoding loses nothing |
| CanonicalQuery.NoSeparators | internal/auth/sigv4.go:234-250 | it never emits `&` or `=` |
| CanonicalQuery.UriEncode | internal/auth/sigv4.go:234-245 | the loop encodes character by character |
| CanonicalQuery.BuildCanonicalQueryString | internal/auth/sigv4.go:212-231 | the loops spell out the query's pairs in canonical order, each as often as it occurs |
| CanonicalQuery.JoinInjective | internal/auth/sigv4.go:230 | the joined string determines its parts |
| CanonicalQuery.CanonicalIff | internal/auth/sigv4.go:212-231 | two queries have the same canonical string exactly when they have the same multiset of pairs |
| StructureMerge.StructureDB.AddLocation | internal/meta/structure.go:186-195 | inserts a location under a free id |
| StructureMerge.StructureDB.AddUser | internal/meta/structure.go:265-276 | refused exactly when id or access key is taken |
| StructureMerge.StructureDB.AddBucket | internal/meta/structure.go:369-376 | refused exactly when name or id is taken |
| StructureMerge.FindMatchingLocation | internal/sync/sync.go:346-353 | the first listed location with the endpoint |
| StructureMerge.Engine.MergeStructure | internal/sync/sync.go:266-344 | local locations and users stay, local buckets change at most in location id; what is imported; fails exactly on a uniqueness conflict |
| StructureMerge.Engine.MergeLocations | internal/sync/sync.go:278-293 | the id map and the imported locations |
| StructureMerge.Engine.MergeUsers | internal/sync/sync.go:299-315 | imports users with new ids, stops at the first conflict |
| StructureMerge.Engine.MergeBuckets | internal/sync/sync.go:321-342 | retargets known buckets, imports new ones, stops at the first conflict |
| StructureMerge.ImportedBucketsAtHome | internal/sync/sync.go:278-342 | if the remote is well formed, every remote bucket ends up in a location that exists here, a new one with its owner |
| StructureMerge.TranslationAgain | internal/sync/sync.go:278-293 | what a remote location translates to when merged again |
| StructureMerge.MergeTwiceIff | internal/sync/sync.go:266-344 | a second merge succeeds, changes no location and no user, and moves no bucket exactly when every imported location is the first with its endpoint |
| StructureMerge.DistinctEndpointsSettle | internal/sync/sync.go:283-292 | pairwise distinct remote endpoints are enough for that |
| StructureMerge.MergeTwice | internal/sync/sync.go:266-344 | with pairwise distinct remote endpoints a second merge succeeds and changes nothing |
| StructureMerge.SharedEndpointMovesBuckets | internal/sync/sync.go:283-292 | two new locations that share an endpoint: the second merge moves the buckets of one to the other |
| BucketSync.Engine.RepairRemote | internal/sync/sync.go:430-484 | success means the snapshot is sound and equal to the local database, an empty one where there was none; the gate is not touched meanwhile; without faults it fails exactly on a corrupt local database |
| BucketSync.Engine.RepairFromLocal | internal/sync/sync.go:393-410 | writes are refused from before the repair until it has succeeded; otherwise the bucket is degraded |
| BucketSync.Engine.SyncBucketDB | internal/sync/sync.go:377-425 | one bucket: skip, repair, keep or restore, exactly so without faults; no other bucket is touched |
| BucketSync.Engine.SyncBucketDBs | internal/sync/sync.go:360-428 | local databases and sound snapshots are never overwritten, new local ones are the snapshots or empty, only buckets at the location are touched; a failed repair is left degraded; without faults all are synced up to the first failure |
| BucketSync.SyncSucceedsIff | internal/sync/sync.go:360-428 | without faults a sync succeeds exactly when no bucket with a snapshot has a corrupt local database |
| BucketSync.SyncSettles | internal/sync/sync.go:360-428 | then every snapshot and its local database are sound, repaired ones are equal and their buckets open |
| BucketSync.NothingToSyncIff | internal/sync/sync.go:360-428 | a sync succeeds without changing anything exactly when that is already so |
| BucketSync.SyncTwice | internal/sync/sync.go:360-428 | a second sync changes nothing |
| BucketSync.ReopensIff | internal/sync/sync.go:360-428 | a successful sync opens a closed bucket exactly when it is listed for the location and its snapshot is corrupt, and what is published then |
| BucketSync.Engine.Live | internal/sync/sync.go:360-428 | syncs with failing requests, and client writes, deletions, flushes and damage in between, in any order, make a run |
| BucketSync.ReopenedComplete | internal/sync/sync.go:393-410 | in every run a bucket that opens again has a sound snapshot equal to the local database it had when it was closed, less the keys deleted since |
| BucketSync.ClosedKeepsLocal | internal/object/service.go:342-372 | while a bucket is closed its local database changes only by damage and by deletions, which do not ask the gate |
| BucketSync.StaysClosed | internal/sync/sync.go:387-425 | a closed bucket stays closed until something makes its snapshot corrupt |

## Left out

- HTTP routing, XML, sessions, configuration, provisioning, quotas, admin pages and logging.
- Timestamps and row ids of objects, and the `upload_complete` column, which is always 1.
- ListUploads, ListParts and the SQL of the remaining tables: they only read.
- Bucket creation and deletion; a core is given its buckets.
- Several WebDAV clients or locations under one object store: one base directory, one shared client.
- The local copy of an uploaded body: the body is a value, and disk errors of the temporary file are not modelled.
- The cache in the object store model: services there read their databases directly; the cache has its own two models.
- Deadlock freedom of the cache: a caller of Get may hold a read lock that an eviction waits for (internal/object/service.go:405, internal/meta/lru.go:71).
- Usage equal to live bytes: an overwrite adds its size without subtracting the old one (internal/object/service.go:211); the contracts state the deltas as they are.
- DelimiterChains.EndsIff: requires that matching keys start with the prefix letter by letter; CaseSendsBack shows that otherwise it fails, and EndsOrRepeats holds for all keys.
- DelimiterChains.StuckForEver: the same requirement.
- DelimiterChains.MissedIff: the same requirement; otherwise a token may go back to what an earlier page lost.
- DelimiterChains.EveryKeyOnce: the same requirement, for the same reason.
- DelimiterChains.LostIff: the same requirement for a page of groups only.
- DelimiterPages.TokenAdvancesIff: the same requirement for a page of groups only; CaseSendsBack shows a token that does not move on.
- DelimiterPages.SamePageAgainIff: the same requirement.
- PrefixOps.Server.RenamePrefix: says what has become of the keys after a given number of pages, so that runs that do not end are covered; the original has no such bound.
- ObjectStore.ObjectService.Put: requires a body that is stored as one blob to be among the contents SHA-256 is taken to tell apart, and so do the operations that copy objects.
- How the web UI makes a new key from what was typed (internal/webui/handlers.go:393-402): the new key is a parameter, and not empty.
- Keys are taken to be non-empty in listings: an empty key would make the cursor start over.
- Invalid base64 in a continuation token, which is an error before the listing starts.
- Listing.Query: LIKE is modelled on bytes with ASCII case folding; SQLite's treatment of malformed UTF-8 is not.
- GarbageCollect.Collector.GarbageCollect: assumes that no object record fails to load while marking (internal/object/gc.go:53-57), and that no directory below `_data/` has an empty name.
- Multipart.MultipartService.UploadPart: promises nothing about the store after a failed transfer of a part that was recorded before; the exact condition is a lemma.
- Multipart.MultipartService.Complete: for an empty part list it states the new tables but not that the object can be read; the exact condition is a lemma.
- ChunkedReader.Reader.LoadNextChunk: a negative size, for which the buffer cannot be made, is an error value; a size beyond memory is read as short data.
- RetryUpload.RetryClient.UploadFromFileVerified: compares sizes as the code does, so equal sizes with different bytes pass.
- RetryUpload.RetryClient.UploadFromFile: the directory of a path is taken for paths without `.`, `..` or doubled slashes.
- StructureMerge.Engine.MergeStructure: columns a merge only copies are one field; users and buckets are visited in any order; locations as old as each other keep insertion order.
- StatsCluster.TotalsConverge: requires that no two imports translate a location id differently; otherwise a delta stays where the first one put it.
- BucketSync.Engine.RepairRemote: back-up copies and sidecar files are steps that may fail; a download that is not reported as failed delivers the file that is there.
- BucketSync.Engine.Live: what happens between syncs happens as a whole; a client's write that passed the gate before a repair began is not interleaved with the repair's steps. A restart, which forgets the gate, ends the run.
