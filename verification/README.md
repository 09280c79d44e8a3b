# ruskery, verified

ruskery is a single-process OCI registry: manifests, tags and blob records live in a
database, blob bytes in object storage, and a manifest cache, upload sessions, an
importer, usage counters and a garbage collector work around them concurrently. This
project models those components in Dafny and proves what they keep.

Requests that run concurrently are step machines: each `...Step` or `Step` function is one
atomic effect, `Takes` says which steps a schedule may take, and the main results hold of
every state any schedule reaches. Code that works by changing state is a class or a loop,
proved against the functions those machines and lemmas are about.

- `Common`, `Sums`: shared vocabulary, sums over finite sets.
- `Cache`, `CacheCoherence`, `TagCoherence`, `CacheRuns`, `TagRaces`: the read cache and its
  generation counter against racing readers, pushes, imports, deletes and evictions.
- `Digests`, `ObjectStore`, `Chunking`, `Streaming`, `UploadSession`, `UploadProtocol`,
  `UploadHistory`, `UploadSlots`: digests, storage, 8 MiB parts, streamed copies, upload
  sessions against the requests made of them, and the registry of sessions.
- `Quota`, `PullThrough`: quota admission under concurrent finishes and fetches, and caching
  blobs on a pull.
- `Manifests`, `Content`, `ContentDb`, `Registry`, `Outcomes`, `Gc`: manifest documents,
  content tables and their derived links, whole-request histories, what each request does, and
  garbage collection step by step.
- `Import`, `ImportTasks`: copying a reference with everything it reaches, and blob
  copies that share downloads.
- `Usage`, `UsageProtocol`: usage counters, drained and flushed while recording goes on.
- `Attributes`, `Scripts`: the inline-script scanner behind the Content-Security-Policy.
- `Routes`, `Tags`, `Queries`, `Pagination`: the route parser, tag pages, the links printed
  between them and clients that follow those.

Assumptions, stated in the contracts that need them: storage and database calls are atomic
and a failed call has no effect; SHA-256 is any function from bytes to canonical digests,
and collision-free only where a contract says `Injective`; repository ids hold no `|` and
organisation ids no `/`; JSON decoding is an arbitrary partial function; clocks, request
bodies, upstream answers and failures are inputs or nondeterministic choices. HTTP itself is
not part of the model: a header value with control characters other than tab makes the answer
an error, a client takes a link up to its first `>` and sends it as it is, and the server
drops a fragment and refuses a target with blanks, control characters, `"`, `<` or `>`.

Where the code and its comments disagree the model follows the code, and a lemma shows the
consequence:

- `src/cache.rs` calls a tag hit always fresh. It is not when two pushes of a tag overlap, a
  push overlaps a delete, an import moves a tag, or the handler of a push or delete is dropped
  after its transaction took effect; and while a push is between its row and the cache, a read
  can resolve a tag to what it was before (`TagRaces`).
- A part whose upload fails during a patch stays in the hash but is in no part, so a later
  finish commits a shorter blob under that hash (`UploadProtocol.LostPartIsCommittedShort`).
- The grace window of the collector does not protect a blob that is deleted and uploaded
  again during a sweep, nor a push or re-upload of an old blob that overlaps one (`Gc`).
- The collector deletes an object before its row, so a database failure in between leaves a
  row without an object (`Gc.FaultLosesObject`).
- `cache_blob` deletes the object on a late quota breach although another fetch or an upload of
  the same blob may have recorded it (`PullThrough`).
- The script scan takes a tag that ends in an unquoted value with a trailing slash for
  self-closing and misses its body (`Scripts.BareSlashHidesScript`).
- The import of one tag moves another when a child descriptor's digest has no colon
  (`Import.ImportMovesAnotherTag`).
- Page links carry the marker unencoded, so a tag holding `&`, `+` or a percent escape does not
  survive one; nor does one holding `#`, `<`, `>`, `"`, a blank or a control character, which
  imports store unchecked. With any of them but escapes, pages can repeat for ever or the link
  is refused (`Pagination.LinksNeverEnd`).

## Model

| member | source | states |
|---|---|---|
| Cache.KeyInjective | src/cache.rs:61-63 | composite keys collide only when both the repository id and the value agree, for ids without the separator |
| Cache.PrefixExact | src/cache.rs:177-185 | the invalidation prefix selects exactly the keys of its own repository |
| Cache.LruCache.Put | src/cache.rs:50-51 | at most one entry makes room, only for a new key in a full map, and never the key just put |
| Cache.LruCache.PopAll | src/cache.rs:180-188 | popping a list of keys removes exactly those keys |
| Cache.ManifestCache.constructor | src/cache.rs:66-79 | an empty cache at generation 0, with capacity at least one per map |
| Cache.ManifestCache.GetManifest | src/cache.rs:102-107 | a hit exactly when enabled and present under the composite key |
| Cache.ManifestCache.PutManifestIfCurrent | src/cache.rs:111-125 | the fill lands only at the snapshotted generation, up to one evicted entry that is not its own |
| Cache.ManifestCache.InvalidateManifest | src/cache.rs:129-136 | drops the entry and raises the generation, or does nothing when disabled |
| Cache.ManifestCache.PutTag | src/cache.rs:150-155 | writes the tag whatever the generation, up to one evicted entry that is not its own |
| Cache.ManifestCache.PutTagIfCurrent | src/cache.rs:158-166 | the tag fill lands only at the snapshotted generation |
| Cache.ManifestCache.InvalidateRepoTags | src/cache.rs:173-189 | the collect-then-pop loop removes exactly the tags of the repository and raises the generation |
| CacheCoherence.InvAlways | src/registry/manifests.rs:179-245 | every interleaving of readers, pushes, imports, deletes, failures, dropped handlers and evictions keeps rows, cached manifests and pending fills at or above the newest finished invalidation |
| CacheCoherence.ReadsNeverStale | src/registry/manifests.rs:179-245 | a served manifest was written, hashes to the served digest and is no older than any write invalidated before the read began; a miss follows a removal as fresh, or nothing was ever stored |
| CacheCoherence.SettledManifestIsStored | src/cache.rs:99-136 | once the last write of a digest is invalidated, a cached copy is exactly the row of the database |
| TagCoherence.TagInvAlways | src/registry/manifests.rs:106-115 | while no two pushes of one tag and no push and delete of one repository overlap, no import moves a tag and no writer vanishes half way, every cached tag is the row of the database or one an in-flight writer still has to overwrite or pop |
| TagCoherence.QuietRepoTagsExact | src/cache.rs:138-189 | in the same schedules, when no writer of a repository is in flight every cached tag of it equals its row |
| TagRaces.OverlappingPushesLeaveStaleTag | src/registry/manifests.rs:106-115 | two overlapping pushes of one tag can leave the cache pointing at the overwritten digest for good |
| TagRaces.TagImportLeavesStaleTag | src/proxy.rs:332-336 | caching the tag before the invalidation lets a read-path fill put the old digest back |
| TagRaces.DeleteDuringPushLeavesStaleTag | src/registry/manifests.rs:250-277 | a delete that drops rows and cached tags between a push's tag upsert and its cache write leaves a cached tag without a row |
| TagRaces.VanishedPushLeavesStaleTag | src/registry/manifests.rs:106-115 | a push whose handler is dropped between its tag upsert and its cache write leaves the old tag cached |
| TagRaces.TagCoherenceExactly | src/cache.rs:138-166 | idle repositories have exact cached tags in every schedule if and only if no two pushes of one tag and no push and delete of one repository overlap, imports move no tags and no writer vanishes half way; pushes of different tags, deletes and readers overlap freely |
| CacheRuns.ReportsItsReference | src/registry/manifests.rs:191-240 | in every run a read of a digest reports that digest and never a missing tag, and a read of a tag reports a digest that was the tag's row at some moment |
| CacheRuns.MissingTagWasMissing | src/registry/manifests.rs:196-210 | a read reports a tag missing only when its row was missing at some moment since the read began |
| CacheRuns.TagReadSinceItBegan | src/cache.rs:138-166 | with writers of a tag kept apart, the digest a tag resolves to was its row since the read began, unless a writer had by then changed the row and not yet the cache |
| TagRaces.ReadDuringPushSeesOldTag | src/registry/manifests.rs:106-115 | in that case it need not be: a read that begins between the tag upsert and the cache write can resolve to the row before |
| CacheRuns.FinishedPushStored | src/registry/manifests.rs:98-115 | a push that ended well stored its manifest under its own digest and moved its tag since it began, and has invalidated |
| CacheRuns.FinishedDeleteRemoved | src/registry/manifests.rs:250-277 | a delete that ended well removed what its reference named, with every tag on it, and has invalidated |
| CacheRuns.UnknownTagWasMissing | src/registry/manifests.rs:260-266 | a delete calls a tag unknown only when its row was missing at some moment since the delete began |
| CacheRuns.ReadSeesFinishedPush | src/registry/manifests.rs:214-231 | a read that begins after a push of its digest ended well reports that push or a later write |
| CacheRuns.ReadSeesFinishedDelete | src/registry/manifests.rs:270-275 | a read that begins after a delete ended well serves what was deleted only if it was stored again |
| CacheRuns.StepAdvances | src/registry/manifests.rs:43-277 | reads, pushes and deletes wait for nothing and end within seven steps |
| CacheRuns.TagRowsChangeExactly | src/registry/manifests.rs:106-110 | a tag row changes only by a push of that tag, to its digest, or by a delete of the manifest it names |
| Digests.DigestsEqualExactly | src/registry/mod.rs:593-612 | comparison with a computed digest succeeds exactly when the given one equals it up to letter case; malformed digests match nothing |
| ObjectStore.BlobKeyInjective | src/storage/mod.rs:83-86 | blob keys identify the organisation and the digest |
| ObjectStore.UploadKeyIsNoBlob | src/storage/mod.rs:83-91 | a temporary upload key never collides with a blob key |
| ObjectStore.UploadKeyInjective | src/storage/mod.rs:89-91 | temporary keys identify the organisation and the upload |
| Chunking.CutUnique | src/registry/uploads.rs:152-156 | full parts and a shorter remainder are the only way to cut a stream |
| Chunking.DrainKeeps | src/registry/uploads.rs:152-158 | draining only moves bytes from the buffer to full parts and leaves less than a part |
| Chunking.WriteAllKeeps | src/registry/uploads.rs:146-161 | any sequence of chunks is hashed and held in full, in order, every part exactly of part size |
| Chunking.ChunkingIsIrrelevant | src/registry/uploads.rs:146-161 | parts, buffer and hash depend only on the bytes written, not on how they were cut |
| Chunking.SameStreamSameSession | src/registry/uploads.rs:146-161 | two chunkings of one stream reach the same session |
| Chunking.AssembledFrom | src/storage/mod.rs:188-207 | completing parts numbered from one reproduces the blocks in order |
| Streaming.ReadBody | src/proxy.rs:440-472 | the read loop receives a body within the limit into full parts, or stops for a stream, storage or size failure |
| Streaming.Commit | src/proxy.rs:487-512 | a commit stores exactly the received bytes under the key, or nothing, and leaves its multipart upload open only if an abort failed |
| Streaming.StreamToStorage | src/proxy.rs:423-515 | success stores exactly the verified body within the limit; every failure leaves all objects alone and has its own cause; no multipart upload leaks unless an abort failed |
| UploadSessions.UploadSession.SendPart | src/registry/uploads.rs:152-158 | one part leaves the buffer: into storage and the part list, or lost when its upload fails |
| UploadSessions.UploadSession.Write | src/registry/uploads.rs:146-161 | on success the session is the one the chunking function gives; on failure exactly one part of hashed bytes is in neither parts nor buffer |
| UploadSessions.UploadSession.AssembleTemp | src/registry/uploads.rs:410-428 | the temporary object holds exactly the parts followed by the buffer |
| UploadSessions.UploadSession.Absorb | src/registry/uploads.rs:360-372 | the final body is written chunk by chunk and refused over the size limit |
| UploadSessions.UploadSession.MoveToBlob | src/registry/uploads.rs:410-433 | the session's contents are assembled, copied to the blob key and the temporary object deleted, or no blob changes |
| UploadSessions.UploadSession.Finish | src/registry/uploads.rs:339-454 | a finalize succeeds once, stores the contents of the session under the digest of what was hashed, which is the object's own digest when the session held all it hashed, and records its size; a failure touches no blob and no row, unless the recording failed, which leaves the object without a row; afterwards the session only refuses |
| UploadSessions.FinishTwice | src/registry/uploads.rs:350-356 | a finalize sent again is refused whatever became of the first, and changes no object and no row |
| UploadSessions.WholeStreamCommitted | src/registry/uploads.rs:146-161 | a session that holds all it hashed still does after any further chunks |
| UploadProtocol.InvAlways | src/registry/uploads.rs:205-496 | in every interleaving of starts, patches, finishes, cancels and reaps a session holds all it hashed until a part is lost, is committed by one finish at most, and recorded sizes are those of content with the recorded digest |
| UploadProtocol.CommitsWholeStreamExactly | src/registry/uploads.rs:374-454 | a session commits at most once, and what it commits is the whole stream it hashed if and only if no part was lost |
| UploadHistory.CommitsWhatWasSentExactly | src/registry/uploads.rs:273-454 | in every run a session hashes exactly the bytes its patches and finish sent, in order; it commits at most once, only when the quota admitted it and the digest of all that was sent is the one the finish named, and commits all of it if and only if no part upload failed |
| UploadHistory.SessionIsCut | src/registry/uploads.rs:146-161 | between requests a session that lost nothing holds the stream sent so far in full parts and one short tail, the only way to cut it |
| UploadHistory.TemporaryObjectsGo | src/registry/uploads.rs:410-433 | a temporary object is there while a finish is between assembling and deleting it, and otherwise only after a failed copy or delete |
| UploadHistory.PartsGoToOpenUploads | src/registry/uploads.rs:152-158 | parts go only to a multipart upload that was neither aborted nor completed |
| UploadHistory.FinishGoesThrough | src/registry/uploads.rs:339-454 | an idle session asked to finish under the digest of what it hashed can always commit its contents, record them and leave no temporary object |
| UploadProtocol.CommitHashesExactly | src/registry/uploads.rs:374-433 | a committed object hashes to the digest its session reports if and only if the session lost no part |
| UploadProtocol.StoredBlobsHashToTheirKey | src/registry/uploads.rs:430-433 | unless a session that lost a part committed, every object at a blob key hashes to the digest of the key |
| UploadProtocol.StoredBlobHashesExactly | src/registry/uploads.rs:430-433 | in every run an object hashes to its key if and only if some session that lost nothing committed it there |
| UploadProtocol.RecordedSizeIsLength | src/registry/uploads.rs:435-435 | the recorded size is the length of the stored object if and only if the object hashes to its key |
| UploadProtocol.LostPartIsCommittedShort | src/registry/uploads.rs:152-156 | a failed part upload during a patch is followed by a finish that commits a blob missing that part |
| UploadSlots.UploadRegistry.TakeExpired | src/registry/uploads.rs:71-91 | the reaper takes exactly the sessions that are idle, unlocked and not finalizing, and frees the slots of those no request holds |
| UploadSlots.StaysWhileInUse | src/registry/uploads.rs:81-84 | a session stays exactly while it was used within the idle time, is at work, or is being finished |
| UploadSlots.UploadRegistry.Start | src/registry/uploads.rs:205-266 | slots are conserved, and a start is refused exactly when none is free and every session the reaper may take is still held |
| UploadSlots.UploadRegistry.Remove | src/registry/uploads.rs:63-65 | a session taken out gives its slot back at once unless a request still holds it |
| UploadSlots.UploadRegistry.Release | src/registry/uploads.rs:37-42 | the last request to let go of a session taken out frees its slot |
| Quota.OvershootBound | src/registry/uploads.rs:385-408 | stored bytes plus admitted digests never exceed the quota by more than one largest blob per other finish or fetch in flight; one alone never exceeds it |
| Quota.VerdictExactly | src/registry/uploads.rs:385-408 | a new blob is admitted exactly when it fits the quota by what is recorded then, and refused exactly when it does not |
| Quota.OvershootAttained | src/proxy.rs:390-401 | that bound is reached by requests that all pass the check before any records, finishes alone or fetches alone |
| PullThrough.CacheBlob | src/proxy.rs:343-402 | success stores the verified body within both limits and a row with its length; each failure has its own cause, changes no row and, for a new blob, leaves no object unless storage or database failed |
| PullThrough.RowsKeepObjectsExactly | src/proxy.rs:390-400 | in every schedule of pulls, imports and upload finishes each blob row keeps its object, if and only if no fetch of a blob overlaps another fetch or an upload of it, or no set of blobs that each fit the quota by themselves, whether or not they fit together, exceeds it with one of them counted twice |
| PullThrough.NearlyFullIsTight | src/proxy.rs:390-400 | any set of recorded blobs that leaves room for a further blob once but not twice is such a case, however large the quota |
| PullThrough.UnlimitedRowsKeepObjects | src/proxy.rs:364-400 | without a quota every blob row keeps its object in every schedule |
| Manifests.ParseBlobRefs | src/registry/manifests.rs:359-377 | the loop returns the config digest, then the layer digests in order |
| Manifests.DescriptorDigestsComplete | src/registry/manifests.rs:379-388 | a digest is listed exactly when some descriptor carries it |
| Manifests.BlobRefsComplete | src/registry/manifests.rs:359-377 | a blob is referenced exactly when it is the config or a layer of the document |
| Manifests.ChildRefsComplete | src/registry/manifests.rs:379-388 | the children are exactly the digests of the descriptors under the manifests key |
| Manifests.SubjectExactly | src/registry/manifests.rs:393-406 | a subject is named by its digest, with the artifact's own type before the config's before none |
| Content.PutManifestAgrees | src/db/content.rs:123-208 | storing a manifest leaves all three link tables equal to re-parsing the stored bytes |
| Content.DeleteManifestAgrees | src/db/content.rs:303-345 | deleting one does too |
| Content.DeleteRepoAgrees | src/db/orgs.rs:652-665 | deleting a repository with its cascades does too |
| ContentDb.Database.RecordBlob | src/db/content.rs:40-53 | a recorded blob keeps its first size and age |
| ContentDb.Database.ReplaceBlobLinks | src/db/content.rs:148-166 | deleting the rows of a manifest and inserting the new ones leaves exactly its references |
| ContentDb.Database.PutManifest | src/db/content.rs:123-208 | the row-by-row transaction is the table update the agreement lemmas are about |
| ContentDb.Database.DeleteManifest | src/db/content.rs:303-345 | so is the delete, including the tags that pointed at the manifest |
| ContentDb.Database.Push | src/registry/manifests.rs:43-115 | a push stores manifest, links and tag only after every check passed, and reports the first check that failed |
| ContentDb.CollectGarbage | src/gc.rs:12-31 | a sweep removes object and row only of blobs recorded before the cutoff and referenced by no link, and of each such blob unless its object could not be deleted, and returns their number; the first row that cannot be deleted ends it, and only that blob is left with a row and no object |
| Registry.AlwaysAgrees | src/db/content.rs:123-208 | after any history of requests and sweeps the link tables equal a re-parse of the stored manifests |
| Registry.ReferencedIsFullScan | src/db/content.rs:59-71 | a blob counts as referenced exactly when some stored manifest of the organisation lists it |
| Registry.ReferrersAreFullScan | src/db/content.rs:222-246 | the referrers of a subject are exactly the stored manifests that name it, with their artifact types |
| Registry.ChildrenAreFullScan | src/db/content.rs:168-184 | index links last exactly as long as the index that lists them |
| Registry.StoreKeepsClosedExactly | src/registry/manifests.rs:82-104 | storing a manifest keeps the store closed if and only if every blob it references is recorded |
| Registry.CollectKeepsClosedExactly | src/gc.rs:16-25 | removing blobs keeps the store closed if and only if none of them is referenced |
| Registry.AlwaysClosed | src/registry/blobs.rs:93-112 | after any history without imports, referenced blobs have rows, blob rows have objects, and tags and manifests have their owners, failed deletes and recordings included |
| Outcomes.SweepExactly | src/db/content.rs:82-100 | after any history a sweep removes exactly the blobs recorded before the cutoff and listed by no stored manifest of their organisation, except where the object could not be deleted, and nothing else |
| Outcomes.BlobDeleteExactly | src/registry/blobs.rs:93-112 | after any history a blob delete removes exactly a recorded blob that no stored manifest lists |
| Outcomes.ManifestDeleteExactly | src/registry/manifests.rs:250-277 | a manifest delete removes what the reference names and every tag on it, and no blob, repository or other manifest |
| Outcomes.RepoDeleteExactly | src/db/orgs.rs:652-665 | a repository delete removes the repository with its manifests and tags; blobs stay |
| Outcomes.FinishUploadExactly | src/registry/uploads.rs:430-435 | a finished upload adds its object and, unless recording failed, a row that keeps an earlier size and age |
| Outcomes.PushExactly | src/registry/manifests.rs:43-115 | after any history a push is accepted exactly when a digest reference is the content's own digest, the content is JSON and every blob it lists is recorded; it then stores the manifest under its digest and moves the tag, and otherwise changes nothing |
| Outcomes.RefusalsExactly | src/registry/manifests.rs:53-95 | a refused push names the first of the three reasons that holds |
| Outcomes.ImportExactly | src/proxy.rs:299-338 | an import stores in the same way without looking the blobs up |
| Gc.SweepsSpareYoungBlobsExactly | src/db/content.rs:82-100 | in every step-by-step schedule sweeps remove only blobs older than their cutoff, if and only if uploads and other removers may not both overlap a sweep |
| Gc.SchedulesKeepClosedExactly | src/gc.rs:12-31 | the store stays closed in every schedule if and only if sweeps and blob deletes overlap neither uploads nor pushes and never fail between an object and its row |
| Gc.RemoversAlways | src/gc.rs:20-25 | in every schedule a blob delete removes its row though its object may stay, and where uploads keep away a sweep removes only rows whose object it has deleted |
| Gc.StepAdvances | src/gc.rs:18-27 | every step of a sweep, delete, push or upload brings it closer to its end |
| Gc.StepTouchesOwn | src/gc.rs:18-27 | a step changes only the row and object of the blob it is about, and only the manifest it stores |
| Gc.PushRace | src/registry/manifests.rs:82-104 | a push between its check and its store can lose a blob to a sweep |
| Gc.UploadRace | src/registry/uploads.rs:430-435 | a re-upload between placing and recording can lose its object to a sweep |
| Gc.FaultLosesObject | src/gc.rs:20-24 | a sweep whose row deletion fails leaves a row without its object |
| Gc.AgeRace | src/gc.rs:14-25 | a delete and a fresh upload between listing and deletion cost the fresh blob its row |
| Import.DescriptorsAreBlobRefs | src/import.rs:303-321 | the importer copies exactly the blobs the link rows of the manifest reference |
| Import.DescriptorsComplete | src/import.rs:303-321 | the descriptors are exactly the entries with a digest, each with the number under its size, or 0 |
| Import.TagCopy.CopyBlobOnce | src/import.rs:261-290 | only a missing blob is downloaded, and only a download that worked is recorded |
| Import.TagCopy.CopyAll | src/import.rs:219-225 | every copy of an image runs to its end whether or not others fail |
| Import.TagCopy.Collect | src/import.rs:226-232 | the first error, or the count and declared size of exactly the blobs downloaded |
| Import.TagCopy.CopyBlobs | src/import.rs:219-232 | success means every config and layer blob is present |
| Import.TagCopy.StoreManifest | src/proxy.rs:299-338 | one manifest more, and a moved tag when the reference is not a digest |
| Import.TagCopy.CopyReference | src/import.rs:173-255 | for every upstream, cyclic ones included, the copy ends; success leaves the reference visited, under its own digest when it is one, or absent upstream, no newly visited manifest unstored, and each stored manifest with a reference that is a digest or a tag now pointing at it; an error has its reason in the upstream or in a failed copy or store |
| Import.TagCopy.CopyChildren | src/import.rs:233-250 | every child is visited or absent upstream, or the first error is reported |
| Import.VisitedIsReachable | src/import.rs:201-204 | a finished copy has visited exactly the manifests reachable from the reference, none deeper than the limit |
| Import.CopyTag | src/import.rs:150-166 | a successful tag means no reachable reference failed to fetch and every digest reference was served content of that digest; it stores each reachable manifest once, with image blobs present and children stored or absent, moves the tag, and counts exactly the blobs newly recorded; an error from the upstream is explained by a reachable reference; other tags move only to the manifest served for them as a reference below it, none when every child reference is a digest, and each one that alone leads to its manifest |
| Import.ImportMovesAnotherTag | src/import.rs:238-253 | an index whose child digest has no colon moves the tag of that name, whatever it held before |
| ImportTasks.DownloadsAreShared | src/import.rs:261-290 | whatever other requests record and delete, no two tasks download one digest at once and at most the configured number run; while nobody deletes, what a task reports as copied or already there is recorded, and the tasks that succeed brought different new digests |
| ImportTasks.ResultsMean | src/import.rs:269-289 | whatever other requests do, a blob reported as copied or already there was recorded at some moment since the task began, and a task fails if and only if a look-up or its download failed |
| ImportTasks.SharingExactly | src/import.rs:261-290 | only missing digests are downloaded if and only if nobody else records, each is downloaded once if and only if nobody deletes, and the successes number the new digests if and only if nobody does either |
| ImportTasks.DeletedThenCopiedAgain | src/import.rs:261-290 | a blob deleted during the import is downloaded and counted a second time |
| ImportTasks.TrueResultsAreNewBlobs | src/import.rs:219-232 | with no other request recording or deleting, the true results number the digests newly recorded |
| ImportTasks.NeverStuck | src/import.rs:271-287 | with at least one permit some task can always proceed until all have returned |
| ImportTasks.EveryStepAdvances | src/import.rs:261-290 | every step brings the run closer to its end |
| Usage.UsageCollector.Record | src/analytics.rs:73-99 | one event counts once for its repository and once for its user, when it has one |
| Usage.UsageCollector.Bump | src/analytics.rs:125-132 | both entry branches add one to the count and the bytes to the sum |
| Usage.UsageCollector.Drain | src/analytics.rs:147-161 | draining empties the map into one row per entry that adds up to it again |
| Usage.UsageCollector.Requeue | src/analytics.rs:135-144 | requeued rows are added to what has been recorded since |
| Usage.UsageCollector.Flush | src/analytics.rs:104-113 | a flush moves every count to the rollups, or changes nothing anywhere |
| Usage.Rollups.FlushBatch | src/db/analytics.rs:17-57 | one transaction: every row is added to its total, or no table changes and some call failed |
| Usage.AddRowsAt | src/db/analytics.rs:25-30 | additive upserts leave each total raised by exactly what the batch holds for it |
| UsageProtocol.NothingLostOrDoubled | src/analytics.rs:73-161 | in every interleaving of recordings and flushes, memory plus what requests in flight hold plus rollup is exactly what was asked to be recorded, per key, in count and bytes |
| UsageProtocol.RollupIsRecorded | src/analytics.rs:104-113 | once everything is flushed a rollup row is exactly the recorded events of its key |
| UsageProtocol.HeldTotalsAgree | src/analytics.rs:73-161 | at any moment, over memory, requests in flight and rollups together, the repository total of a day, organisation and kind exceeds the user total by exactly the events without a user |
| UsageProtocol.QuietHoldsBatchesOnly | src/analytics.rs:73-99 | with no recording in progress, what is in flight is what drained batches hold |
| UsageProtocol.RecordingEnds | src/analytics.rs:73-99 | a recording is over after one bump, or two when the event has a user |
| UsageProtocol.FlushGoesEitherWay | src/analytics.rs:104-113 | an open flush can drain memory, commit and be over, or fail, put everything back and be over with the rollup as it was |
| UsageProtocol.RollupTotalsAgree | src/analytics.rs:73-99 | with everything flushed the same holds of the rollup tables alone |
| UsageProtocol.CommitIsFlushBatch | src/db/analytics.rs:17-57 | committing a drained batch row by row is the merge the interleaving uses |
| Attributes.TagEnd | src/web.rs:178-192 | the loop returns the first closing bracket outside quotes, or none |
| Attributes.ScanAttrs | src/web.rs:196-243 | the index loops compute the attribute list of the recursive reading |
| Attributes.AttrsRoundTrip | src/web.rs:196-243 | attributes, quoted or not and however spaced, parse back to exactly the names and values written |
| Attributes.RenderedTagEnds | src/web.rs:178-192 | a rendered tag ends at its own bracket whatever its attribute values hold |
| Scripts.FindCiFirst | src/web.rs:167-174 | the search returns the first case-insensitive match, or there is none |
| Scripts.MimeParametersIgnored | src/web.rs:248-279 | letter case and parameters never change whether a script type runs, except that the module keyword takes no parameters |
| Scripts.BlankTypesRun | src/web.rs:248-254 | a missing or blank type never stops a script from running |
| Scripts.NameEndsExactly | src/web.rs:121-127 | the tag name ends at space, a bracket or a slash, and is a longer name otherwise |
| Scripts.RenderedNeverSelfCloses | src/web.rs:143-145 | a quoted value ending in a slash is never mistaken for a self-closing tag |
| Scripts.InlineScriptHashes | src/web.rs:113-164 | on every document the scan ends with all slices in range and hashes the bodies of the recursive reading, in order |
| Scripts.ScanFindsExecutables | src/web.rs:113-164 | for every rendered document, names that only start like a script's included, exactly the inline bodies that run by their attributes as written are found, in order, if and only if no such script's tag ends in a slash |
| Scripts.QuotedSlashesHideNothing | src/web.rs:143-145 | documents that quote every attribute value holding a slash have no such tag |
| Scripts.BareSlashHidesScript | src/web.rs:143-145 | a script that runs, with an unquoted value ending in a slash, is missed |
| Routes.ParsedIsPath | src/registry/mod.rs:88-146 | whatever a path parses to, it is a path for that request, with name and operand not empty |
| Routes.EveryPathParses | src/registry/mod.rs:88-146 | every path for some request whose operand holds no slash parses to a request |
| Routes.SegmentLimits | src/registry/mod.rs:73-85 | a name segment is 1 to 255 of exactly these 39 characters |
| Routes.NameNeedsTwoSegments | src/registry/mod.rs:73-85 | one segment is no repository name, two valid ones are |
| Routes.ManifestLocationParsesExactly | src/registry/mod.rs:88-115 | a manifest location parses back if and only if no later name segment is the referrers keyword |
| Routes.UploadLocationParsesExactly | src/registry/mod.rs:88-134 | an upload location parses back if and only if no later segment is the referrers or manifests keyword |
| Routes.BlobLocationParsesExactly | src/registry/mod.rs:88-146 | a blob location parses back if and only if, besides, the name holds no later blobs/uploads and the digest is not the word uploads |
| Routes.LaterSegmentExactly | src/registry/mod.rs:73-85 | those conditions are about the segments of the name past the first |
| Tags.List | src/registry/tags.rs:26-41 | filtering and truncating in place give the page function, link included |
| Tags.WalkListsOnce | src/registry/tags.rs:26-41 | following the markers while tags come and go between pages, every tag there throughout is listed once and no tag twice, in order |
| Tags.FixedWalkListsAll | src/registry/tags.rs:26-41 | over fixed tags the markers end having listed every tag once, on the fewest pages that hold them |
| Tags.ZeroListsNothing | src/registry/tags.rs:34-41 | a page size of zero gives an empty page and no link |
| Queries.PercentDecode | src/registry/mod.rs:571-588 | the byte loop computes the recursive decoding |
| Queries.DecodeUndoesEncode | src/registry/mod.rs:571-588 | decoding undoes percent-encoding, whichever characters the encoder left alone |
| Queries.NextQueryParams | src/registry/uploads.rs:536-541 | the query of the printed link yields the page size, and the marker up to its first separator |
| Queries.LinkAsksForNextPage | src/registry/mod.rs:246-251 | the printed link is sent whole and reaches the tag listing of the same repository with the same size and, for OCI tags, the same marker |
| Queries.HexDigitsExactly | src/registry/mod.rs:571-588 | an escape is made of hex digits in either letter case, and of nothing else |
| Queries.DecodesToItselfExactly | src/registry/mod.rs:571-588 | decoding leaves a text as it is if and only if it holds no plus sign and no well-formed escape |
| Queries.MarkerSurvivesExactly | src/registry/tags.rs:38-47 | any marker comes back from its printed link if and only if it holds no character that ends or spoils the link, no separator, no plus sign and no well-formed escape |
| Queries.ArrivesBefore | src/registry/tags.rs:38-38 | a marker without escapes that does not survive comes back as one that sorts before it, or the request is refused |
| Pagination.ServesPage | src/registry/tags.rs:13-53 | the handler answers a link taken from its header with the page after the marker as it arrives and prints the link to the next; a link that does not arrive gets no page |
| Pagination.AnsweredExactly | src/registry/tags.rs:44-53 | a page is answered with an error exactly when its marker holds a control character other than tab |
| Pagination.LinkShowsNextPageExactly | src/registry/tags.rs:34-53 | the link is printed and shows the next page of every listing if and only if its marker survives |
| Pagination.LinksListOnce | src/registry/tags.rs:26-53 | over tags that survive, among them all OCI tags, a client that follows printed links while tags come and go gets every tag there throughout, none twice and none that never existed |
| Pagination.FixedLinksListAll | src/registry/tags.rs:26-53 | over fixed tags that survive the printed links end, in only one way, having listed every tag once on the fewest pages that hold them |
| Pagination.LinksNeverEnd | src/registry/tags.rs:34-53 | when the first tag comes back as one that sorts before it, or not at all, a client with one-tag pages never gets to the end |
| Pagination.SamePageAgain | src/registry/tags.rs:34-53 | when it does come back, its link shows the same page again |
| Pagination.PlusAndHashRepeatThePage | src/import.rs:140-156 | two tags of which the first holds a plus sign, or a hash as only an imported tag can, do that |

## Left out

- Recency order of the LRU maps: any entry may be evicted at any time, which covers every order; `get` promotion is not modelled.
- Generation and size wrap-around: the u64 and i64 counters are unbounded integers, so saturating additions are plain ones.
- Lookups in the session registry: a request may have looked a session up at any moment before it was removed, so `UploadProtocol` lets any request try any session.
- UploadSlots.UploadRegistry.Start: a start is one step here, so a slot freed by another request between its two attempts is not taken into account.
- The per-blob size limit when several requests race on one session: the over-size path releases the lock before removing the session.
- Repository ids: the tables identify a repository with its organisation and name, since deleting it cascades to everything under its id.
- Timestamps are whole seconds; the string comparison of `src/db/content.rs:89` is not chronological within one second.
- Gc.SchedulesKeepClosedExactly: imports, which store manifests without looking their blobs up, are not among its requests.
- Import.CopyTag: image manifests that also list children have only their children copied, as in the code, so nothing is claimed about their blobs.
- Import.TagCopy.CopyBlobOnce: one copy at a time and nothing else running; `ImportTasks` interleaves the blob copies of an import with each other and with requests that record or delete blobs.
- Clients that encode a printed link before they send it: `Pagination` follows links as printed.
- ImportTasks.EveryStepAdvances: fairness of the scheduler is assumed, not modelled.
- The repository loop of an import and its progress rows, catalog enumeration and provider selection.
- Usage.Rollups.FlushBatch: a commit that succeeds while its acknowledgement is lost is not modelled, nor is a flush dropped after it drained a batch.
- Daily storage snapshots and the dashboard queries over the rollups.
- UTF-8: `Queries` works on bytes as characters and stops before the lossy decoding of the result; `Scripts` positions count characters where the code counts bytes, and every delimiter is ASCII.
- Base64 and SHA-256 of a script body: an arbitrary token function.
- HTTP plumbing, authentication, scopes, redirects, TLS, the token dance, audit log, pull counters and the web interface: network clients or easy members.
- The OCI content-range check of a patch, which only refuses requests.
