# PackVault: a verified model of the artifact storage engine

PackVault is a Maven repository server. This project models, in Dafny, how it stores, caches, lists,
groups and deletes artifacts, and proves what the code promises about that. `dafny verify dfyconfig.toml`
checks everything.

## What is modelled

* **The storage protocol** (`Protocol`, `ProtocolSafety`, `Answers`, `WriteOnce`, `Coherence`). Any number of
  uploads, downloads and deletions advance one small step at a time over one primary store and one cache
  directory. Existence checks, the copy into temp files, the atomic link or replace, cache population, streaming
  and eviction are separate steps, and so is the removal of temp files after an object is in place; a storage
  fault, a cache fault or a client that goes away can come between any two of them. The theorems are about every
  run. An upload that is answered with any error but a storage error has changed nothing. After a storage error it
  may have stored its object (`StoredDespiteError`: the link succeeds and removing the temp file fails);
  `ErrorAndLog` and `StorageErrorMoment` say exactly when. `Answers` says what every other answer means: the
  reason of a failure, that a deletion which is done has erased its object, and that what is reported was so at a
  moment of the operation. Coherence of the cache is a matter of the repository's policy (`AlwaysCoherentIff`): a
  finished cache file of a key equals the primary's object in all runs exactly when the key is never cached, or
  neither overwrites nor deletions of it are allowed. Each of the two alone lets a reader that has the old object
  open promote it afterwards, without any fault (`OverwriteLeavesStaleFile`, `DeletionLeavesStaleFile`).
* **The local store** (`FileTree`, `LocalStore`): the tree of files and directories, its system calls, and
  the store as an object whose methods change it.
* **The read-through cache** (`S3Store`, `CacheSpec`, `CachedStore`, `CacheFaults`): the bucket as a map, the
  cached store as an object with its chunk loops and faults, and its refinement of a plain map. The answer of a
  read includes how its stream ends. The refinement is exact: a call is answered like the plain map exactly unless
  the cache blocks it, and there are two ways to do so without any fault. A cached *file* can stand where a key
  needs a *directory* (`StoredKeyRefused`: once `a` is cached, the stored key `a/b` is refused). And a *directory*
  of the cache can stand where a key needs its *file*: then a read of the stored key gets all bytes and ends in an
  error (`LeftoverDirectory`: a read of the missing key `a/b` leaves the directory `a`, and reads of `a` fail from
  then on, because cache directories are never removed). `NeverBlockedIff` says which keys are safe from both: no
  call on a set of keys is ever blocked, whatever calls on them came before, exactly when no cacheable key of the
  set is a segment-wise ancestor of another. Faults of the cache itself are swallowed; `StaleIff` says exactly
  which keys they leave stale over a whole run.
* **Operations that run alone** (`SoloRuns`): what each answers and leaves behind, with a cache or without, whatever
  cache faults it meets; without faults it is one call of the sequential cached store, so the two models agree. And no
  operation waits for another: at every moment of every run each can finish alone (`EveryOperationCanFinish`).
* **Paging** (`KeyWalk`, `UiListing`, `DirectoryPage`, `DirectoryWalk`, `DirectoryLevel`): keyset cursors over a
  store or a directory that may change between pages, the filtering pager that resumes in the middle of a page,
  the mixed directory and file cursor, and the agreement of the directory view with a grouping of flat keys.
* **Deletion by prefix** (`PackageActions`). The exact scope of every deletion is proved, including two cases
  that the names do not suggest: a version that normalises to nothing deletes the whole artifact
  (`EmptyVersionTakesArtifact`), and a refused version is reported only after the versions before it in the
  list are gone (`RefusedAfterDeleting`). The same holds of a removal that raises part-way, for exactly the keys before
  it (`InterruptedVersions`).
* **Packages** (`Packages`, `PackageDetails`, `PackageAgreement`): the two groupings of paths into packages,
  when they agree, and the condition under which every file is shown exactly once.
* **Version order** (`Versions`, `VersionOrder`, `Decimal`). The comparison of versions is antisymmetric, but
  not transitive: `9 < 10 < 1a < 9`. It is transitive exactly when no word begins with a number that has no
  leading zero and a digit other than nine (`CycleProne`).
* **Paths** (`PathValidation`, `Breadcrumbs`, `Segments`, `Text`): percent-decoding, validation, storage keys
  and breadcrumbs.
* **The rate limiter** (`RateLimit`), with its clock as a parameter of each call. With
  a nondecreasing clock and no other request of the key in between, the advised retry time is right exactly for
  windows of at most one second or of whole seconds; with stale times it never is for certain.

`Basics` and `Strings` hold shared datatypes, chunked reading, and Python's string order.

## Reading the model

* Keys and prefixes are what `build_storage_key` makes of validated input (`PathValidation.KeyStaysBelowRoot`): no
  empty segment and no slash at either end. The stores' methods take such names (`Clean`, `Relative`), and the
  operations on repositories take repository names of that kind; the settings allow no others.
* Temp files have fresh names. Files have no symbolic links, and one process owns the cache directory.
* `makedirs` is one step. Its partial effects are those of calls for shorter keys, which the tree invariant
  covers as well, because it speaks of any sequence of calls.
* Text is ASCII where the code changes case or recognises digits. A percent-encoded byte above 127 decodes to
  the replacement character; validation refuses it like any other character beyond ASCII.
* An S3 call that fails changes nothing, except in the protocol, where an upload can fail after it published; a bulk
  deletion that fails does so between two batches.
* Time is a real number, and `int(...)` of a window length is its truncation.
* A set is listed in an arbitrary order, so the order of versions that compare equal is left open.
* An abandoned download leaves its temp file behind; the protocol keeps it (`Op.temp` of an abandoned operation).
* What the protocol calls visible are the objects under keys that are not names of temp files. The temp file of a
  running upload lies beside its object as `.name.<random>.tmp`. It is listed under every prefix above the key,
  it is served under its own name, and that name is a valid path (`TempFiles`).
* In the protocol every upload has a step after publication in which it can fail. For an exclusive put of the local
  store that is the removal of its temp file, for S3 and for the cached store the removal of the spooled body. An
  overwriting put of the local store has no such step of its own.
* When an upload fails before it publishes, removing its temp file can fail too, and changes which error is
  reported; the model reports the first one.
* `_stream_and_cache` tolerates faults in opening and writing the temp file, but not in making the directories, in
  closing the temp file, in removing it after a failed write, or in moving it into place: the reader then gets an
  error, in the last case after all bytes.
* The helper text of `list_artifacts_for_ui` does not say that a listing can stop early: after 20 storage pages
  without a full page of visible keys there is no cursor although keys remain (`ChainReachesEndIff` says when).

## Model

| member | source | states |
|---|---|---|
| ProtocolSafety.RunKeeps | packvault/storage/cached.py:60-129 | Every run from an empty cache keeps the invariant: each operation's temp file matches its progress, everything visible is a whole object, and the log of changes explains both stores. |
| ProtocolSafety.StepKeeps | packvault/storage/cached.py:91-129 | One step of any operation, with any fault and with the removal of temp files after publication, keeps that invariant. |
| ProtocolSafety.PutMoveOk | packvault/api/routes_maven.py:213-244 | One step of an upload keeps its buffers to prefixes of its body within the size limit, and publishes only the whole body. |
| ProtocolSafety.GetMoveOk | packvault/storage/cached.py:252-298 | One step of a download keeps what was sent, and what its temp file holds, to a prefix of the opened object, and promotes only all of it. |
| ProtocolSafety.DeleteMoveOk | packvault/storage/cached.py:169-188 | One step of a deletion erases or evicts only keys of its list. |
| ProtocolSafety.AtomicBoundedPublication | packvault/api/routes_maven.py:224-244 | In every run a visible object, under a key that is not the name of a temp file, is the initial one or the whole body of one upload, at most the upload limit long. |
| ProtocolSafety.CacheNeverPartial | packvault/storage/cached.py:190-212 | In every run, with overwrites, deletions and faults, a finished cache file is a whole object and its key is cacheable. |
| ProtocolSafety.FailedChangedNothing | packvault/api/routes_maven.py:224-244 | An upload or download that failed before it published, in its body, on size, on conflict or on storage, published and promoted nothing at any time. |
| ProtocolSafety.ErrorAndLog | packvault/storage/local.py:97-113 | After any reported error but a storage error the operation changed nothing; after a storage error its object is published, whole, exactly when the fault came after the publishing call. |
| ProtocolSafety.StorageErrorMoment | packvault/storage/local.py:97-110 | For every run that ends with a storage error there is the step of the fault, and the operation changed something exactly when it was past its publishing step at that moment. |
| ProtocolSafety.CreatedIsWhole | packvault/api/routes_maven.py:239-260 | An upload answered 201 received its whole body within the limit and published all of it. |
| Answers.FailureHasReason | packvault/api/routes_maven.py:213-244 | In every run: an upload is too large only if its declared length or its body is over the limit, fails in its body only if the body raises, and conflicts only if it may not overwrite; nothing else fails for these reasons, and only reads and single deletions are not found. |
| Answers.CreatedWasAnnounced | packvault/api/routes_maven.py:213-215 | An upload answered 201 declared no more than the limit. |
| Answers.LookingRefuses | packvault/storage/local.py:80-81 | An exclusive upload that looks before it publishes and finds the key stored is refused at once. |
| Answers.FaultEnds | packvault/storage/local.py:106-108 | A storage fault ends an upload or a download with a storage error and changes nothing visible, but for an upload at its cache, where faults do not count. |
| Answers.AbandonedLeavesTemp | packvault/storage/cached.py:262-298 | A client that goes away leaves everything as it is, its temp file included. |
| Answers.DeletionInLog | packvault/storage/local.py:216-227 | In every run, with a cache or without: the deletion of one key that is answered as done has erased its object, and one that is not found has changed nothing. |
| Answers.AnswersHappened | packvault/storage/cached.py:60-188 | In every run, what an answer reports was so at a moment of the operation: a side held what a download sent, and had the announced length; what was not found was missing, or left the cache; a conflicting object was there; each key of a deletion that is done was not stored. |
| WriteOnce.PutKnows | packvault/storage/local.py:80-104 | An exclusive upload publishes only where nothing is stored, and caches only what is stored. |
| WriteOnce.GetKnows | packvault/storage/cached.py:252-298 | A download of a write-once key opens, and caches, only what is stored under it. |
| WriteOnce.RunOnce | packvault/repositories/policy.py:14-16 | The write-once invariant of a key holds after every run whose operations write the key only exclusively and never delete it. |
| WriteOnce.CacheCoherent | packvault/storage/cached.py:60-129 | In every such run, a finished cache file of the key equals the primary's object. |
| WriteOnce.AtMostOneCreated | packvault/api/routes_maven.py:217-244 | However many uploads pass the existence check, at most one is answered 201; none is, if one published and was answered with a storage error. |
| WriteOnce.WinnerStays | packvault/storage/local.py:97-103 | In a run without deletions and overwrites of the key, it holds the winner's whole body from its 201 on. |
| WriteOnce.StoredStays | packvault/storage/local.py:97-103 | From any moment on a stored object stays as it is while no operation that is unfinished then or arrives later deletes or overwrites it; what was before does not matter. |
| WriteOnce.PublishedStays | packvault/storage/local.py:97-103 | In that sense the key holds the winner's whole body from its publishing step on, whatever happened to the key before. |
| WriteOnce.ServedAsAnnounced | packvault/api/routes_maven.py:122-164 | A download that ended normally sent the stored object, and as many bytes as its Content-Length announced, whichever side served it. |
| WriteOnce.SentIsPrefix | packvault/storage/cached.py:271-280 | At every moment the bytes sent are a prefix of the stored object, whatever cache faults happened. |
| Coherence.AlwaysCoherentIff | packvault/repositories/policy.py:9-16 | For every configuration, key and policy: in all runs whose requests respect the policy a finished cache file of the key equals the primary's object, exactly when the key is never cached or the policy allows neither overwrites nor deletions of it. |
| Coherence.OverwriteLeavesStaleFile | packvault/storage/cached.py:252-298 | For any cacheable key, a run without faults in which an overwrite is answered 201, a reader of the old object finishes, and the cache serves the old object. |
| Coherence.DeletionLeavesStaleFile | packvault/storage/cached.py:179-188 | For any cacheable key, a run without faults in which a deletion races a reader and the deleted object stays in the cache. |
| WriteOnce.StoredDespiteError | packvault/storage/local.py:98-110 | A concrete run in which an upload is answered with a storage error and its object is stored. |
| SoloRuns.UploadAnswer | packvault/api/routes_maven.py:213-260 | What an upload answers that runs alone, for any configuration, body and state: the first reason to refuse it decides, and else it is 201; the primary has the body exactly after a 201, and cache faults change neither answer nor primary. |
| SoloRuns.DownloadAnswer | packvault/api/routes_maven.py:122-164 | What a download answers that runs alone: the cached or the stored object, whole and with its own length, or not found; cache faults change only what is cached afterwards. |
| SoloRuns.DeletionAnswer | packvault/storage/local.py:216-227 | With a cache or without, the deletion of one key that runs alone removes exactly a stored object, and finds a missing one missing; a cache fault leaves at most the cached file. |
| SoloRuns.BulkDeletionAnswer | packvault/storage/local.py:204-214 | With a cache or without, the deletion of a list that runs alone removes exactly the listed objects. |
| SoloRuns.UploadIsOneCall | packvault/storage/cached.py:73-129 | However its bytes are cut, an upload of a body within the limit that runs alone ends with the state and the answer of one put of the sequential cached store. |
| SoloRuns.DownloadIsOneCall | packvault/storage/cached.py:60-71 | A download that runs alone sends what one drained read of the sequential cached store answers, and leaves the same cache. |
| SoloRuns.DeletionIsOneCall | packvault/storage/cached.py:179-188 | A deletion of one key that runs alone is one deletion of the sequential cached store, not found included. |
| SoloRuns.BulkDeletionIsOneCall | packvault/storage/cached.py:169-177 | A deletion of any list of keys that runs alone is one bulk deletion of the sequential cached store. |
| SoloRuns.EveryOperationCanFinish | packvault/storage/cached.py:60-188 | At every moment of every run each operation can reach its end by moves of its own, without faults. |
| FileTree.CallKeepsTree | packvault/storage/local.py:77-104 | Each system call of a put or delete keeps files and directories disjoint and everything above a name a directory. |
| FileTree.RunKeepsTree | packvault/storage/local.py:77-113 | So does any interleaving of such calls, and no directory ever goes away. |
| FileTree.StoredKeysPrefixFree | packvault/storage/local.py:77-78 | No stored key is a segment-wise ancestor of another. |
| FileTree.ParentStays | packvault/storage/local.py:77-101 | A put that made its directories finds them when it places its file, whatever runs in between. |
| FileTree.LinkedStays | packvault/storage/local.py:97-103 | A file keeps its content through any calls that do not replace or remove it. |
| FileTree.FileHasNothingBelow | packvault/storage/local.py:143-146 | A prefix that is a file has itself as its only key. |
| FileTree.MissingHasNothingBelow | packvault/storage/local.py:138-139 | A prefix that is neither file nor directory has no keys. |
| Segments.CleanIff | packvault/security/path_validation.py:62-66 | Clean names are those without an empty segment. |
| Segments.UnderIsSegmentwise | packvault/storage/local.py:135-158 | Being at or below a prefix means having the prefix's segments in front; everything is under the root. |
| LocalStore.PutMeans | packvault/storage/local.py:69-113 | In terms of the tree alone: when a put is stored, conflicts or cannot make its directories, and which files and directories there are then. |
| LocalStore.HeadMeans | packvault/storage/local.py:36-49 | In terms of the tree alone: the size exactly of a stored file, an error exactly below a file. |
| LocalStore.PutKeepsTree | packvault/storage/local.py:69-113 | A put, however it ends, keeps the tree invariant. |
| LocalStore.PutIsItsCalls | packvault/storage/local.py:76-104 | An uninterrupted put is exactly its system calls in order, and is stored exactly when all of them succeed. |
| LocalStore.LocalStore.constructor | packvault/storage/local.py:25-26 | The store opens a directory with what it holds. |
| LocalStore.LocalStore.Head | packvault/storage/local.py:36-49 | The size of a stored file, missing otherwise, and an error when something above the key is a file. |
| LocalStore.LocalStore.Get | packvault/storage/local.py:51-67 | The 64 KiB chunks of a stored file, which concatenate to its content. |
| LocalStore.LocalStore.Put | packvault/storage/local.py:69-113 | The answer and the whole new tree for every way a put ends; a body that raises or a failing copy changes no file, and an error of removing the temp file after the link comes with the file stored. |
| LocalStore.LocalStore.Delete | packvault/storage/local.py:216-227 | Removes exactly the file, as its system call does, and reports whether there was one; changes nothing when the removal raises; directories stay. |
| LocalStore.LocalStore.DeleteMany | packvault/storage/local.py:204-214 | Removes exactly the listed files; missing and repeated keys do no harm; a removal that raises stops the loop with exactly the files before it gone. |
| LocalStore.LocalStore.ListPrefix | packvault/storage/local.py:127-160 | For a prefix without a slash at its end: the page of the one sorted list of all keys segment-wise at or under it, behind the resume point. |
| LocalStore.LocalStore.ListPrefixLevel | packvault/storage/local.py:162-202 | The page of the level: child directories and child files in order, a prefix that is a file, or nothing. |
| LocalStore.LocalStore.FilesBelow | packvault/storage/local.py:148-152 | The walk of a directory meets each key under it exactly once. |
| LocalStore.DropUpTo | packvault/storage/local.py:156-157 | The keys beyond the resume point are the sorted list without its first part. |
| TempFiles.TempHasSameAncestors | packvault/storage/local.py:82 | The temp file of an upload lies in the directory of its object. |
| TempFiles.TempSegments | packvault/storage/local.py:82 | The temp file has the segments of its object but for the last, which is .name.<random>.tmp. |
| TempFiles.TempFileIsSeen | packvault/storage/local.py:148-152 | A partial temp file is listed exactly under the prefixes above the key and its own name, and is found by its own name; every other name is stored and listed as without it. |
| TempFiles.TempNameIsPath | packvault/storage/local.py:82 | The name of a temp file is a valid artifact path, unless the file name begins or ends with a dot or the path gets too long. |
| CachePolicy.CacheableIff | packvault/storage/cached.py:190-212 | A key is cacheable exactly when its last segment is not the metadata file and the eight letters of "snapshot" are nowhere in it, each in either case. |
| CachePolicy.CacheableIsFresh | packvault/storage/cached.py:214-232 | The age limits never reject a key that may be cached. |
| CachePolicy.FreshIff | packvault/storage/cached.py:214-232 | A cached file is too old exactly when its key may not be cached and its age is over the limit for its kind. |
| S3Store.LogicalOfFull | packvault/storage/s3.py:32-49 | The logical key of a full key is the key, for keys without a leading slash. |
| S3Store.FullKeyIsBelow | packvault/storage/s3.py:32-38 | The full key is the key behind the configured prefix, and slashes in front of a key do not count. |
| S3Store.FullInjective | packvault/storage/s3.py:32-38 | Different keys have different full keys. |
| S3Store.BatchesPartition | packvault/storage/s3.py:266-269 | The batches of 1000 are the key list in order, and only the last may be short. |
| S3Store.ViewStore | packvault/storage/s3.py:125-176 | Storing an object under a full key changes the logical view at that key and nowhere else. |
| S3Store.ViewRemove | packvault/storage/s3.py:262-286 | Removing the full keys of a list removes exactly its keys from the logical view. |
| S3Store.S3Store.Put | packvault/storage/s3.py:125-176 | The answer and the new contents: a conflict for an exclusive put of a stored key, no effect on failure. |
| S3Store.S3Store.Delete | packvault/storage/s3.py:288-301 | The answer and the new contents, not found included. |
| S3Store.S3Store.DeleteMany | packvault/storage/s3.py:262-286 | Without a failure all keys are sent in order and exactly they go; with one, exactly the batches before it. |
| CacheSpec.ReadMeans | packvault/storage/local.py:58-62 | The bytes of a stream that is abandoned after some chunks of 65536 bytes, and when it counts as read to its end. |
| CacheSpec.AnnouncedIsRead | packvault/storage/cached.py:52-71 | In a coherent state, and unless the cache is in the way, a lookup announces the size of the stored object, cacheable or not, which is what a read to the end returns; what one misses, the other misses. |
| CacheSpec.ReadFills | packvault/storage/cached.py:252-298 | A read that nothing in the cache is in the way of returns the stored bytes, and caches the object exactly if it may be cached and was read to its end. |
| CacheSpec.UploadMeans | packvault/storage/cached.py:73-129 | An upload is stored unless it fails or must not overwrite, and is then cached if its key may be and fits there. |
| CacheSpec.DeletionMeans | packvault/storage/cached.py:179-188 | A deletion takes the key from the primary, and from the cache unless that fails, and nothing else. |
| CacheSpec.StepCoherent | packvault/storage/cached.py:60-129 | Any call without a cache fault keeps every cached file equal to the primary's object. |
| CacheSpec.StepRefines | packvault/storage/cached.py:52-71 | One call has the effect of a plain map on the primary, and its answer, the end of the stream included, exactly unless a cached file or directory blocks it. |
| CacheSpec.RunCoherent | packvault/storage/cached.py:52-188 | Over any sequence of calls the cache stays coherent and the primary is the plain map. |
| CacheSpec.CachedStoreRefinesMap | packvault/storage/cached.py:52-188 | After any sequence of calls, the next call is answered as the plain map answers it, the end of the stream included, exactly unless it is blocked. |
| CacheSpec.PrefixFreeNeverShadows | packvault/storage/cached.py:60-64 | No cached file is in the way of a stored key while no stored key is an ancestor of another. |
| CacheSpec.StoredKeyRefused | packvault/storage/cached.py:60-64 | Without that, a stored key can become unreadable: a concrete case. |
| CacheSpec.DirectoryBlocksForever | packvault/storage/cached.py:257-284 | A key that once is a cache directory stays one through any calls, and every read of it to the end is blocked whenever it is stored. |
| CacheSpec.LeftoverDirectory | packvault/storage/cached.py:257-284 | A concrete case: a read of a missing key below it makes a stored key end in an error after all its bytes. |
| CacheSpec.NeverBlockedIff | packvault/storage/cached.py:52-129 | No call on a set of keys is ever blocked, from an empty cache, over any primary and after any calls on them with any faults, exactly when no cacheable key of the set is an ancestor of another. |
| CacheSpec.PopulationFaultCost | packvault/storage/cached.py:113-125 | After an upload whose cache population failed, the cache is coherent exactly unless it kept another version of the key. |
| CacheSpec.EvictionFaultCost | packvault/storage/cached.py:179-188 | After a deletion whose eviction failed, the cache is coherent exactly when the key was not cached. |
| CacheFaults.StaleIff | packvault/storage/cached.py:105-188 | After any calls with any swallowed cache faults, a key is stale exactly when some call missed it while it was cached, no later call on it reached the cache, and the primary does not hold the cached object now. |
| CacheFaults.StaleWasMissed | packvault/storage/cached.py:113-125 | For a stale key there is the call whose population or eviction failed, with the key cached then and not repaired since. |
| CacheSpec.DeleteManyIsExact | packvault/storage/cached.py:169-177 | After a bulk deletion neither side holds a listed key and every other key is as it was on both sides. |
| CachedStore.CachedStore.Head | packvault/storage/cached.py:52-58 | Answers as the state function says: in a coherent state, and unless a cached file is in the way, the size of exactly the stored objects, cacheable or not. |
| CachedStore.CachedStore.StreamAndCache | packvault/storage/cached.py:252-298 | For any chunks, reader and fault of opening, writing, closing, removing or placing the temp file, which chunks the reader gets, in order, and how its stream ends; faults of opening and writing do not reach the reader; the file is promoted exactly when the stream finished and the temp file holds everything. |
| CachedStore.CachedStore.Get | packvault/storage/cached.py:60-71 | State, answer and the way the stream ends, for drained and abandoned reads; a drained read that nothing is in the way of returns the stored object and caches it if it may. |
| CachedStore.Spool | packvault/storage/cached.py:92-103 | The temp file of an upload holds the whole body, unless the body raises. |
| CachedStore.CachedStore.Populate | packvault/storage/cached.py:113-125 | Copying an upload into the cache, and what is left when the copy fails. |
| CachedStore.CachedStore.Put | packvault/storage/cached.py:73-129 | A body that raises changes nothing; otherwise the answer, the primary and the cache in plain terms, cache faults included; an error of the final clean-up comes with the object stored. |
| CachedStore.CachedStore.Delete | packvault/storage/cached.py:179-188 | Answer, primary and cache after a deletion, with primary and cache faults. |
| CachedStore.CachedStore.DeleteMany | packvault/storage/cached.py:169-177 | Both sides after batches and evictions of which any may fail. |
| KeyWalk.PageSound | packvault/storage/local.py:135-160 | A page is sorted, stored, beyond its resume point, and its token is its last key. |
| KeyWalk.PageComplete | packvault/storage/local.py:156-160 | A page skips no key between its resume point and its token. |
| KeyWalk.WalkSorted | packvault/ui/artifacts.py:246-261 | Whatever happens to the store between pages, a walk is strictly increasing. |
| KeyWalk.WalkSound | packvault/ui/artifacts.py:246-261 | Every collected key was stored under the prefix when one of the pages was read. |
| KeyWalk.WalkMissesNothing | packvault/ui/artifacts.py:246-261 | A walk that ended on a missing token has every key that was there at all of its page reads. |
| KeyWalk.PagingOverChangingStore | packvault/ui/artifacts.py:238-261 | Both together, for a walk from the start. |
| KeyWalk.PagingFixedStore | packvault/ui/artifacts.py:246-261 | On a fixed store the walk returns exactly the first 50000 sorted keys, and ends by itself exactly when there are no more. |
| KeyWalk.ListKeysUnderPrefix | packvault/ui/artifacts.py:238-261 | The loop over pages, each read from the store as it is at that time, collects what the walk collects. |
| UiListing.HiddenIff | packvault/ui/artifacts.py:63-70 | Exactly what is hidden: the metadata file and the endings .asc, .md5, .sha1, .sha256 and .sha512, in any case. |
| UiListing.ScanItems | packvault/ui/artifacts.py:318-346 | A call shows exactly the visible keys that it looked at; a full page has its size, and one that is not full used up its budget or the keys. |
| UiListing.ChainIsOrderedPrefix | packvault/ui/artifacts.py:298-352 | The calls together list an ordered part of the visible keys from the first on, and all of them exactly when no visible key is left where they stop. |
| UiListing.ChainReachesEndIff | packvault/ui/artifacts.py:305-352 | The calls reach the last key exactly when from every cursor at most 2000 keys remain or the next 2000 hold a full page of visible ones. |
| UiListing.CursorResumes | packvault/ui/artifacts.py:330-343 | A cursor resumes just behind the key that it names. |
| UiListing.TakePage | packvault/ui/artifacts.py:318-346 | The inner loop continues the scan over one storage page and stops where the list is full. |
| UiListing.ListArtifactsForUi | packvault/ui/artifacts.py:287-352 | The whole call: its error cases, or the list, cursor and flag of the scan from its resume point. |
| UiListing.AnswerMeans | packvault/ui/artifacts.py:287-352 | When there is an error; and every item is a stored key of the repository at or under the path, with its path in the repository, and not hidden unless everything is asked for. |
| UiListing.ListMeans | packvault/ui/artifacts.py:305-352 | A list has visible keys in order from its resume point on; it promises more exactly when it has a cursor, is then full, and the cursor is its last key with keys beyond; else it has all of them, or too few among the next 2000 keys. |
| UiListing.CursorsListVisibleKeys | packvault/ui/artifacts.py:287-352 | Following the cursors on a fixed store lists visible keys in order, each once, from the first on, and all of them when every call can finish or fill its page. |
| DirectoryPage.StartIndex | packvault/storage/prefix_listing.py:57-64 | The search finds the first entry beyond the cursor. |
| DirectoryPage.MergeDirectoryPage | packvault/storage/prefix_listing.py:44-82 | The page, cursor and flag for any lists, page size and cursor, an exhausted cursor included. |
| DirectoryPage.TakeMeans | packvault/storage/prefix_listing.py:67 | The page size as a slice: the first entries, or for a negative size all but the last ones. |
| DirectoryPage.OnePage | packvault/storage/prefix_listing.py:67-82 | A page of a sorted level holds its next entries, and has a cursor, which leads just behind them, exactly when entries remain. |
| DirectoryPage.CursorPagingIsExact | packvault/storage/prefix_listing.py:44-82 | Following the cursors ends and returns every entry exactly once, directories before files; all pages but the last are full, and exactly the last has no more. |
| DirectoryWalk.ResumeMeans | packvault/storage/prefix_listing.py:57-64 | A cursor leads to the first entry whose text is beyond it, also when its own entry is gone. |
| DirectoryWalk.PagingOverChangingLevel | packvault/storage/prefix_listing.py:44-82 | While the directory changes between the pages, no entry is listed twice, directories come before files, and a walk that ends has every entry that was there at all of its page reads. |
| DirectoryLevel.ChildIsSegmentwise | packvault/storage/local.py:183-187 | A child of a directory is what has its segments and one more. |
| DirectoryLevel.SplitImmediateChildren | packvault/storage/prefix_listing.py:13-41 | The sorted set of child names and the sorted keys at the level. |
| DirectoryLevel.PlaceFacts | packvault/storage/prefix_listing.py:22-39 | A clean key is at the level exactly when it is the prefix or a child of it, and in a child directory exactly when that is above it. |
| DirectoryLevel.FlatDirectories | packvault/storage/prefix_listing.py:35-37 | Grouping flat keys finds exactly the child directories that have files. |
| DirectoryLevel.FlatFiles | packvault/storage/prefix_listing.py:38-41 | Grouping flat keys finds exactly the files of the level. |
| DirectoryLevel.LevelOfFile | packvault/storage/local.py:169-178 | The level of a prefix that is a file is one page with the file, that of a missing one is nothing. |
| DirectoryLevel.TreeViewAgreesWithKeys | packvault/storage/local.py:162-202 | All pages of a level together have the files of the flat grouping, also for a prefix that is a file or missing, and its directories exactly when every child directory has files; else more. |
| PackageActions.NormalizeCanonical | packvault/ui/artifacts.py:73-77 | A canonical path, with or without a slash at an end, is normalised to itself. |
| PackageActions.NormalizeAround | packvault/ui/artifacts.py:73-77 | White space around a plain path and slashes at its ends do not count. |
| PackageActions.NothingIff | packvault/ui/artifacts.py:73-77 | Exactly white space around slashes normalises to nothing. |
| PackageActions.NoPrefixRefused | packvault/ui/package_actions.py:46-48 | A prefix that is no path, or nothing, is refused, and nothing is deleted: the repository root cannot be deleted. |
| PackageActions.DeleteArtifactPrefix | packvault/ui/package_actions.py:40-56 | Outcome and new tree of a prefix deletion; one that is refused or normalises to nothing changes nothing; every key that goes lies below the repository; a removal that raises is answered as unavailable, with exactly the keys before it gone. |
| PackageActions.DeleteUnderPrefix | packvault/ui/artifacts.py:264-284 | The same, and the reported count is the drop in stored files. |
| PackageActions.DeleteArtifactVersion | packvault/ui/package_actions.py:59-75 | Outcome and new tree of a version deletion, also when a removal raises part-way; refused without effect when path or version is refused or both are nothing; every key that goes lies below the repository. |
| PackageActions.DeleteArtifactVersions | packvault/ui/package_actions.py:78-109 | Outcome and new tree of the loop over versions: missing ones are skipped; a refused one, or a removal that raises, stops it; without versions or with a refused path nothing changes; every key that goes lies below the repository. |
| PackageActions.PrefixDeletionIsExact | packvault/ui/package_actions.py:40-56 | Exactly the first 50000 keys under the prefix go, each counted once; keys elsewhere keep their content; nothing is left under the prefix exactly when there were no more. |
| PackageActions.VersionScope | packvault/ui/package_actions.py:66-75 | For all paths and versions that normalise, what one deletion is about: artifact and version, or only one of them when the other normalises to nothing. |
| PackageActions.TooLongIsRefused | packvault/ui/package_actions.py:66-75 | An artifact and a version that together are longer than a path may be are refused, and nothing is deleted. |
| PackageActions.EmptyVersionTakesArtifact | packvault/ui/package_actions.py:66-75 | Deleting the empty version deletes the whole artifact, for a path of any valid length. |
| PackageActions.DeleteVersionsIsExact | packvault/ui/package_actions.py:78-109 | With at most 50000 keys per version, deleting versions removes precisely the keys under the selected ones, reports each once, and the count is the drop in stored keys. |
| PackageActions.ChosenIff | packvault/ui/package_actions.py:91-101 | A key is among the chosen ones exactly when it is stored under one of the selected versions. |
| PackageActions.SelectionIsASet | packvault/ui/package_actions.py:91-101 | Repeating or reordering versions, or adding ones without files, changes nothing. |
| PackageActions.VersionKeysSegmentwise | packvault/ui/package_actions.py:70-75 | The keys under a version are those with the segments of repository, artifact and version in front, so 1.0 does not touch 1.0.1. |
| PackageActions.RefusedAfterDeleting | packvault/ui/package_actions.py:91-101 | A refused version is answered with an error after exactly the versions before it were deleted. |
| PackageActions.InterruptedVersions | packvault/ui/package_actions.py:91-101 | When a removal raises, the answer is unavailable, the keys of the versions before are gone, and of its own version exactly the remaining keys before it. |
| Packages.SortKeepsOrder | packvault/ui/packages.py:226 | Sorting by name orders the summaries and keeps one per package. |
| Packages.GroupPaths | packvault/ui/packages.py:197-207 | The two dictionaries hold each package's versions and the group path of its last file. |
| Packages.BuildPackageSummaries | packvault/ui/packages.py:191-226 | One summary per package, in the order of groupId:artifactId, with exactly its versions, their number and the last of them. |
| PackageDetails.CollectFiles | packvault/ui/packages.py:252-264 | The dictionary holds each version of the package with its file names. |
| PackageDetails.BuildPackageDetail | packvault/ui/packages.py:229-286 | A detail exists exactly when the path has two parts and the package has files, and lists its versions downwards with their sorted files. |
| PackageAgreement.VisibleIff | packvault/ui/packages.py:145-173 | A canonical path is a package file exactly when it has four segments or more and the last ends in .jar or .pom; the segments before it are version and artifact, and those in front the group. |
| PackageAgreement.TargetIff | packvault/ui/packages.py:242-250 | An artifact path names a package exactly when it has two segments: the last is the artifact, those before it the group. |
| PackageAgreement.GroupPathIsLast | packvault/ui/packages.py:207 | The group path of a package is that of the last of its paths. |
| PackageAgreement.PackageFilesAreListed | packvault/ui/artifacts.py:63-70 | The flat listing never hides a file of a package. |
| PackageAgreement.VisiblePath | packvault/ui/packages.py:170-188 | A package file is group path, artifact, version and file name joined, and its group identifier is its group path with dots. |
| PackageAgreement.DotFreeNoClash | packvault/ui/packages.py:177-178 | Without dots in group segments, group identifiers stand for group paths. |
| PackageAgreement.DetailExists | packvault/ui/packages.py:229-286 | The artifact path of a summary leads to a detail. |
| PackageAgreement.SummaryAndDetailAgree | packvault/ui/packages.py:191-286 | Without clash, summary and detail have the same package, versions and count, and the same list and latest version when the versions are tame and have no ties. |
| PackageAgreement.FileHasSlot | packvault/ui/packages.py:263-277 | A file of the package is in the slot of its version and name, as version path and file. |
| PackageAgreement.SlotIsFile | packvault/ui/packages.py:263-277 | What a slot shows is a visible file of the package. |
| PackageAgreement.OneSlotPerFile | packvault/ui/packages.py:191-286 | No file is in two slots of all the details. |
| PackageAgreement.ShownIff | packvault/ui/packages.py:261-277 | The details that the summaries lead to show a path exactly when it is a package file at the place of one of the summaries. |
| PackageAgreement.FilesConservedIff | packvault/ui/packages.py:198-207 | Every visible file is in a detail that a summary leads to exactly when no two group paths share a group identifier and artifact. |
| PackageAgreement.EveryFileOnceIff | packvault/ui/packages.py:191-286 | The details show nothing but package files, and each of them in exactly one package, version and file slot just when no two group paths share a group identifier and artifact. |
| Versions.CollectParts | packvault/ui/packages.py:323-335 | The loop over the pieces yields the version's parts. |
| Versions.SeparatedParts | packvault/ui/packages.py:324 | Dot, dash and underscore all separate the parts before them from those behind them. |
| Versions.PlainPiece | packvault/ui/packages.py:327-333 | A piece without separators is one part: its number if it has only digits, else its lower-case word. |
| Versions.PartsMeaning | packvault/ui/packages.py:323-335 | A separator puts the parts before it in front of those behind it, an empty piece is no part, and a version without pieces is its own only part. |
| Versions.CompareByFirstDifference | packvault/ui/packages.py:300-320 | For all versions: the first part that differs decides, two numbers by value and all else by text, and the first parts of a version come before it. |
| Versions.ExtensionIsLater | packvault/ui/packages.py:317-320 | A version comes before itself with more parts: 1 before 1.1. |
| Strings.LessIff | packvault/ui/packages.py:312-315 | Text is ordered by the first position at which it differs, a beginning before the whole. |
| Versions.CompareAntisymmetric | packvault/ui/packages.py:300-320 | For all versions, swapping the operands negates the comparison. |
| Versions.CompareZeroIff | packvault/ui/packages.py:300-320 | For all versions, the comparison is zero exactly for equal parts. |
| Versions.CompareTransitive | packvault/ui/packages.py:300-320 | On tame versions the comparison is transitive, and equal only through equals. |
| Versions.LetterFirstIsTame | packvault/ui/packages.py:327-333 | Versions whose parts are numbers or begin with a letter are tame. |
| Versions.SandwichedIff | packvault/ui/packages.py:307-315 | Exactly the prone words stand behind a larger number and before a smaller one. |
| Versions.TransitiveIff | packvault/ui/packages.py:300-320 | The comparison is transitive on the versions made of numbers and some words exactly when none of the words is prone; a word may also be nothing but separators. |
| Versions.NineTenOneA | packvault/ui/packages.py:300-320 | The concrete cycle 9, 10, 1a. |
| Decimal.ValueOfStr | packvault/ui/packages.py:312-331 | Reading a number's decimal text gives the number. |
| Decimal.LeadingZero | packvault/ui/packages.py:330-331 | A zero in front of a number does not count. |
| Decimal.StrOfValue | packvault/ui/packages.py:312-331 | Writing the value of a numeral without a leading zero gives the numeral. |
| VersionOrder.SortMavenVersions | packvault/ui/packages.py:289-297 | Each version once, and in order when all are tame. |
| VersionOrder.LastIsMaximum | packvault/ui/packages.py:212 | The last of a sorted list is a maximum. |
| VersionOrder.SortedIsUnique | packvault/ui/packages.py:289-297 | Without ties the sorted list does not depend on the input order or on how it is sorted. |
| PathValidation.AcceptedIff | packvault/security/path_validation.py:31-77 | Character by character: a path is accepted as itself exactly when it has 1 to 2048 letters, digits, dots, underscores, hyphens and slashes, no slash at an end, no two slashes or dots in a row, and no segment that is a dot. |
| PathValidation.AcceptedIsPlain | packvault/security/path_validation.py:31-77 | Whatever is accepted comes out like that. |
| PathValidation.ValidateIff | packvault/security/path_validation.py:31-77 | A path is accepted exactly when it is short enough and its percent-decoding, without slashes at the end, is canonical; that is the result. |
| PathValidation.ValidateIdempotent | packvault/security/path_validation.py:31-77 | What comes out is canonical and is accepted as it is. |
| PathValidation.EveryEncodingAccepted | packvault/security/path_validation.py:37-40 | Each character may stand for itself or for its two hexadecimal digits in either case (section 2.1 of RFC 3986); every such encoding of at most 2048 characters is accepted as the path. |
| PathValidation.EncodingIrrelevant | packvault/security/path_validation.py:37-40 | Every percent-encoding of a canonical path (section 2.1 of RFC 3986) is accepted as that path. |
| PathValidation.UnquoteEncoded | packvault/security/path_validation.py:37 | Decoding undoes percent-encoding. |
| PathValidation.EncodedAccepted | packvault/security/path_validation.py:34-40 | A canonical path encoded in full is accepted exactly when the encoding is not too long. |
| PathValidation.DotsLeave | packvault/storage/local.py:28-34 | Two dots would go up, and out of the root. |
| PathValidation.KeyStaysBelowRoot | packvault/maven/paths.py:26-27 | A storage key is a clean name, resolves to its own segments without leaving the root, and is below its repository. |
| PathValidation.StorageKeyInjective | packvault/maven/paths.py:26-27 | Different requests have different storage keys. |
| PathValidation.ArtifactPathRoundTrip | packvault/ui/artifacts.py:86-90 | The artifact path comes back out of its storage key. |
| PathValidation.FromKeyIff | packvault/ui/artifacts.py:86-90 | A path comes out of a key exactly when the key is the path in the repository. |
| PathValidation.ParsedIff | packvault/maven/paths.py:19-48 | Exactly which requests are parsed, and to what; an unknown repository is told from a name that cannot be one. |
| PathValidation.ParsedRequest | packvault/maven/paths.py:30-48 | A parsed request has a known repository, a canonical path and a key below its repository, and parsing its own path gives it again. |
| Breadcrumbs.LeadingStep | packvault/ui/artifacts.py:93-102 | Joining the next segment to a leading path is accepted and gives the next leading path, whose parent is the one before. |
| Breadcrumbs.BreadcrumbsFormChain | packvault/ui/artifacts.py:99-116 | The breadcrumbs are canonical, each is the parent of the next, the first has none, and the last is the path. |
| Breadcrumbs.BreadcrumbSegments | packvault/ui/artifacts.py:105-116 | For a canonical path the loop returns its segments with its leading paths; for any path, each crumb behind a nonempty one is canonical. |
| RateLimit.FixedWindowRateLimiter.constructor | packvault/security/rate_limit.py:10-14 | No windows at first. |
| RateLimit.FixedWindowRateLimiter.Allow | packvault/security/rate_limit.py:16-30 | The answer and all windows afterwards, for any time of the call, in plain terms. |
| RateLimit.KeysAreIndependent | packvault/security/rate_limit.py:19-30 | The window of a key, and so its next answer, depends only on the requests of that key. |
| RateLimit.FewRecentAdmitted | packvault/security/rate_limit.py:16-30 | With a nondecreasing clock, a request is admitted whenever fewer than the maximum came within the last window length, admitted or not. |
| RateLimit.WindowsInAnyOrder | packvault/security/rate_limit.py:17-30 | In every lock order and with stale times, window starts are at least a window apart, no window admits too many, and the windows account for every admitted request. |
| RateLimit.SlidingBound | packvault/security/rate_limit.py:16-30 | With a nondecreasing clock, any half-open interval of k window lengths admits at most k + 1 times the maximum. |
| RateLimit.RetryIff | packvault/security/rate_limit.py:16-34 | For any times, a retry without other requests in between is admitted exactly when the full window is over by then. |
| RateLimit.RetryAdviceIff | packvault/security/rate_limit.py:32-34 | With a nondecreasing clock, and without another request of the key in between, a rejected request is always admitted after the advised time exactly for windows of at most a second or of whole seconds. |
| RateLimit.StaleAdviceFails | packvault/security/rate_limit.py:17-34 | With stale times there is, for any limits, a rejected request whose retry after the advised time is rejected again. |
| Basics.ChunkSizes | packvault/storage/local.py:58-62 | All chunks but the last have 65536 bytes, and none is empty. |
| Basics.ReadChunks | packvault/storage/local.py:58-62 | Reading in chunks yields the whole content in order. |

## Left out

- HTTP routing, authentication, tokens, hashing, encryption, settings, logging, metrics and health probes: no deep state.
- Declared Content-Length: how the header is parsed; the model has the parsed number or none.
- The object store's own behaviour: multipart upload, conditional requests, metadata, and its listings, which match raw string prefixes; the scope of deletions is stated for the local store.
- `list_artifact_directory`: the names, links and level labels that it adds to a page of a directory level.
- `delete_artifact_file` and `delete_artifact_package`: one call each of an operation that is modelled.
- Cursors of the flat listing as text: the model has the pair that they encode, without the older form that is a bare key.
- ETags and content types: the cache drops them.
- Symbolic links, crashes, and collisions of random temp names.
- Changes by another process to the same cache directory.
- Timsort: versions that are not tame are sorted by stable insertion, which may order them differently; no claim is made about their order.
- KeyWalk.ListKeysUnderPrefix: the store does not change while one page is read, because a page is read in one step.
- CachedStore.CachedStore.Get: has no I/O fault of its own; faults while streaming are in `StreamAndCache` and in the protocol.
- LocalStore.LocalStore.Get: the file does not vanish or fail while it is read; the protocol has such faults.
- LocalStore.LocalStore.ListPrefix: takes a prefix without a slash at its end, as callers build it; the source would resolve such a slash away.
- LocalStore.LocalStore.ListPrefixLevel: the scan of the directory does not raise, which would be the only answer.
- S3Store.S3Store.Put: the body is the spooled file, so it does not raise; a raising body is in `CachedStore.Spool` and in the protocol.
- S3Store.S3Store.DeleteMany: a failing batch deletes nothing, although a bucket may delete a part of it.
