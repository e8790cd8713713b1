# crate-html: storage, token and publishing model

crate-html hosts static sites behind a small daemon. This project models the
parts of it that hold state and make promises across several operations, and
proves those promises for every input, every run and every reachable state.

- **Publish protocol** (`Publish`, `PublishSafety`, `PublishRuns`,
  `PublishTheorems`, `PublishOrigins`, `PublishVisibility`, `PublishReaping`,
  `PublishProgress`, `PublishWitnesses`):
  the object-storage backend as a transition system. Processes and their request
  threads share one bucket; every bucket request is one step; a thread or a
  process may stop after any step, and requests may fail. Readers work from an
  aging metadata map, read piecemeal, and a version-keyed cache. `Names` holds
  the text of the bucket keys.
- **Tokens** (`Tokens`, `TokenRuns`, `Replicas`): the token set with its rollback
  and throttled touches, whole runs of it, and replicas that share one document
  through conditional writes (sections 13.1.1, 13.1.2 and 15.5.13 of RFC 9110).
- **Archives** (`Paths`, `Archives`, `MemFs`, `Extract`, `Walk`): path cleaning,
  the in-memory tree built entry by entry, extraction to disk, the size cap with
  its 64-bit limiter, and the round trip from a directory tree.
- **Stores** (`Cache`, `Backend`, `SiteDirs`, `LocalStore`, `S3Store`,
  `Agreement`, `Lifetimes`): the byte-budget cache; one simple map from names to
  trees; the local store with its staging, renames and rollbacks; the object
  store as a single process uses it; both driven through the same runs; and what
  callers see of a site over its lifetime.
- **Index** (`Index`, `Routes`): hiding, grouping and dispatch, and where the
  links of the index lead. `Results`, `Texts` and `Ordering` are shared helpers.

Code that updates things in place is modelled by classes, arrays and loops, each
proved against a specification function; protocols are transition systems over
values. `dafny verify dfyconfig.toml` checks everything.

## Assumptions

- Version names are fresh; a single PUT, GET or DELETE is atomic; a request
  reported as failed had no effect; one listing of the metadata prefix is one
  step. Without the third, the cleanup at internal/s3store/s3store.go:484 could
  remove live content.
- The server honours conditional writes, and one entity tag never stands for two
  documents.
- Where token acceptance is concerned, the hash is injective and secrets are
  drawn once; ids and secrets are non-empty hexadecimal text.
- Removing a directory tree is one step. Renaming a directory fails whenever the
  new name is that of an existing directory, as os.Rename does. Rollback removals
  and renames succeed.
- Clocks, random draws and file-system or network failures are parameters.

## Where a promise needs a condition

- "A process sees its own writes" holds exactly if no refresh overlapped the push
  (`OwnWriteVisibleExactly`).
- "No lost update" holds while a replica that met a conflict saves nothing until
  it is rebuilt (`NoLostToken`); the code itself clears its observation and lets
  the next Save through. `LossExact` says exactly when a token is then lost.
- Order independence of the files' bytes needs entries of one name to agree;
  `OrderMatters` gives the other direction.
- At the largest cap, 2^63-1, the limiter's argument wraps to a negative number
  and every file is read as empty (`CopyCount`, `RoundTripExact`).
- docs/design.md:61 shows the backup directory with a leading dot; the code
  (internal/storage/storage.go:361) has none, so a backup can bear the name of a
  site. Then the push is refused and nothing is changed
  (`LocalStore.Store.Replace`); `Agreement.Pair.Replace` states that this is the
  only thing that sets the two backends apart on regular archives.
- A replica that is not rebuilt goes on accepting a token another replica has
  revoked (`StaleReplicaAccepts`), because the token set is loaded once.
- Archiving a symbolic link to a directory writes nothing, because the test of the
  source follows the link and the walk does not (`LinkRoundTrip`).
- Sites named "api", and headers over sites named "api.something", have links
  that are not found, because every path below /api/ is.

## Model

| member | source | states |
|---|---|---|
| `PublishRuns.StepKeepsInv` | internal/s3store/s3store.go:226-583 | every step of every process - booting, crashing, a thread stopping, each bucket request, each local update, each failure - keeps the protocol invariant, for one serialized mutator beside any readers and for any number of unserialized pushers |
| `PublishRuns.RunInv` | internal/s3store/s3store.go:226-583 | the invariant holds in every reachable state of every run |
| `PublishTheorems.BucketIsSafe` | internal/s3store/s3store.go:432-497 | in every reachable state each metadata object names an existing content object holding exactly the archive published under that version; its file count is that of the tree and its size the bytes of all file entries, which with distinct names are the bytes of the tree |
| `PublishTheorems.MetadataIsOfOnePush` | internal/s3store/s3store.go:462-482 | the metadata of a site in any reachable state is that of one earlier push of the run: its name, version, deadline and archive |
| `PublishProgress.PushCompletes` | internal/s3store/s3store.go:432-497 | a push that nothing disturbs ends with its metadata live and telling its archive, its content stored, the superseded content collected, its process aware of it and its tree offered to the cache; nothing else changes |
| `PublishProgress.OpenCompletes` | internal/s3store/s3store.go:384-418 | an open that nothing disturbs returns the tree of the live version; of a site without metadata nothing |
| `PublishProgress.OpenToEnd` | internal/s3store/s3store.go:395-417 | a cache hit is served without the bucket; anything else is fetched, expanded and offered to the cache |
| `PublishProgress.DeleteCompletes` | internal/s3store/s3store.go:529-556 | a delete that nothing disturbs leaves neither metadata nor content of the site, and touches no other |
| `PublishProgress.ReapCompletes` | internal/s3store/s3store.go:559-583 | a reaping that nothing disturbs removes exactly the sites whose deadline is at or before its time, with all their content |
| `PublishProgress.RefreshAll` | internal/s3store/s3store.go:244-302 | a refresh that nobody interferes with reads exactly the metadata of the bucket |
| `PublishProgress.FailedCommitCleansUp` | internal/s3store/s3store.go:480-487 | a push whose commit fails takes back its content and leaves the metadata alone |
| `PublishProgress.CrashExact` | internal/s3store/s3store.go:432-497 | a process may stop at any time: its local state, threads and lock go, and the bucket stays |
| `PublishProgress.BootExact` | internal/s3store/s3store.go:204-211 | a process starts knowing nothing |
| `PublishProgress.AbortExact` | internal/s3store/s3store.go:432-497 | a request may stop at any time, and nothing changes but that it is gone |
| `PublishProgress.StartsExactly` | internal/server/server.go:484-487 | mutations start one at a time where they are serialized, and a push only with an acceptable archive |
| `PublishProgress.LookupExact` | internal/s3store/s3store.go:226-239 | a lookup may use the map in memory whenever there is one; a failed lookup lets a push go on without a previous version |
| `PublishTheorems.OpenReturnsOneArchive` | internal/s3store/s3store.go:384-418 | whatever interleaves, a successful Open returns the complete tree of one archive committed for that name; its metadata stood in the bucket at some moment since the refresh behind it began or, only among unserialized pushers, is an own commit folded into that map since it was installed |
| `PublishOrigins.FoldedSinceInstall` | internal/s3store/s3store.go:512-519 | a version counts as folded in only because applyLocal of that process put it there, with no restart and no install since |
| `PublishOrigins.OwnCommitIsLater` | internal/s3store/s3store.go:321-328 | the own commit a reader may see was folded in before its lookup and after the map it looked it up in was installed |
| `PublishTheorems.MetasChange` | internal/s3store/s3store.go:475-556 | a commit and the first request of a delete are the only steps that touch metadata, and what each does to it |
| `PublishTheorems.SupersededStaysDead` | internal/s3store/s3store.go:490-496 | a version that was committed and is no longer live never becomes live again, so collecting it is safe |
| `PublishTheorems.LocalChange` | internal/s3store/s3store.go:292-295 | the local map changes only by an install, an own commit folded in, or an own delete taken out |
| `PublishVisibility.OwnWriteStaysVisible` | internal/s3store/s3store.go:512-519 | a serialized broker sees its own push from applyLocal on, until the site is replaced or deleted or the process dies, provided no refresh overlapped the push |
| `PublishVisibility.OwnWriteVisibleExactly` | internal/s3store/s3store.go:510-519 | after applyLocal no continuation that leaves the metadata alone hides the push, exactly if no refresh overlapped it |
| `PublishVisibility.OverlapCanHide` | internal/s3store/s3store.go:292-295 | a refresh that has passed a name by can always complete and put its older reading into the map, the bucket unchanged |
| `PublishWitnesses.OverlappingRefreshHidesOwnWrite` | internal/s3store/s3store.go:510-519 | a nine-step run in which a process no longer knows the site it has just published |
| `PublishWitnesses.UnserializedDeleteBreaksPush` | internal/s3store/s3store.go:546-555 | without the mutation lock a sweep removes content a concurrent push has stored and not yet committed, and the commit then names a missing object |
| `PublishRuns.SweepKeepsInv` | internal/s3store/s3store.go:546-556 | a sweep under the lock, interrupted anywhere, removes nothing that is live or about to be |
| `PublishReaping.ReaperRemovesOnlyDue` | internal/server/server.go:523-529 | in every run of a serialized broker, beside any readers and their refreshes, the metadata a reaper removes has a deadline at or before the time it reaps for |
| `PublishReaping.RunReaps` | internal/s3store/s3store.go:559-583 | in every reachable state all a reaper may yet delete is due, and what it has read is what the bucket holds |
| `PublishRuns.CommitKeepsInv` | internal/s3store/s3store.go:478-489 | overwriting the metadata keeps every process, thread and object consistent |
| `PublishRuns.InstallKeepsInv` | internal/s3store/s3store.go:274-301 | installing a map read piecemeal, while others write, keeps every entry one that was committed and stood in the bucket since the refresh began |
| `Names.SweepStaysInSite` | internal/s3store/s3store.go:213-220 | the sweep prefix of one site is a prefix of a content key exactly when the key is of that site |
| `Names.MetadataIsApart` | internal/s3store/s3store.go:213-220 | no sweep prefix matches a metadata key |
| `Names.KeysAreInjective` | internal/s3store/s3store.go:213-220 | distinct sites and versions have distinct keys |
| `Names.KeyTexts` | internal/s3store/s3store.go:213-220 | the text of the keys |
| `Names.NamePattern` | internal/storage/storage.go:40-65 | site names are what ^[a-z0-9][a-z0-9._-]{0,62}$ matches |
| `Replicas.Document.Load` | internal/s3store/document.go:53-84 | returns the stored document, or none, and remembers the tag it saw; a failed read returns an error and remembers nothing new |
| `Replicas.Document.Save` | internal/s3store/document.go:88-121 | unless the request fails, a save succeeds when the object is still what the handle observed or the handle observes nothing, and conflicts otherwise; the object and the handle after success, conflict and failure |
| `Replicas.RunInv` | internal/s3store/document.go:53-121 | in every run a replica that still has an observation knows exactly the document its tag stands for |
| `Replicas.SaveReplacesBase` | internal/s3store/document.go:88-115 | each successful Save replaces exactly what its replica last read or wrote |
| `Replicas.SaveExact` | internal/s3store/document.go:88-115 | in every run a save succeeds exactly if the request does not fail and nobody else has written since the replica's last observation |
| `Replicas.AloneStaysCurrent` | internal/s3store/document.go:88-121 | a replica that is up to date stays so through its own operations, and each of its saves takes effect |
| `Replicas.RebuiltIsCurrent` | internal/token/token.go:127-147 | a rebuilt replica is up to date and holds what the document holds |
| `Replicas.AttemptDrops` | internal/token/token.go:223-260 | the document an operation tries to store lacks a stored token - its record up to last_used_at - only if the operation revokes that token |
| `Replicas.NoLostToken` | internal/token/token.go:303-309 | over every run of any number of replicas in which a replica that met a conflict saves nothing until rebuilt, a stored token, with its id, name, hash and deadline, disappears only through a saved Revoke of it |
| `Replicas.LossExact` | internal/s3store/document.go:94-115 | a Save loses an unrevoked token exactly when its replica has met a conflict since it last observed the document, does not hold that token and is not minting it |
| `Replicas.EntersOnlyByCreate` | internal/token/token.go:151-190 | in the same runs a token enters the document only through a saved Create that mints it |
| `Replicas.RevokeTakesOut` | internal/token/token.go:223-260 | a saved Revoke takes its token out of the document |
| `Replicas.RevokedNeverReturns` | internal/s3store/document.go:88-115 | in the same runs, with fresh secrets, a token never returns to the document once its Revoke is saved |
| `Replicas.ReturnExact` | internal/s3store/document.go:94-115 | a Save brings back an unminted token exactly when its replica has met a conflict, still holds it and does not revoke it |
| `Replicas.StaleReplicaAccepts` | internal/token/token.go:127-147 | in every run a replica goes on accepting what it accepts until it is rebuilt or itself saves a Revoke of it, whatever others revoke |
| `Replicas.RetryAfterConflictLosesToken` | internal/s3store/document.go:94-115 | for any two ids, equal or not, a five-step run without any Revoke in which retrying after a conflict overwrites another replica's token |
| `Tokens.FileStore.Save` | internal/token/token.go:99-108 | the stored document is the new one after success and the old one after any failure |
| `Tokens.LoadFrom` | internal/token/token.go:127-147 | the records and known touch times are those of the stored document; a read or parse error gives no store |
| `Tokens.Store.FreshId` | internal/token/token.go:192-211 | the first of ten draws that no record has, or none |
| `Tokens.FreshExact` | internal/token/token.go:192-211 | the first of the draws that no record has, if there is one |
| `Tokens.NamePattern` | internal/token/token.go:47-56 | token names are what ^[a-z0-9]([a-z0-9._-]{0,62}[a-z0-9])?$ matches |
| `Tokens.Store.Create` | internal/token/token.go:151-190 | succeeds exactly if the name is valid and free, some draw is fresh and the save works; then the new record, with its name, hash, creation time and lifetime from now, is last in memory and document, and the plaintext is crate_<id>_<secret>; otherwise nothing changes |
| `Tokens.Store.Revoke` | internal/token/token.go:223-260 | removes exactly the first record of that id, or of that name when no record has that id; not found exactly when neither matches; a failed save changes nothing |
| `Tokens.Store.Verify` | internal/token/token.go:266-301 | who is accepted; the use is recorded in memory at that time, and in the document exactly if the last saved use is a minute old and the save works |
| `Tokens.ParseExact` | internal/token/token.go:266-281 | a bearer value parses to an id and a secret exactly when it is what Create formats from them |
| `TokenRuns.RunKeepsInv` | internal/token/token.go:151-301 | whichever saves fail, memory and document agree up to last_used_at after every operation of every run, and ids and names stay pairwise distinct |
| `TokenRuns.WithoutKeeps` | internal/token/token.go:248-252 | removing a record removes exactly one id and keeps the rest |
| `TokenRuns.VerifyAcceptsExactly` | internal/token/token.go:266-301 | after every run a bearer value is accepted exactly when it is the plaintext of a mint whose record lives, up to and including its expiry |
| `TokenRuns.LeavesExactlyByRevoke` | internal/token/token.go:223-260 | a live mint leaves exactly by a saved Revoke naming its id, or its name when no live id is that text |
| `TokenRuns.RevokeRemoves` | internal/token/token.go:223-260 | such a Revoke takes the secret out of use |
| `TokenRuns.LiveUntilRevoked` | internal/token/token.go:151-260 | over every run, what a Create minted is live exactly until a later Revoke of it is saved |
| `TokenRuns.LifeCycle` | internal/token/token.go:151-301 | after every run, the plaintext a Create handed out is accepted exactly while its lifetime, counted from the Create, has not passed and no later Revoke of it has been saved |
| `TokenRuns.NeverBack` | internal/token/token.go:151-190 | once gone, a secret never comes back |
| `TokenRuns.RevokedStaysRefused` | internal/token/token.go:223-301 | once a Revoke of a live token is saved, its secret is refused at every later point, under any id and at any time |
| `TokenRuns.TouchesApart` | internal/token/token.go:290-297 | two touch writes of one living token are at least touchInterval apart, through other saves and restarts |
| `TokenRuns.StoredUseLags` | internal/token/token.go:284-301 | if no touch write failed, the stored last_used_at lags memory by less than touchInterval |
| `Texts.CutFormat` | internal/token/token.go:267-274 | cutting at the first separator undoes joining |
| `Paths.SafeTarPathExact` | internal/storage/storage.go:75-81 | a name is accepted exactly when it is not absolute and no prefix of its components climbs above the start; the result has plain components, as many as the depth |
| `Paths.JoinStaysUnder` | internal/storage/storage.go:403-407 | joining an accepted name to any root gives the root extended by the name's own components |
| `Paths.CleanText` | internal/storage/storage.go:75-81 | cleaning the text of a clean path gives that path back |
| `Paths.CleanIdempotent` | internal/storage/storage.go:75-81 | cleaning twice is cleaning once |
| `Paths.ServePathIsUnrooted` | internal/server/server.go:792-805 | every request reaches the file system as the empty path or as plain components, and a directory URL as its index.html |
| `Paths.ServeExact` | internal/server/server.go:797-804 | the URL of a file opens that file, and the URL of a directory its index.html |
| `Paths.ServeCancels` | internal/server/server.go:802-803 | an empty or "." component changes nothing, a component followed by ".." cancels, and ".." stops at the root |
| `Paths.ServeDirectory` | internal/server/server.go:798-800 | a URL ending at a directory opens what it would with index.html appended |
| `Archives.CopyCount` | internal/s3store/memfs.go:73-85 | below the largest limit the limiter argument is at least 1 and a copy stops one byte past the cap; at the largest it wraps and nothing is copied |
| `Archives.AcceptedExactly` | internal/s3store/memfs.go:51-95 | accepted exactly if readable, all names safe and within the cap, and what each entry becomes |
| `Archives.FilesExact` | internal/s3store/memfs.go:70-87 | the files are exactly those of the file entries |
| `Archives.FirstDecides` | internal/s3store/memfs.go:101-104 | in memory the first entry of a name decides |
| `Archives.LastDecides` | internal/storage/storage.go:417-429 | on disk the last entry of a name decides |
| `Archives.DirsExact` | internal/s3store/memfs.go:111-128 | the directories are exactly the root and everything on the way to an entry |
| `Archives.SamePlace` | internal/s3store/memfs.go:59-66 | without backslashes memory and disk place an entry alike |
| `Archives.MeaningPermuted` | internal/s3store/memfs.go:42-95 | the files, directories and bytes of an archive do not depend on entry order while entries of one name agree |
| `MemFs.Tree.AddDir` | internal/s3store/memfs.go:118-128 | adds the directory and all its ancestors and nothing else, keeping every known path listed once; the upward loop ends, and stopping at a known directory is sound |
| `MemFs.Tree.AddFile` | internal/s3store/memfs.go:101-109 | adds the file unless its name is taken, with its ancestors, keeping the lists exact |
| `MemFs.Tree.SortDirs` | internal/s3store/memfs.go:130-134 | sorts every list and keeps its contents |
| `MemFs.LinkedStep` | internal/s3store/memfs.go:101-128 | naming a path once in its parent's list pays for knowing it once more, as file or as directory |
| `MemFs.AncestorsKnown` | internal/s3store/memfs.go:118-128 | every prefix of a known directory is known |
| `MemFs.WalkFindsAll` | internal/s3store/memfs.go:161-187 | a walk from "." along the lists reaches a known path exactly when it is not rooted |
| `MemFs.ListedIsKnown` | internal/s3store/memfs.go:171-187 | every listed name is a file or a directory |
| `MemFs.ListsDetermined` | internal/s3store/memfs.go:130-134 | the sorted lists are determined by the files and directories alone |
| `MemFs.UnpackTar` | internal/s3store/memfs.go:42-95 | accepts exactly the readable, safe archives within the cap; files, directories and size are the archive's; never more than limit+1 bytes are copied |
| `MemFs.AcceptancePermuted` | internal/s3store/memfs.go:42-95 | acceptance does not depend on entry order |
| `MemFs.OrderIndependent` | internal/s3store/memfs.go:42-134 | two orders of one archive give the same directories, file names and sorted lists, and the same bytes when entries of one name agree |
| `MemFs.OrderMatters` | internal/s3store/memfs.go:101-104 | when they disagree, some other order gives other bytes |
| `Extract.DiskDir.MkdirAll` | internal/storage/storage.go:409-416 | fails exactly when a file is on the way, and then makes nothing |
| `Extract.DiskDir.WriteFile` | internal/storage/storage.go:417-420 | fails exactly on a directory, otherwise replaces the file |
| `Extract.ExtractTar` | internal/storage/storage.go:392-448 | accepts exactly the archives that are readable, safe, within the cap and free of paths both file and directory; the last duplicate stays; never more than limit+1 bytes |
| `Extract.UnpackersAgree` | internal/storage/storage.go:392-448 | without backslashes the disk accepts what memory accepts and that has no clash; both hold the same directories, names and, when duplicates agree, bytes |
| `Extract.DuplicatesDiffer` | internal/s3store/memfs.go:101-104 | two entries of one name: memory keeps the first, the disk the last |
| `Walk.WriteDirAsTar` | internal/storage/tar.go:16-77 | fails exactly when the source is not a directory or a link to one; writes the entries of the walk, and of a link nothing |
| `Walk.WalkDir` | internal/storage/tar.go:29-76 | appends each visited node, parents before children |
| `Walk.WalkSound` | internal/storage/tar.go:29-76 | every written entry is accepted and describes what stands at its place |
| `Walk.WalkComplete` | internal/storage/tar.go:29-76 | every file and directory of the tree is written |
| `Walk.WalkNames` | internal/storage/tar.go:37-57 | an entry is named by its path, with a slash after a directory's |
| `Walk.ParentFirst` | internal/storage/tar.go:29-76 | the entry of a directory comes before those of what is in it |
| `Walk.SiblingsInOrder` | internal/storage/tar.go:29-76 | what is in one child comes before what is in the next |
| `Walk.RoundTrip` | internal/storage/tar.go:16-77 | what is written unpacks, on disk and in memory, to exactly the tree, and is accepted exactly when the tree fits the cap |
| `Walk.RoundTripExact` | internal/s3store/memfs.go:73-85 | the round trip holds at every cap but the largest, where it holds exactly for trees without bytes |
| `Walk.LinkRoundTrip` | internal/storage/tar.go:16-40 | what is written of a link reads back as the directory it leads to exactly when that holds no file and no directory |
| `Cache.ContentCache.Get` | internal/s3store/cache.go:47-59 | hits exactly when an entry of the key is there, gives its value and brings it to the front, the others left in order |
| `Cache.ContentCache.Put` | internal/s3store/cache.go:61-84 | a put that is too large or disabled changes nothing; one under a present key brings that entry to the front; one of a new key leaves the longest most-recent prefix within budget with the new entry first; the loop never meets an empty list |
| `Cache.ContentCache.DropAll` | internal/s3store/cache.go:87-95 | removes every version of one site and nothing else |
| `Cache.ContentCache.Evict` | internal/s3store/cache.go:98-103 | removes one entry from list, index and total |
| `Cache.RunSound` | internal/s3store/cache.go:47-103 | after any sequence of operations keys are distinct, the total is within budget, entries stand in order of last use, and each was put by the run |
| `Cache.GetAfterPut` | internal/s3store/cache.go:47-84 | a lookup right after a put of a fitting key finds the new value, or the one that was there |
| `Cache.RunHits` | internal/s3store/cache.go:47-103 | after any sequence of operations a lookup hits exactly when an entry of the key is there |
| `Cache.LongestFitUnique` | internal/s3store/cache.go:73-84 | the longest fitting prefix is unique |
| `Cache.NothingInvented` | internal/s3store/cache.go:47-95 | no operation brings in an entry that was neither there nor put |
| `Backend.ListingExact` | internal/server/backend.go:22-23 | a listing is sorted, without repetition, and describes exactly the sites held |
| `Backend.ListingUnique` | internal/server/backend.go:22-23 | a sorted list of correct descriptions of every site is the listing |
| `Ordering.LeExact` | internal/storage/storage.go:263-263 | the order of names: where two first differ the smaller character decides, and a prefix comes first |
| `Backend.StatExact` | internal/server/backend.go:33-40 | what a caller is told of a name: why there is nothing, or file count, size and deadline |
| `Backend.UnexpiredExact` | internal/server/server.go:913-925 | leaving out the expired keeps order and keeps exactly the unexpired |
| `Backend.ReapIsHide` | internal/server/server.go:913-925 | reaping and then listing is listing and then hiding |
| `Backend.VolumeIsTotal` | internal/s3store/memfs.go:67-94 | with distinct names the bytes counted are the bytes of the tree, whichever duplicate would win |
| `Backend.StoredWithinVolume` | internal/storage/storage.go:423-436 | the bytes stored never exceed the bytes counted, whichever duplicate stays, so what is accepted is within the cap |
| `Backend.RegularHeldAlike` | internal/server/backend.go:45-49 | both backends accept a regular archive alike and hold the same tree and size of it |
| `Backend.HeldExact` | internal/server/backend.go:45-49 | what each backend holds of any archive: tree and size |
| `LocalStore.Store.Stat` | internal/storage/storage.go:268-318 | name, file count, total size and deadline, or why not |
| `LocalStore.Store.Open` | internal/storage/storage.go:96-107 | the tree of a site, or why not |
| `LocalStore.Store.Names` | internal/storage/storage.go:217-237 | the valid names in order |
| `LocalStore.Store.List` | internal/storage/storage.go:240-265 | the listing of everything held |
| `LocalStore.Store.Delete` | internal/storage/storage.go:126-141 | removes the tree and the deadline of one site and nothing else; a deadline file that cannot be removed is ignored and does no harm |
| `LocalStore.Store.DeleteExpired` | internal/storage/storage.go:195-211 | removes exactly the overdue sites and returns their names in order |
| `LocalStore.Store.SetExpiry` | internal/storage/storage.go:149-177 | records or clears the deadline; an error in making, writing, renaming or removing leaves the old deadline and no temporary file |
| `SiteDirs.SitesDir.Rename` | internal/storage/storage.go:357-387 | a directory takes another name, which fails onto any existing directory; every change of the sites directory is recorded |
| `SiteDirs.MovedBack` | internal/storage/storage.go:366-373 | moving aside and back restores everything |
| `SiteDirs.InstalledAndBack` | internal/storage/storage.go:366-387 | so does moving back after the installation; removing the backup instead leaves the new tree and nothing else changed |
| `LocalStore.Store.Stage` | internal/storage/storage.go:348-355 | extracts into a new staging directory, which does not outlive an error |
| `LocalStore.Store.Install` | internal/storage/storage.go:366-387 | installation, deadline and removal of the backup, with both rollbacks: everything but the name is untouched, on an error the name too, and so in every state between |
| `LocalStore.Store.SwapIn` | internal/storage/storage.go:357-387 | the swap from moving aside to removal of the backup: when it succeeds, the whole new directory and deadlines; in every recorded state the name shows the old tree, the new one or nothing |
| `LocalStore.Store.Replace` | internal/storage/storage.go:331-390 | success exactly when; on success only the name's tree and deadline change, to the new ones; on any error nothing changes and no staging directory remains; in every state the directory passes through, the name shows the old tree, the new tree or nothing and every other site is as it was |
| `LocalStore.BackupNameOfASite` | internal/storage/storage.go:357-365 | a backup name can be a valid site name, and a site of that name blocks the replacement |
| `LocalStore.TransientNames` | internal/storage/storage.go:348-361 | a staging name is never a site name, and the three names differ |
| `S3Store.Store.Refresh` | internal/s3store/s3store.go:244-302 | the map read is the bucket's metadata |
| `S3Store.Store.Stat` | internal/s3store/s3store.go:368-380 | the description of a site, or why not |
| `S3Store.Store.List` | internal/s3store/s3store.go:331-342 | the listing of everything held |
| `S3Store.Store.Open` | internal/s3store/s3store.go:384-418 | the tree of the live version, from cache or bucket alike |
| `S3Store.Store.Replace` | internal/s3store/s3store.go:432-497 | accepted exactly when name and archive are; then the site holds exactly the archive's tree, size and deadline, and every other site is unchanged |
| `S3Store.Store.Flip` | internal/s3store/s3store.go:478-496 | the commit and what follows keep metadata, objects, local map and cache consistent, and leave no content object but the live one of each site |
| `S3Store.Store.Delete` | internal/s3store/s3store.go:529-556 | removes one site with all its versions and nothing else, leaving no garbage |
| `S3Store.Store.DeleteExpired` | internal/s3store/s3store.go:559-583 | removes exactly the overdue sites and returns their names in order |
| `Agreement.Pair.Run` | internal/server/backend.go:21-59 | over every failure-free sequential run of pushes, deletes, reaps and reads of regular archives in which no push backs up under a held site's name, both backends give the same answers - names, counts, sizes, deadlines, contents - and they are those of one map from names to trees |
| `Lifetimes.PushThenRead` | internal/server/backend.go:43-49 | what is read right after a push is what was pushed, and the push answers the same |
| `Lifetimes.OthersUntouched` | internal/server/backend.go:43-56 | a request changes no name but its own, and a reaping exactly those whose deadline has come |
| `Lifetimes.HeldUntilReaped` | internal/storage/storage.go:331-340 | over every run a pushed site is held, as pushed, exactly until the first reaping at or after the end of its lifetime, if it is neither pushed again nor deleted |
| `Lifetimes.LifetimeExact` | internal/server/server.go:723-731 | while held it is reaped, hidden and missing exactly when its lifetime, counted from the push, has passed; without a lifetime never |
| `Agreement.Pair.Replace` | internal/server/backend.go:45-49 | after a push the two stores hold the same and answer alike exactly when the push makes no backup or makes it under a free name; then both do as the map does |
| `Agreement.Pair.Delete` | internal/server/backend.go:51-52 | a delete answers and changes both stores as it does the map |
| `Agreement.Pair.DeleteExpired` | internal/server/backend.go:54-56 | a reaping pass removes the same sites from both, and leaves listed what readers were shown |
| `Agreement.Pair.Look` | internal/server/backend.go:21-41 | stat, open and list answer alike |
| `Index.UnexpiredSites` | internal/server/server.go:917-925 | the in-place compaction leaves the order-preserving filter at the front of the buffer |
| `Index.GroupDiskSites` | internal/server/server.go:946-983 | the two passes compute the grouping the following lemmas are about |
| `Index.OneRowEach` | internal/server/server.go:946-983 | every listed site has exactly one row |
| `Index.RowsInOrder` | internal/server/server.go:946-983 | rows keep list order within a group, groups the order of first appearance; no group is empty |
| `Index.RowShows` | internal/server/server.go:962-991 | each row shows the site at its position, under the prefix before its first dot: name, link, file count, size and deadline |
| `Index.LabelExact` | internal/server/server.go:965-974 | a label is the full name, or what follows the prefix and a dot; never empty |
| `Index.HeaderExact` | internal/server/server.go:962-963 | with distinct names a header stands exactly over groups holding a namespaced site |
| `Index.RenderIndex` | internal/server/server.go:849-884 | the unexpired sites grouped, then the built-ins no listed site shadows |
| `Index.UnshadowedExact` | internal/server/server.go:864-877 | a built-in is listed exactly when no unexpired site has its name |
| `Index.UnshadowedInOrder` | internal/server/server.go:864-877 | the built-ins keep their order |
| `Index.RenderGroupIndex` | internal/server/server.go:889-911 | the unexpired sites below a prefix |
| `Index.InGroupRows` | internal/server/server.go:896-901 | a row is on a group page exactly when it shows a listed site below the prefix |
| `Index.GroupRowsAreMembers` | internal/server/server.go:896-901 | a group page lists the members of the index group in the same order |
| `Routes.HasGroupChildren` | internal/server/server.go:776-787 | true exactly when some name lies below the prefix |
| `Routes.HandlePublic` | internal/server/server.go:700-770 | the page each path gets from the store's contents, the built-ins and the time |
| `Routes.FrontPage` | internal/server/server.go:707-710 | the page at "/" is the index of the shown sites, then of the built-ins they do not shadow |
| `Routes.PathLeads` | internal/server/server.go:712-770 | where any path below a valid name leads |
| `Routes.BareLeads` | internal/server/server.go:750-766 | a bare name redirects to its directory exactly when there is a live site, a built-in or a site below it |
| `Routes.SiteServes` | internal/server/server.go:792-805 | a live site answers the path of any file with that file, and of a directory with its index.html |
| `Routes.OtherPathsAreMissing` | internal/server/server.go:700-721 | a name that is not a site name, and everything below /api, is missing |
| `Routes.LinkLeads` | internal/server/server.go:700-770 | where a directory link of any valid name leads |
| `Routes.SiteRowLeads` | internal/server/server.go:985-991 | the link of a site row shows that site exactly when the site is not named "api" |
| `Routes.LiveSiteHasRow` | internal/server/server.go:849-861 | every unexpired site has exactly one row on the index |
| `Routes.BuiltinRowLeads` | internal/server/server.go:864-877 | the link of a built-in row shows it exactly when it is not named "api" and no expired site of its name waits to be reaped |
| `Routes.HeaderLeads` | internal/server/server.go:975-980 | a header leads to the site or built-in of its name or to the page listing the same sites, unless the prefix is "api" or an expired site of exactly that name waits to be reaped |
| `Routes.GroupPageRowLeads` | internal/server/server.go:896-901 | every row of a group page shows its site |
| `Routes.ApiHeaderIsMissing` | internal/server/server.go:702-705 | with a site named api.docs the index shows a header whose link is not found |

## Left out

- HTTP handling, the command line, configuration, telemetry, audit logging, the updater and the embedded sites: input and output around the core.
- Tar, JSON and YAML byte formats, SHA-256, random number generation and the object-storage client: replaced by entry sequences, values, an injective function, fresh draws and atomic requests. A stream that breaks is modelled at its end, not inside a file.
- Modification times, UpdatedAt, human-readable sizes, ages and templates: presentation.
- memDir.ReadDir paging and memFS.Open: plain lookups in the maps that are modelled.
- Wrap-around of the running byte total where no cap is set, and of the cache total for budgets near 2^63: totals are unbounded there.
- Publish: the age of the metadata map is a free choice at each lookup, so no claim depends on MetaTTL; names are not validated in the transition system, and the concurrent fetches of a refresh are taken one at a time in any order.
- S3Store.Store: one process, no failures and no other writer; failures and interleavings are the subject of the publish protocol. The bucket holds only metadata this program wrote, so the skipping of invalid names during a refresh does not arise.
- LocalStore.Store.Replace: a failing rollback step, and an error of the final Stat, are not modelled; the extraction of an archive is one change of the staging directory.
- Extract.ExtractTar: an input/output error is one that stops at the start of a given entry; a partly written file lies only in the staging directory, which is removed.
- Walk.WriteDirAsTar: errors while reading the tree or writing the stream are not modelled.
- Tokens.Store.Create: a random generator that fails is not modelled; draws are parameters.
- Agreement.Pair.Run: failures are left to the stores' own contracts and to the publish protocol.
- Routes.HandlePublic: driven from the local store; the object store gives the same answers by Agreement.Pair.Look. The path cleaning of the request multiplexer and the serving of file bytes are not modelled.
- Multiple brokers with concurrent deletes: documented as unsupported (docs/design.md:29-32); one run shows why.
