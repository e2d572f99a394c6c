# Landropic: a verified model of the sync data path

Landropic synchronises folders between machines. A file is cut into chunks, the chunks go into a
content-addressed store, a manifest records the folder, two manifests are compared, and what is
missing is transferred. This project models that path, and the state machines beside it, in Dafny,
and proves what the design promises about them: over every input, every interleaving, or every run.

| module | file | models |
|---|---|---|
| `Common` | `Common.dfy` | bytes, digests, results; what "no collision" means |
| `ChunkCaches` | `ChunkCache.dfy` | the LRU cache in front of the store and its size counter |
| `ContentStores` | `ContentStore.dfy` | the store: single, batched, streamed and resumable writes, reads, recovery, verification |
| `StoreRuns` | `StoreRuns.dfy` | any list of store operations, with any number of resumable transfers open at once, against one store |
| `CrashSafety` | `CrashSafety.dfy` | interleaved atomic, streamed and resumable writers, a crash at any point, recovery |
| `Chunkers` | `Chunker.dfy` | content-defined chunking |
| `Encoding`, `Merkle`, `Manifests`, `ManifestDiffs` | `Encoding.dfy`, `Merkle.dfy`, `Manifest.dfy`, `ManifestDiff.dfy` | manifests, their root hash, and their differences |
| `Indexers`, `StreamingIngest` | `Indexer.dfy`, `StreamingIngest.dfy` | from files to stored chunks and manifest entries |
| `Packfiles`, `PackfileManagers` | `Packfile.dfy`, `PackfileManager.dfy` | the packfile format, its writer, its two readers, and the staged manager |
| `Migrations` | `Migrations.dfy` | transactional schema migrations, up and down |
| `BloomFilters`, `DiffProtocols` | `Bloom.dfy`, `DiffProtocol.dfy` | manifest summaries and the message exchange built on them |
| `ConnectionLimits` | `ConnectionLimits.dfy` | the rate limit, backoff and peer health |
| `FileTransfers` | `FileTransfer.dfy` | framing, and one file's transfer between two parties |
| `Orchestrators` | `Orchestrator.dfy` | the retry and debounce ticks |

Conventions. BLAKE3 is a parameter `h`, any function from bytes to digests; where a property needs
collision resistance it names the finite set of inputs that must not collide. Sums are unbounded
integers unless the source's width matters, and then the wrap or the truncation is written out
(`Packfiles.TableOffset`, `FileTransfers.Frame`, `Manifests.Unsigned64`, the 64-bit words of
`Chunkers`). Sets and maps are walked in an arbitrary order. Recursive functions over lists mostly
peel the last element, which is how the loops build them.

What the proofs found. These are results, each with a lemma or method that shows it:

- The cache's size counter can exceed what is cached, because `put` drops entries without
  subtracting them. The eviction loop then never exits for some insertions.
  `ChunkCaches.ChunkCache.Insert` says exactly when, `ChunkCaches.OverCountSpins` reaches it.
- A batch write trusts the digest its caller supplies. `ContentStores.FlushSoundIff` says exactly when
  a flush keeps the store sound, `ContentStores.FalseHintStored` breaks it,
  and `ContentStores.FalseHintFound` shows that reads and verifications then notice.
- A rename can become durable before the bytes it names unless they were synced, and the writers of
  the store do not all sync. `CrashSafety.SafeIffSynced` says exactly which mixtures of writers survive
  every crash; `CrashSafety.WhoIsSafe` spells it out: atomic writes under Always and Batch, streamed
  writes under Always only, resumable writes under no policy. `CrashSafety.EachWriterSafe` says it writer by writer.
- A write that returned can be gone after a crash when its directory entry was never synced.
  `CrashSafety.DurableIff`: only atomic writes under Always are safe from that, `CrashSafety.EntryLost`
  loses each of the others.
- The store accepts empty objects and later reports them as corrupt: a recovered store verifies as
  healthy exactly when it holds no empty object (`CrashSafety.Restart`,
  `CrashSafety.EmptyObjectUnhealthy`).
- A packfile queue is drained before the writer can refuse a chunk of 2^32 bytes or more, so that chunk
  and all behind it are dropped (`PackfileManagers.PackfileManager.FlushPending`). Nothing is dropped when
  no chunk is that large.
- The two packfile readers accept the same files but for those of 26 to 31 bytes with a zero count
  (`Packfiles.ReadersAgree`, `Packfiles.ReadersDiffer`), and read alike but for empty entries past the
  end (`Packfiles.ReadsAlike`, `Packfiles.EmptyEntryDiffers`).
- The streaming ingest keeps an overlap in its buffer so that no chunk boundary is missed, but chunks what
  it takes out of the buffer to its end. `StreamingIngest.AlikeIff` says exactly when its pieces are the
  chunks of the file, `StreamingIngest.OverlapMissesCuts` gives files for every chunker where they are not.
- A manifest leaf does not delimit its path, so it binds its fields only among paths of equal length,
  and an absent mode hashes like mode zero (`Manifests.EncodingBinds`, `Manifests.AbsentModeIsZero`).
  Under every hash function there are two manifests with different paths and one root
  (`Manifests.RootsConfused`). Leaves and pairs are hashed alike, so a manifest whose leaves are a whole
  level of another's tree has its root, and every manifest of two files or more shares its root with one
  of a single file (`Manifests.LoneFileStandsFor`). `Manifests.ManifestRootBinds` says that this is all:
  equal roots mean equal entries or such a stand-in, which has another height. `Manifests.RootBindsIff`
  says for which entries that holds: exactly those of which no two share an encoding under paths of
  different lengths. The levels also repeat an odd last node (`Merkle.LastLeafRepeated`).
- The summary protocol suspects only paths the other side does not have, so between peers with one
  unchanging manifest each the details exchange is always empty (`DiffProtocols.RunKeepsOk`), and a
  changed file is never noticed (`DiffProtocols.NoDifferencesIff`, `DiffProtocols.SamePathsUnsuspected`).
- Any acknowledgement, even a refusal, marks every diff a peer has under way as completed
  (`DiffProtocols.AnyAckCompletesAll`).
- A file whose message body exceeds 100 MB cannot be transferred: `FileTransfers.TransferCorrect`
  says success is exactly "both messages fit and the disk held".
- Within one debounce window the order of changes is lost. What is run last on a path is what its last
  change asked for if and only if no change to the path asked for an operation of a higher rank,
  deletion over modification over creation (`Orchestrators.LastKeptIff`); `RecreatedEndsDeleted` is an
  input where it fails.

## Model

| member | source | states |
|---|---|---|
| ChunkCaches.ChunkCache.Get | landro-cas/src/storage.rs:855-875 | a hit is exactly a cached digest; it moves the entry to the recent end, keeps the multiset of entries and the counter |
| ChunkCaches.ChunkCache.MakeRoom | landro-cas/src/storage.rs:904-909 | evicts the shortest oldest prefix that leaves room; there is room afterwards or the cache is empty |
| ChunkCaches.ChunkCache.Insert | landro-cas/src/storage.rs:647-656 | terminates exactly when over-count plus new size fits; afterwards the counter is within the limit, and the over-count grew by exactly the bytes `put` displaced |
| ChunkCaches.InsertedEntries | landro-cas/src/storage.rs:911-912 | after an insertion every entry is the new one or an old one under another key, and nothing is displaced below capacity by a new key |
| ChunkCaches.OverCountSpins | landro-cas/src/storage.rs:904-912 | a reachable sequence of three insertions whose eviction loop never exits |
| ContentStores.ContentStore.constructor | landro-cas/src/storage.rs:423-475 | opening a store recovers it: the objects become the recovered map, no temporary file is left |
| ContentStores.ContentStore.WriteAtomic | landro-cas/src/storage.rs:1558-1622 | the object is there whole and its temporary file is gone, nothing else changed |
| ContentStores.ContentStore.Write | landro-cas/src/storage.rs:742-847 | oversized data is refused; otherwise the digest is returned and the object map is first-writer-wins storing |
| ContentStores.ContentStore.WriteBatch | landro-cas/src/storage.rs:508-556 | what is buffered, when the batch is flushed, what the objects then are, and which references are returned; after it fewer than 100 chunks and 10 MB are buffered, and a batch that stays below both and is young stores nothing; a hang means a due flush got exactly as far as an object the emptied cache cannot hold, and never happens while the cache has room for the whole store |
| ContentStores.AcceptedPrefix | landro-cas/src/storage.rs:519-524 | the first oversized chunk stops a batch, keeping exactly what came before it |
| ContentStores.ContentStore.AddToBatch | landro-cas/src/storage.rs:526-545 | a chunk is buffered under its hint or its own digest, unless the dedup index knows it; the reference returned is the known one, or that digest with the size |
| ContentStores.ContentStore.FlushBatch | landro-cas/src/storage.rs:559-565 | the same as the drain below, and nothing for an empty buffer |
| ContentStores.ContentStore.FlushInternal | landro-cas/src/storage.rs:567-603 | the buffer is empty and its items stored in order; a hang is at the first item the emptied cache cannot hold, with exactly the items up to it stored, and never happens while the cache has room for the whole store |
| ContentStores.ContentStore.WriteIndividualOptimized | landro-cas/src/storage.rs:606-680 | an existing object is left alone; a new one is stored, cached and indexed with its right size |
| ContentStores.StoredAllKeeps | landro-cas/src/storage.rs:567-680 | storing a list keeps every old object, holds every name in the list, and takes each new object from the list |
| ContentStores.FlushSoundIff | landro-cas/src/storage.rs:530-534 | a flush leaves every object named by its digest if and only if it was so before and every hint that creates an object is truthful |
| ContentStores.FalseHintStored | landro-cas/src/storage.rs:530-534 | a concrete batch that leaves a misnamed object |
| ContentStores.FalseHintFound | landro-cas/src/storage.rs:935-1965 | once the misnamed object is no longer cached, a read answers with the digest mismatch and a verification counts it as corrupted |
| ContentStores.ContentStore.WriteStream | landro-cas/src/storage.rs:1029-1130 | a streamed write stores exactly what the reads delivered, or refuses a wrong expected digest with nothing changed; no scratch file is left |
| ContentStores.ContentStore.ContinueResumable | landro-cas/src/storage.rs:1276-1362 | a round appends what it delivered and counts it; exactly an expired or lost transfer fails |
| ContentStores.ContentStore.CompleteResumable | landro-cas/src/storage.rs:1365-1471 | completion stores the whole scratch file, or fails on a wrong digest or size with the objects untouched |
| ContentStores.ContentStore.CancelResumable | landro-cas/src/storage.rs:1478-1484 | the scratch file is gone, nothing else changes |
| ContentStores.ContentStore.CleanupExpired | landro-cas/src/storage.rs:1488-1517 | exactly the scratch files past their age go, in any order, and are counted |
| ContentStores.ContentStore.ResumableWrite | landro-cas/src/storage.rs:1242-1471 | any number of rounds of one transfer with nothing in between, followed by completion, has the outcome of one streamed write of everything delivered; `StoreRuns.Run` is about transfers interleaved with everything else |
| ContentStores.ContentStore.Read | landro-cas/src/storage.rs:853-968 | a hit returns the stored bytes; a miss answers Ok only with non-empty bytes that hash to the digest asked for, and says which of missing, empty and wrong digest it is otherwise; it hangs exactly when the bytes read do not fit the cache beside what is over-counted |
| ContentStores.ContentStore.Prefetch | landro-cas/src/storage.rs:2015-2037 | with room for them all, every readable digest is cached afterwards, and without it the last one is; it may hang, on one of the digests only |
| ContentStores.ContentStore.ClearCache | landro-cas/src/storage.rs:2040-2045 | the cache is empty and its counter exact again |
| ContentStores.ContentStore.Recover | landro-cas/src/storage.rs:1663-1730 | exactly the temporary files with no object and the right digest are promoted, all others go, in any walk order; recovered plus cleaned is their number |
| ContentStores.ContentStore.RecoverTempFile | landro-cas/src/storage.rs:1733-1808 | one file: kept object wins, right digest is promoted, anything else is removed |
| ContentStores.RecoverOne | landro-cas/src/storage.rs:1663-1808 | recovering one more file adds it exactly when it is promotable, whatever was recovered before |
| ContentStores.RecoverResumes | landro-cas/src/storage.rs:1663-1730 | a crash during recovery: recovery stopped after any of the temporary files and run again over the others gives the store of one undisturbed recovery |
| ContentStores.ContentStore.VerifyIntegrity | landro-cas/src/storage.rs:1888-1955 | every object is counted once and every temporary file is an error; the corrupted ones are at least the uncached objects that are empty or do not hash to their names, and at most all such objects; with nothing cached the report is healthy if and only if there is no such object and no temporary file; it hangs only on a readable object without room |
| ContentStores.ContentStore.VerifySingle | landro-cas/src/storage.rs:1957-1965 | an object counted bad is empty or does not hash to its name; one counted good is neither, or was cached |
| StoreRuns.Step | landro-cas/src/storage.rs:508-1517 | every operation keeps the store sound, its sizes right, its objects, and every open transfer's scratch file equal to what was delivered to it; writes, transfers and batches are answered from the operation alone, a batch refused only for a chunk too large and otherwise given the digest and size of every chunk; it hangs only on a readable object, or on a buffered one that was not stored before, that the emptied cache has no room for, and never while the cache has room for everything |
| StoreRuns.Run | landro-cas/src/storage.rs:508-1517 | in any run, with any number of transfers open at once, continued, completed, cancelled, expired or cleaned up between other operations: every answer to a write, a batch or a transfer is the one computed from the operation and what its transfer was delivered; everything written, completed, or batched and then flushed is stored at the end and every later read of its digest returns exactly it; every read of a non-empty object stored before the run returns exactly that object; reads make nothing up; acknowledged chunks not yet flushed are still buffered; a hang is where the operations executed so far lead to one; all of it runs to the end when the cache has room |
| StoreRuns.ReadsSeeGrows | landro-cas/src/storage.rs:853-968 | one more operation preserves "reads see writes" |
| StoreRuns.AllSecuredGrows | landro-cas/src/storage.rs:508-603 | one more operation keeps everything durable, and a flush makes every acknowledged chunk durable |
| StoreRuns.KeptGrows | landro-cas/src/storage.rs:508-1517 | one more operation keeps every promise made so far |
| StoreRuns.TracePromises | landro-cas/src/storage.rs:508-1517 | along any trace of operations that each make their progress, every promise is kept |
| StoreRuns.TraceReadsStart | landro-cas/src/storage.rs:853-968 | along any trace, reads of what was stored at its start return exactly that |
| StoreRuns.BatchRefs | landro-cas/src/storage.rs:508-556 | with truthful hints and a dedup index that is right, the references a batch returns are the digest and the size of every chunk |
| StoreRuns.StepComplete | landro-cas/src/storage.rs:1365-1471 | completing one of many open transfers answers by what was delivered to it, stores it, and leaves the others alone |
| StoreRuns.WithinCount | landro-cas/src/storage.rs:508-603 | a sound store over a universe of data has no more objects than the universe has strings |
| StoreRuns.RecoveredHonest | landro-cas/src/storage.rs:1663-1808 | recovery keeps every object, stays sound, and brings in only what temporary files held |
| CrashSafety.NextKeepsInv | landro-cas/src/storage.rs:1558-1622 | each step of each writer keeps the disk invariant: bytes that a syncing writer shows under an object's name are complete and synced |
| CrashSafety.RunKeepsInv | landro-cas/src/storage.rs:1558-1622 | so does every interleaved run, and no writer disturbs what existed before |
| CrashSafety.EachWriterSafe | landro-cas/src/storage.rs:1029-1808 | for every run of any mixture of writers and every crash: after recovery old objects are untouched, nothing appears from nowhere, and every object hashes to its name but those of writers that did not sync |
| CrashSafety.CrashSafe | landro-cas/src/storage.rs:1029-1808 | when all writers of the run sync before they rename: all objects hash to their names, before recovery and after, and nothing is left to recover |
| CrashSafety.AllOrNothing | landro-cas/src/storage.rs:1558-1808 | each interrupted write of a writer that syncs is wholly there or not there at all, whatever the others do |
| CrashSafety.ReturnedSurvives | landro-cas/src/storage.rs:1609-1622 | an atomic write that returned is there after recovery exactly when its directory entry survived, which Always guarantees |
| CrashSafety.StreamSurvives | landro-cas/src/storage.rs:1060-1115 | a streamed write that returned under Always is there exactly when its new entry survived, since its directory is never synced, or an old temporary file of its name is promoted |
| CrashSafety.EntryLost | landro-cas/src/storage.rs:1591-1645 | a write that returned, alone on an empty disk, and a crash after it that leaves nothing: for an atomic writer under every policy but Always, for a streamed or resumable one under all |
| CrashSafety.DurableIff | landro-cas/src/storage.rs:1591-1645 | every write of this kind that returned survives every crash of every run if and only if it is atomic and the policy is Always |
| CrashSafety.SafeIffSynced | landro-cas/src/storage.rs:1029-1622 | writers of given kinds leave a sound store after every run and crash if and only if each of them syncs its bytes before the rename |
| CrashSafety.WhoIsSafe | landro-cas/src/storage.rs:1029-1645 | atomic writes are crash safe exactly under Always and Batch, streamed ones exactly under Always, resumable ones never |
| CrashSafety.UnsyncedRenameCorrupts | landro-cas/src/storage.rs:1341-1446 | for each writer that does not sync, a run that returns and a crash that leaves a corrupt object |
| CrashSafety.Restart | landro-cas/src/storage.rs:1663-1965 | reopening after any crash gives the recovered store, and verification then reports healthy exactly when no empty object is stored |
| CrashSafety.EmptyObjectUnhealthy | landro-cas/src/storage.rs:742-791 | a write of nothing is accepted and makes the next verification unhealthy |
| Chunkers.Chunker.FindChunkBoundary | landro-chunker/src/chunker.rs:273-318 | the loop returns the first position past the window whose masked rolling hash is zero, else the maximum |
| Chunkers.NewChunker | landro-chunker/src/chunker.rs:33-125 | a configuration is accepted exactly when its sizes are in order and within 256 bytes and 16 MB and its mask has 1 to 32 bits; the mask then covers that many low bits |
| Chunkers.Chunker.RollingLong | landro-chunker/src/chunker.rs:273-318 | past the window of 48 bytes the oldest byte is taken back before the next is added |
| Chunkers.Rotates | landro-chunker/src/chunker.rs:273-318 | a byte enters by rotation and wrapping addition of its gear and leaves by wrapping subtraction of its gear rotated by 48; a hash is looked at through its masked bits |
| Chunkers.Chunker.HitMeans | landro-chunker/src/chunker.rs:273-318 | a cut is accepted exactly where 48 bytes have been scanned and the masked bits are zero |
| Chunkers.Chunker.BoundaryUnique | landro-chunker/src/chunker.rs:273-318 | that property determines the boundary |
| Chunkers.Chunker.ChunkBytes | landro-chunker/src/chunker.rs:230-266 | the loop yields the chunks the recursive specification gives, hashes and offsets included |
| Chunkers.Chunker.ChunkStream | landro-chunker/src/chunker.rs:142-227 | whatever way the reads fragment the input, the chunks are those of the whole |
| Chunkers.Chunker.ChunkAt | landro-chunker/src/chunker.rs:239-263 | each chunk is the bytes between two consecutive cuts, and the list goes on as if chunking had started at the next one |
| Chunkers.Chunker.Partition | landro-chunker/src/chunker.rs:230-266 | the chunks concatenate to the input |
| Chunkers.Chunker.Contiguous | landro-chunker/src/chunker.rs:230-266 | chunks are non-empty, adjacent, start at zero, end at the end, and carry the hash of their own bytes |
| Chunkers.Chunker.ChunkLengths | landro-chunker/src/chunker.rs:239-318 | no chunk exceeds the maximum; every one but the last is exactly the maximum or at least minimum plus 49 with a zero masked hash at its cut |
| Chunkers.Chunker.ChunkCount | landro-chunker/src/chunker.rs:230-266 | the number of chunks is bounded from both sides |
| Chunkers.Chunker.SuffixLocality | landro-chunker/src/chunker.rs:230-318 | inputs that agree from a boundary of both on share all later chunks, shifted |
| Chunkers.Chunker.ChunksOfRest | landro-chunker/src/chunker.rs:230-318 | chunking from a boundary is chunking the remaining bytes on their own |
| Chunkers.Chunker.PrefixLocality | landro-chunker/src/chunker.rs:230-318 | every non-final chunk inside a common prefix is a chunk of both inputs, at the same offset |
| Chunkers.Chunker.SplitAtCut | landro-chunker/src/chunker.rs:142-266 | at a cut of the data, chunking up to it and chunking from it on give the chunks of the whole |
| Chunkers.Chunker.MeetsPrefix | landro-chunker/src/chunker.rs:142-266 | up to any of its cuts, the data and its prefix are cut at the same places |
| Encoding.DecodeEncodeLE | landro-cas/src/packfile.rs:191-199 | little-endian integers round trip |
| Encoding.EncodeDecodeLE | landro-cas/src/packfile.rs:191-199 | and so do the bytes that hold one |
| Encoding.LittleEndian | landro-cas/src/packfile.rs:191-199 | byte i is the digit of weight 256 to the i |
| Encoding.HexRoundTrip | landro-index/src/indexer.rs:172-185 | hexadecimal digests round trip |
| Encoding.HexDigits | landro-index/src/indexer.rs:172-185 | two lower-case digits for each byte, the high half first |
| Encoding.HexAccepts | landro-index/src/manifest.rs:103-119 | decoding accepts exactly the strings of even length of digits in either case |
| Merkle.HashPairs | landro-index/src/manifest.rs:126-146 | the pairing loop yields one level up, an odd last node paired with itself |
| Merkle.ComputeRoot | landro-index/src/manifest.rs:79-91 | the level loop ends and yields the root |
| Merkle.SmallRoots | landro-index/src/manifest.rs:79-146 | one leaf is the root, two are hashed in order, a third is paired with itself |
| Merkle.SameHeightBinds | landro-index/src/manifest.rs:66-146 | trees of equal height with equal roots have equal leaves, unless one repeats a leaf; pair terms alone need not collide |
| Merkle.RootBinds | landro-index/src/manifest.rs:66-146 | two lists of distinct leaf inputs have equal roots if and only if they are equal or one is, in order, all that is hashed for a level of the other tree |
| Merkle.LowerIsLevel | landro-index/src/manifest.rs:79-91 | a lower tree with the root of a higher one is one of its levels |
| Merkle.LevelFacts | landro-index/src/manifest.rs:79-91 | a level has the root of its tree, is lower than it, and begins with one of its pairs |
| Merkle.ApartNoLevel | landro-index/src/manifest.rs:66-146 | trees of one height, or whose leaves are no pairs of one another, are never levels of one another |
| Merkle.LastLeafRepeated | landro-index/src/manifest.rs:126-146 | repeating the last of any odd number of leaves above one gives the same root |
| Manifests.EncodingBinds | landro-index/src/manifest.rs:95-123 | two leaf encodings with paths of equal length are equal if and only if all the hashed fields are |
| Manifests.EncodingLayout | landro-index/src/manifest.rs:95-123 | a leaf byte by byte: path, size, content hash, mode or zeros, seconds in two's complement, chunk hashes |
| Manifests.PathLengthNeeded | landro-index/src/manifest.rs:95-123 | two entries with different paths and one encoding |
| Manifests.RootsConfused | landro-index/src/manifest.rs:66-146 | under every hash function, two manifests with different paths and one root |
| Manifests.EntryOf | landro-index/src/manifest.rs:95-123 | any 64 bytes are the encoding of a well-formed entry with a 12-byte path and no chunks |
| Manifests.LoneFileStandsFor | landro-index/src/manifest.rs:66-146 | for every manifest of two files or more there is a manifest of one file with the same root |
| Manifests.LengthsTellApart | landro-index/src/manifest.rs:95-123 | path lengths and chunk counts that tell entries apart rule out shared encodings |
| Manifests.NoStandIn | landro-index/src/manifest.rs:95-146 | no manifest stands for one of its own height, nor, unless an entry has a 12-byte path and no chunks, for any other |
| Manifests.ListRootBinds | landro-index/src/manifest.rs:66-146 | the roots of two path-sorted lists are equal if and only if their leaf encodings are, or those of one are a level of the other's tree |
| Manifests.AbsentModeIsZero | landro-index/src/manifest.rs:107-111 | an absent mode and mode zero are encoded alike |
| Manifests.SortSorts | landro-index/src/manifest.rs:71-73 | the sort orders by path and permutes |
| Manifests.BeforeMeans | landro-index/src/manifest.rs:71-73 | paths compare by the first byte in which they differ, a prefix coming first |
| Manifests.TwoFiles | landro-index/src/manifest.rs:66-92 | of two files the one with the lesser path is hashed first, in whichever order they were added |
| Manifests.Manifest.CalculateHash | landro-index/src/manifest.rs:66-92 | the hash is the Merkle root of the leaves in path order |
| Manifests.Manifest.Finalize | landro-index/src/manifest.rs:44-47 | records the root of the files as they are |
| Manifests.Manifest.Verify | landro-index/src/manifest.rs:50-57 | true exactly when the recorded hash is that root |
| Manifests.OrderIndependent | landro-index/src/manifest.rs:66-92 | with distinct paths the order of the entries does not matter |
| Manifests.ManifestRootBinds | landro-index/src/manifest.rs:66-146 | manifests, of any two sizes, have equal roots if and only if their path-sorted entries agree in every hashed field or one stands for a level of the other, provided no two entries share an encoding under paths of different lengths |
| Manifests.RootBindsIff | landro-index/src/manifest.rs:66-146 | and that proviso is exact: the root binds every two manifests of a set of entries if and only if no two of the entries share an encoding that way |
| Manifests.SameHeightBindsIff | landro-index/src/manifest.rs:66-146 | among manifests of one height, equal roots mean equal entries without exception, under exactly the same condition |
| ManifestDiffs.Diff | landro-index/src/manifest.rs:164-200 | the three lists are exactly the new, changed and missing paths, each once, last entry per path winning |
| ManifestDiffs.ApplyDiff | landro-index/src/manifest.rs:164-200 | applying diff(a, b) to a gives b |
| ManifestDiffs.DiffsCompose | landro-index/src/manifest.rs:164-200 | diff(a, b) then diff(b, c) has the effect of diff(a, c) |
| ManifestDiffs.DiffShape | landro-index/src/manifest.rs:164-208 | the three lists have disjoint paths, and swapping the arguments swaps added and deleted |
| ManifestDiffs.NoChangesIff | landro-index/src/manifest.rs:211-221 | no changes are reported if and only if the path-to-hash maps agree; the count is the number of differing paths |
| ManifestDiffs.SameRootNoChanges | landro-index/src/manifest.rs:66-221 | manifests with equal roots have an empty diff, unless one stands for a level of the other; always when their heights are equal |
| Indexers.IndexFile | landro-index/src/indexer.rs:130-212 | the entry records the file, its content hash is in lower-case hex and decodes to the hash of its chunks' hex digests joined, and its chunk hashes lead to stored chunks that concatenate to the file's bytes |
| Indexers.RecordsHex | landro-index/src/indexer.rs:172-296 | what a manifest leaf decodes of an indexed file are the digests themselves: of the joined hex digests, and of every chunk |
| Indexers.ReadBack | landro-index/src/indexer.rs:130-212 | reading the recorded chunks in order from the store gives the file's bytes; it can only hang, on a recorded chunk the emptied cache cannot hold, and does not while the cache has room for the store |
| Indexers.IndexFolder | landro-index/src/indexer.rs:74-127 | every readable file is recorded and can be reassembled from the store at the end; the entries are in lower-case hex and well-formed; the manifest hash is the root of the entries |
| Indexers.ReadableAll | landro-index/src/indexer.rs:74-127 | the files recorded are all that can be read, in order |
| Indexers.FileHashBinds | landro-index/src/indexer.rs:288-296 | content hashes are equal if and only if the chunk lists are |
| Indexers.ContentHashIff | landro-index/src/indexer.rs:172-296 | and so if and only if the bytes are |
| Indexers.ModifiedIff | landro-index/src/manifest.rs:174-187 | from two indexings, a common path is listed as modified exactly when its bytes changed |
| Indexers.SameHashNoChanges | landro-index/src/manifest.rs:66-221 | two indexed folders with one manifest hash have an empty diff, unless one stands for a level of the other; always when their trees are of equal height |
| Indexers.SameHashSameBytes | landro-index/src/manifest.rs:66-221 | and then every file of the one folder is in the other, under its path and with its bytes |
| StreamingIngest.ProcessFileStreaming | landro-daemon/src/orchestrator.rs:967-1037 | for every fragmentation the pieces stored are the chunks of the stretches the rolling buffer gives up, and so the file cut up in order, no piece too large; a file smaller than 256 KB times the concurrency is stored as its chunks; the peak is the most the buffer has after any read and at most 1 MB more than 256 KB, or than one byte less than 256 KB times the concurrency; it fails exactly when there is no concurrency and the first read is shorter than the overlap |
| StreamingIngest.RolledHeld | landro-daemon/src/orchestrator.rs:1004-1022 | the length the buffer carries from read to read follows from the sizes of the reads and the limit alone |
| StreamingIngest.SpillsAt | landro-daemon/src/orchestrator.rs:1004-1022 | a read that brings the buffer to 256 KB times the concurrency leaves its last 256 KB there and takes out the rest; any other is just added |
| StreamingIngest.PeakBounded | landro-daemon/src/orchestrator.rs:982-1022 | whatever the sizes of the reads, the buffer carries less than the limit, or the overlap, and its peak is at most 1 MB more |
| StreamingIngest.PeakCovers | landro-daemon/src/orchestrator.rs:982-1022 | what the buffer carries before a read and the read together never exceed the peak |
| StreamingIngest.PeakReached | landro-daemon/src/orchestrator.rs:982-1022 | for every limit there are reads whose peak is exactly that bound |
| StreamingIngest.PeakReachedAt | landro-daemon/src/orchestrator.rs:982-1022 | for every concurrency there are reads whose peak is exactly the bound, in numbers |
| StreamingIngest.AlikeIff | landro-daemon/src/orchestrator.rs:1007-1022 | the pieces are the chunks of the whole file if and only if every stretch starts where a chunk of the whole file does |
| StreamingIngest.OverlapMissesCuts | landro-daemon/src/orchestrator.rs:980-1022 | for every chunker, a file one byte longer than the overlap is stored in other pieces than its chunks |
| Packfiles.PackfileWriter.AddChunk | landro-cas/src/packfile.rs:206-226 | data of 2^32 bytes or more is refused with the file untouched; otherwise data and entry are appended |
| Packfiles.PackfileWriter.Finalize | landro-cas/src/packfile.rs:229-276 | the file is header with the real count, data, table, and the hash taken while the count was zero |
| Packfiles.SealedStart | landro-cas/src/packfile.rs:185-276 | the sealed file begins with the format's name, version 1 and the number of chunks, then the data |
| Packfiles.SealedEntryLayout | landro-cas/src/packfile.rs:185-276 | its table has 44 bytes for each chunk: its digest, where in the file its bytes are, and how many |
| Packfiles.SealedFooter | landro-cas/src/packfile.rs:229-276 | its last 32 bytes are the hash of all before them with a count of zero |
| Packfiles.Open | landro-cas/src/packfile.rs:307-374 | which files the asynchronous reader accepts, exactly, and the index it builds |
| Packfiles.MmapOpen | landro-cas/src/packfile.rs:430-555 | the same for the memory-mapped reader |
| Packfiles.OpensIff | landro-cas/src/packfile.rs:307-555 | in numbers: a reader opens a file exactly when it begins with the format's name and version and 44 bytes an entry and the footer fit in it; the memory-mapped one also with no entries and no footer |
| Packfiles.ReadersAgree | landro-cas/src/packfile.rs:307-555 | the readers accept the same files but for those of 26 to 31 bytes with a zero count, 64-bit wrap-around included |
| Packfiles.ReadersDiffer | landro-cas/src/packfile.rs:307-555 | such a file, refused by one reader and opened by the other |
| Packfiles.ReadChunk | landro-cas/src/packfile.rs:377-405 | a digest reads exactly when it is indexed, its position can be sought, its bytes are inside the file or it has none, and they hash to it |
| Packfiles.MmapReadChunk | landro-cas/src/packfile.rs:558-590 | a digest reads exactly when it is indexed, inside the file, and its bytes hash to it |
| Packfiles.ReadsAlike | landro-cas/src/packfile.rs:377-590 | the readers read alike but for empty entries past the end of the file, filed under the digest of nothing |
| Packfiles.EmptyEntryDiffers | landro-cas/src/packfile.rs:377-590 | such a file: both readers open it and find the same entry, one reads it as empty and the other refuses it |
| Packfiles.SealedTable | landro-cas/src/packfile.rs:229-276 | the table of a sealed file parses back to the entries written |
| Packfiles.RoundTrip | landro-cas/src/packfile.rs:185-374 | a sealed file parses to exactly the digests packed and the bytes of data |
| Packfiles.AllLead | landro-cas/src/packfile.rs:185-276 | every indexed digest leads to the bytes of the chunk packed last under it |
| Packfiles.SealAndOpen | landro-cas/src/packfile.rs:185-555 | writing any chunks and opening with both readers: both accept, agree and are faithful |
| Packfiles.ReadSealed | landro-cas/src/packfile.rs:185-590 | and reading any digest with both gives what was packed, or not found exactly when it never was |
| PackfileManagers.PackfileManager.AddChunk | landro-cas/src/packfile.rs:699-714 | the chunk is queued, and the queue flushed exactly when it is long enough; it fails exactly when that flush does |
| PackfileManagers.PackfileManager.StorePacked | landro-cas/src/packfile.rs:717-733 | the chunk is in the current packfile, sealed exactly when due; one of 2^32 bytes or more is refused with nothing changed |
| PackfileManagers.PackfileManager.FlushPending | landro-cas/src/packfile.rs:793-820 | the queue is empty and in the current packfile, sealed exactly when due; it fails exactly when a queued chunk is too large, and then that one and those behind it are gone |
| PackfileManagers.PackfileManager.Finalize | landro-cas/src/packfile.rs:847-857 | everything ever added is in sealed packfiles, as often as it was added, but for what failed flushes dropped; nothing was dropped when no chunk was too large |
| PackfileManagers.PackfileManager.ReadPacked | landro-cas/src/packfile.rs:736-753 | in any state, the first queued chunk of the digest is what is read; nothing is found exactly when no queued and no sealed chunk has the digest; what is found was added |
| PackfileManagers.SealedReadsBack | landro-cas/src/packfile.rs:736-857 | after finalizing with nothing dropped, every added chunk reads back with its bytes and no other digest is found |
| PackfileManagers.PackfileManager.Stats | landro-cas/src/packfile.rs:860-883 | the object count, with what was dropped, lies between distinct digests and chunks added, so it is the number of adds when digests are distinct and no chunk was too large; the size is exact |
| PackfileManagers.CountBounds | landro-cas/src/packfile.rs:860-883 | the count bounds, over any way the chunks are spread over queue, current packfile and sealed ones |
| PackfileManagers.SealKeepsOk | landro-cas/src/packfile.rs:823-844 | sealing moves chunks without losing or doubling any |
| PackfileManagers.SealsInTime | landro-cas/src/packfile.rs:778-785 | the current packfile is sealed exactly when it has reached its size or ten times the least number of chunks |
| PackfileManagers.FlushKeepsOk | landro-cas/src/packfile.rs:793-820 | so does a flush, counting what it drops |
| PackfileManagers.ReadReaders | landro-cas/src/packfile.rs:744-750 | readers asked in any order find a digest exactly when a sealed packfile has it |
| Migrations.Connection.Perform | landro-index/src/migrations.rs:42-97 | a migration or rollback happens entirely with its version row, or not at all |
| Migrations.StepRefuses | landro-index/src/migrations.rs:42-97 | a migration already recorded is not run again, and one without rollback statements is not rolled back |
| Migrations.MigrationManager.Validate | landro-index/src/migrations.rs:257-282 | accepts exactly the registries of versions 1 to k that are empty or hold the target |
| Migrations.MigrationManager.Migrate | landro-index/src/migrations.rs:166-182 | walks the registered versions between current and target, in the right order and direction, to the first failure |
| Migrations.UpInOrder | landro-index/src/migrations.rs:185-198 | the versions are walked upwards each once, in order |
| Migrations.DownInOrder | landro-index/src/migrations.rs:213-226 | and downwards |
| Migrations.BackwardsUndoes | landro-index/src/migrations.rs:80-83 | statements that undo their counterparts, run backwards, undo the whole list |
| Migrations.ClimbStays | landro-index/src/migrations.rs:185-210 | an upward run stops on the ladder at the target or right below the migration that failed; without outside faults it arrives exactly when the ladder does |
| Migrations.DescentStays | landro-index/src/migrations.rs:213-239 | a downward run, where the rollbacks there are undo, stays on the same ladder and stops at the target or at the version that could not be rolled back; without outside faults it arrives exactly when every version on the way has a rollback |
| Migrations.HistoryStays | landro-index/src/migrations.rs:166-239 | any run of attempts, up and down, failing anywhere and also for want of a rollback, keeps the versions at 1 to w and the schema at the fold of the first w migrations, w being the last target exactly when the last attempt succeeded; the rollbacks that exist undo, others need not exist |
| Migrations.HistoryCounts | landro-index/src/migrations.rs:166-239 | whatever any statement does, up or down, any run of attempts on a gapless registry keeps the recorded versions at 1 to w, w being the last target exactly when the last attempt succeeded |
| Migrations.RerunReachesSame | landro-index/src/migrations.rs:166-210 | once a retry gets through, the database is the one an undisturbed migration makes |
| Migrations.UpThenDownRestores | landro-index/src/migrations.rs:166-239 | up and back down restores schema and version table |
| BloomFilters.BloomFilter.Add | landro-daemon/src/bloom_diff.rs:61-70 | the filter represents the items added so far and the new one, bit for bit |
| BloomFilters.Contains | landro-daemon/src/bloom_diff.rs:73-84 | true exactly when every seed's bit is set |
| BloomFilters.BitPlace | landro-daemon/src/bloom_diff.rs:61-84 | bit p is bit p mod 8, from the low end, of byte p / 8 |
| BloomFilters.BitsExact | landro-daemon/src/bloom_diff.rs:61-84 | a bit is set if and only if some added item hashes to it under some seed |
| BloomFilters.SetBitsBounded | landro-daemon/src/bloom_diff.rs:61-70 | at most num_hashes bits are set per element added |
| BloomFilters.AddedPasses | landro-daemon/src/bloom_diff.rs:61-84 | every added item is contained |
| DiffProtocols.DiffProtocolHandler.HandleMessage | landro-daemon/src/bloom_diff.rs:299-517 | the new state and the reply, for every message in every state |
| DiffProtocols.DiffProtocolHandler.StartDiff | landro-daemon/src/bloom_diff.rs:253-297 | a started diff asks for the summary, holds the manifest and begins at zero |
| DiffProtocols.SummaryNoted | landro-daemon/src/bloom_diff.rs:361-424 | a summary is noted under its device, moves that device's diff to 25 percent and its differences to the number of suspected paths, and leaves every other diff alone |
| DiffProtocols.DetailsNoted | landro-daemon/src/bloom_diff.rs:454-474 | details move on only a diff that is requesting them, so in every run none |
| DiffProtocols.OtherAnswers | landro-daemon/src/bloom_diff.rs:299-489 | a folder that is not there is refused, chunk requests are only acknowledged, details are given for every suspected path some manifest holds |
| DiffProtocols.AnyAckCompletesAll | landro-daemon/src/bloom_diff.rs:491-517 | any acknowledgement, a refusal too and from anyone, marks every diff under way as completed |
| DiffProtocols.DiffProtocolHandler.Summarise | landro-daemon/src/bloom_diff.rs:122-150 | a summary's filters represent exactly the paths and hashes of the manifest |
| DiffProtocols.FindSuspected | landro-daemon/src/bloom_diff.rs:394-399 | the suspected paths are the local ones the filter rules out, in order |
| DiffProtocols.CollectDetails | landro-daemon/src/bloom_diff.rs:440-446 | details hold exactly the suspected paths some manifest has, each with an entry of that path |
| DiffProtocols.SuspectedAbsent | landro-daemon/src/bloom_diff.rs:394-424 | every suspected path is local and truly absent from the summarised manifest |
| DiffProtocols.NoDifferencesIff | landro-daemon/src/bloom_diff.rs:394-424 | "no differences" is answered if and only if the path filter passes every local path; otherwise details are requested for exactly those it does not pass |
| DiffProtocols.SamePathsUnsuspected | landro-daemon/src/bloom_diff.rs:394-424 | so a peer with no path the other lacks is told there are no differences, whatever the contents |
| DiffProtocols.RepliesRankLower | landro-daemon/src/bloom_diff.rs:299-517 | every reply ranks below the message it answers |
| DiffProtocols.FallsSilent | landro-daemon/src/bloom_diff.rs:299-517 | in any network and any delivery order there are at most four deliveries per diff started, beyond what was in flight; every event is a delivery or a start |
| DiffProtocols.HandlingStaysInStep | landro-daemon/src/bloom_diff.rs:376-380 | the percentage stays a function of the stage, and three stages are never entered |
| DiffProtocols.RunInStep | landro-daemon/src/bloom_diff.rs:253-517 | in every run, of any peers, folders and manifests, each percentage is the one of its stage and three stages (exchanging summaries, requesting details, transferring chunks) are never reached |
| DiffProtocols.RunGrounded | landro-daemon/src/bloom_diff.rs:253-517 | in every run of any peers, folders and changing manifests: every path a suspicion in flight names was in a manifest of the peer that suspects it when it compared, and missing from the manifest of that folder the other peer summarised; details are of such paths only |
| DiffProtocols.SuspectWasMissing | landro-daemon/src/bloom_diff.rs:253-517 | path by path: in every run a suspected path was there on the one side and missing on the other |
| DiffProtocols.RunKeepsOk | landro-daemon/src/bloom_diff.rs:253-517 | in every run of peers with one folder and unchanging manifests, every details reply is empty |
| ConnectionLimits.RateLimiter.CheckRateLimit | landro-daemon/src/network.rs:231-246 | an attempt is accepted exactly when fewer than the limit were accepted in the last second of the whole history, pruned or not |
| ConnectionLimits.RateLimiter.CleanUp | landro-daemon/src/network.rs:462-470 | the clean-up tick forgets nothing that counts: the pruned logs still track the whole history |
| ConnectionLimits.RateLimiter.NeverExceeded | landro-daemon/src/network.rs:231-246 | no half-open second, of 10^9 nanoseconds, holds more accepted attempts of a peer than the limit, however attempts and clean-ups interleave |
| ConnectionLimits.SpacedBounds | landro-daemon/src/network.rs:231-246 | if any limit + 1 acceptances in a row span a second, no second holds more than the limit |
| ConnectionLimits.Cleaned | landro-daemon/src/network.rs:462-470 | every log keeps exactly its last minute, empty logs go, the history is still tracked |
| ConnectionLimits.BackoffMonotone | landro-daemon/src/network.rs:249-259 | backoff is nothing without failures, the base delay after one, never falls as failures grow and never exceeds its cap |
| ConnectionLimits.BackoffDoubles | landro-daemon/src/network.rs:249-259 | until cap or saturation each failure doubles it |
| ConnectionLimits.PeerConnection.RecordFailure | landro-daemon/src/network.rs:262-272 | the counter is the failures in a row; healthy exactly below a positive threshold |
| ConnectionLimits.PeerConnection.HealthCheck | landro-daemon/src/network.rs:360-390 | the same over successes and failures in any order |
| FileTransfers.FrameReads | landro-daemon/src/simple_sync_protocol.rs:53-90 | a frame is received as its message with the rest untouched if and only if its body is at most 100 MB, truncated lengths included |
| FileTransfers.FrameLayout | landro-daemon/src/simple_sync_protocol.rs:53-67 | a frame is four bytes of the body's length, the high byte first, and the body |
| FileTransfers.FramesRead | landro-daemon/src/simple_sync_protocol.rs:53-90 | any concatenation of such frames is received as the same list of messages |
| FileTransfers.ByteStream.Send | landro-daemon/src/simple_sync_protocol.rs:53-67 | sending appends one frame |
| FileTransfers.ByteStream.Receive | landro-daemon/src/simple_sync_protocol.rs:70-90 | receiving takes what reading the bytes gives, and fails in the same cases |
| FileTransfers.RunsEnd | landro-daemon/src/simple_sync_protocol.rs:108-275 | every run takes at most five steps |
| FileTransfers.NeverStuck | landro-daemon/src/simple_sync_protocol.rs:108-275 | until both have returned one of them can go on |
| FileTransfers.TransferCorrect | landro-daemon/src/simple_sync_protocol.rs:108-275 | both parties agree; they succeed exactly when both messages fit and the disk held, and then the destination is the source |
| FileTransfers.WritesOnlyVerified | landro-daemon/src/simple_sync_protocol.rs:177-275 | whatever bytes arrive in whatever pieces, the destination changes only for data with the announced digest, and success means exactly that data is in place |
| FileTransfers.ReceiverTellsTruth | landro-daemon/src/simple_sync_protocol.rs:177-275 | against any peer the receiver reads at most two messages and sends at most two; a first message that is no request is answered with a refusal, data that does not match what was announced with failure, and success is reported exactly when it is returned, which is when the announced data came and the disk held |
| FileTransfers.SenderBelievesOnly | landro-daemon/src/simple_sync_protocol.rs:108-173 | against any peer the sender first sends its request, sends the file exactly when that was accepted, and returns success exactly when the two messages it read are the acceptance and a completion with success and a verified digest |
| FileTransfers.PartiesAct | landro-daemon/src/simple_sync_protocol.rs:70-275 | neither party waits with a whole frame before it or its stream ended |
| Orchestrators.Orchestrator.RetryFailedOperations | landro-daemon/src/orchestrator.rs:822-866 | which operations are given up, left or retried, and the events queued for them |
| Orchestrators.RetryTick | landro-daemon/src/orchestrator.rs:822-866 | the three cases of a tick, with thirty seconds in nanoseconds |
| Orchestrators.EachBounded | landro-daemon/src/orchestrator.rs:822-866 | each pending operation, over any ticks: its events are all its own, at most max_retries - retry_count, exactly as many once it is given up, and at most one within thirty seconds |
| Orchestrators.EventsAreOfEach | landro-daemon/src/orchestrator.rs:822-866 | the events of the whole list are those of its operations, each treated as if alone |
| Orchestrators.RetriesBounded | landro-daemon/src/orchestrator.rs:822-866 | over any ticks the events emitted by the whole list are exactly the retries it has spent |
| Orchestrators.OncePerWindow | landro-daemon/src/orchestrator.rs:840-843 | however often the ticks come, within thirty seconds a list emits no more events than it has operations last tried before |
| Orchestrators.SpacedTicksEmpty | landro-daemon/src/orchestrator.rs:831-861 | more than max_retries ticks thirty seconds apart empty the list |
| Orchestrators.Orchestrator.ProcessDebouncedChanges | landro-daemon/src/orchestrator.rs:587-643 | within the window nothing happens; after it every change is taken and the planned operations run |
| Orchestrators.PlannedIsAsked | landro-daemon/src/orchestrator.rs:603-636 | the operations run are exactly those the events call for, as often |
| Orchestrators.LastOperation | landro-daemon/src/orchestrator.rs:603-636 | what is run last on a path depends only on which kinds of change it had, not on their order |
| Orchestrators.LastKeptIff | landro-daemon/src/orchestrator.rs:603-636 | for every window and path: what is run last is what the last change asked for if and only if no change to the path asked for an operation of a higher rank, a rename counting as a deletion and then a creation |
| Orchestrators.RecreatedEndsDeleted | landro-daemon/src/orchestrator.rs:603-636 | delete then create in one window runs the deletion last |
| Orchestrators.Orchestrator.ProcessFileBatch | landro-daemon/src/orchestrator.rs:646-697 | every path of a batch is in exactly one wave, no wave exceeds the concurrency limit, and every wave but the last is full |
| Orchestrators.Orchestrator.ProcessBatches | landro-daemon/src/orchestrator.rs:615-636 | every path is in exactly one batch, in order, and every batch but the last is as large as configured |

## Left out

- Compression, and the store with packfiles switched on: the default configuration has neither.
- `delete` in the store: it leaves cache and dedup index behind, so the refinement would not hold across it.
- Two writers of the same digest at once: they share a temporary file. `CrashSafety` interleaves writers of distinct digests.
- The store's methods run one at a time: locks and semaphores around them are not modelled.
- ContentStores.ContentStore.FlushInternal: stores the items of a batch in order. The source spawns them together, so two equal chunks in one batch are two writers of one temporary file, and the second rename can fail; that race is not modelled.
- Errors of the operating system in the store, the packfiles and the indexer: files that cannot be read are skipped in `IndexFolder`, the other operations assume their I/O succeeds.
- Scratch files that a crash leaves under `.tmp/`: recovery never looks at them, so neither does the model.
- CrashSafety.CrashSafe: needs every writer of the run to sync its bytes before it renames; `SafeIffSynced` shows that this is exactly what is needed, and `EachWriterSafe` is about the others.
- CrashSafety.AllOrNothing: needs that the bytes a crash left in the temporary file do not collide with the data; recovery has only the digest to go by.
- StoreRuns.Run: stops at the first operation whose cache eviction never exits, because the source hangs there, and then promises nothing about chunks still buffered; batch hints are assumed truthful, as `FlushSoundIff` shows they must be.
- ContentStores.ContentStore.WriteBatch: `Err(Stalled)` and the `!ok` of `MakeRoom` stand for the loop that never exits; the source has no such error.
- ContentStores.ContentStore.ResumableWrite: the rounds of one transfer with nothing in between and no expiry; rounds between other operations, refused or expired, are `ContinueResumable` and `StoreRuns.Run`.
- ContentStores.ContentStore.Prefetch: which of the digests before the last are still cached is not stated when the cache has no room for them all.
- Scratch file names (UUIDs) are assumed unused, and packfile names (seconds of the clock) distinct.
- Packfiles.ReadSealed: files stay below 2^63 bytes, since positions are signed in seek; chunks have 32-byte digests.
- Packfiles.MmapReadChunk: an entry whose offset plus size passes 2^64, which makes the source panic, is an error like any other here.
- PackfileManagers.PackfileManager.AddChunk: what waits for one packfile stays below 2^63 bytes, as file positions do; loading existing packfiles at start is not modelled.
- Packfile index files, `get_chunk_slice`, garbage collection and repacking.
- The gear table is any table of 64-bit values; that the rolling hash equals a fresh hash of its window is not claimed, since rotation does not distribute over the wrapping sum.
- Manifests.ManifestRootBinds: needs well-formed 32-byte hashes; nanoseconds of the modification time are not hashed and so not bound. Its condition on encodings is exact, by `RootBindsIff`.
- Paths are any strings of bytes here; the source's are UTF-8.
- Merkle proofs: the source returns none.
- Directory walking, ignore patterns, and the database the indexer writes to.
- Migrations.HistoryStays: for the schema, the rollbacks that exist must undo their migrations, since the source runs whatever they say; for the versions `HistoryCounts` needs nothing of them.
- Migrations.Connection.Perform: statements are functions of the schema that may fail, and do not touch the version table; SQL itself is not modelled.
- DiffProtocols.DiffProtocolHandler.HandleMessage: the bytes-saved figure, similarity, texts and times are left out, and a summary whose filter has inconsistent sizes, on which the source panics, is not a message of the model.
- DiffProtocols.RunKeepsOk: peers sync one folder whose manifests do not change during the run; with several folders a details reply can be non-empty. That suspicions are sound is `RunGrounded`, and percentages and stages are `RunInStep`, both without that limit.
- Filter sizes come from floating-point formulas; here any positive number of bits and any number of hashes.
- ConnectionLimits.RateLimiter.CheckRateLimit: the clock does not go back; failure counters do not reach 2^32.
- FileTransfers.TransferCorrect: the JSON codec is any codec that round trips and whose proper prefixes do not decode; streams deliver in order and end when their owner returns; the source file can be read.
- TLS, QUIC, discovery, file watching, the command line, metrics and progress display.
- Database pooling and queries, the resume manager and the path validators: they would add only easy members.
