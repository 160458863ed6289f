# Verification of Hermod's protocol and algorithm core

Hermod is a peer-to-peer file store. Files are cut into fixed-size chunks, hashed, compressed, encrypted
and stored by content; nodes find each other by gossip, place keys on a consistent-hash ring, repair each
other with Merkle trees and read back with quorums; downloads fetch chunks in parallel from several peers
and survive crashes. This project models that core in Dafny and proves what it is for.

Two forms of model are used. Code that one goroutine runs (a membership table, the hash ring, a parser, the
Merkle builder) is written as classes and methods with the source's own loops and fields, each proved
against a specification function or predicate, and the theorems are lemmas about that specification. Code
whose point is concurrency or failure (the sliding window, the directory pool, the resumable download, the
crash-safe upload, the gossip network, quorum operations, the search flood) is a transition system:
`Enabled`/`Apply` or `Step` describe one atomic step of one goroutine, node, message or crash, an arbitrary
scheduler picks the steps, and the theorems hold for every run.

Abstractions: SHA-256 is a free constructor with leaf and inner domains apart, so it is injective and the
zero value is no hash. AES-GCM is any pair of functions where opening inverts sealing and sealing adds a
16-byte tag. Compression is any partial function with a left inverse.
Clock readings, peers' answers, write errors and the peer selector's choice are parameters or arbitrary.

Files: `Common`, `Sha256`, `Sequences`, `SortedSeqs`, `Indices`, `Lines` are shared ground. `Chunker`, `ChunkFetch`, `StreamWindow`,
`DirectoryPool`, `ResumableDownload`, `PendingUpload`, `StreamCipher` are the data path. `HashRing`,
`Rebalance`, `Membership`, `Gossip`, `Swim`, `MerkleTree`, `VectorClock`, `Conflict`, `Quorum`, `QuorumLimits`, `Handoff` are
the cluster. `SearchFlood` and `Stun` are the peer-to-peer edge.

Where the code does less than its comments or a first reading suggest, the model follows the code:

- A cancelled download can return nil with an incomplete file (`ResumableDownload.CancelledReturnsNil`);
  `NilReturnIff` and `NilAlwaysCompleteIff` say exactly when a nil return is complete, from the file before
  the call.
- `Cluster/conflict/conflict.go:6` says that a causally later version always wins. With three or more
  versions a dominated one can win (`Conflict.DominatedWinner`). `NeverMisledIff` says exactly which candidate
  sets are safe: those without a trap, that is, no `low` that some `top` causally follows while a version
  concurrent with both is stamped no earlier than `top` and earlier than `low` (and the same with a tie).
- The reply to a digest also carries the responder's own copies of entries for which the sender is newer.
  They change nothing at the sender; the digest in the same reply is what transfers state
  (`Gossip.ResponseIsJoin`).
- A directory download reports a file with nothing to fetch as succeeded, although its finalizer never ran
  (`DirectoryPool.NothingToFetchIsNeverFinalized`). The server finalizes fully verified files itself before the
  download (Server/server.go:1870-1885), so with that caller only a manifest without chunks and with a wrong
  root gets there.
- The chunk Merkle root alone does not identify a chunk list; with the count it does. Lists of any two
  different lengths can share a root (`Chunker.RootIdentifiesIff`).
- Cutting an encrypted stream between frames is not detected: a truncation is accepted exactly at multiples
  of the full frame size (`StreamCipher.TruncationDetectedIff`).
- A hint update lands on the first hint with its key, so a target that holds a key twice can end up out of
  order, and then eviction does not drop the oldest (`Handoff.UpdateCanDisorder`, `UpdateKeepsOrderIff`).
- With a replication factor of 1 a joining node receives nothing (`Rebalance.KeyReachesNewNodeIff`).
- A replica acknowledges a quorum write although writing its metadata failed. `QuorumLimits.AlwaysReadsWriteIff`
  says exactly which configurations still read their writes when the targets of a set u may do so: W+R must
  exceed N+|u|, and the resolver must have no room to be misled (R at most 2, or at most one target able to
  answer with older metadata, or nothing but the empty clock before the written one). With three replicas and
  quorums of two, one such replica already breaks the guarantee (`DefaultsTolerateNoLoss`).
- An interrupted upload may be resumed under another data key: the sidecar (Storage/pending/pending.go:100-119)
  does not say which key its chunks were stored with, and the upload command draws a new one each time
  (cmd/handle_upload.go:55-58). The manifest then completes but cannot be read back
  (`PendingUpload.OtherKeyReadsBackIff`); under one key everything can (`UploadRoundTrip`).
- Resumed chunks are recorded again so that "a second crash doesn't lose them" (Server/server.go:1187). A crash
  between the truncation of the sidecar and these records does lose them (`PendingUpload.CrashCostsOnlyTornLines`):
  the upload stays correct but starts over.
- A search does not reach every node within its TTL, not even without losses (`SearchFlood.NearNodeNotReached`);
  `FloodReachesPeers` and `FloodReachesAll` say whom it does reach.
- The STUN parser compares the address family as 16 bits, so it rejects a non-zero reserved byte that
  section 15.1 of RFC 5389 says to ignore.

## Model

| member | source | states |
|---|---|---|
| `Chunker.ChunkReader` | Storage/chunker/chunker.go:103-171 | for any input and chunk size (non-positive means the default) the reader emits exactly the pieces of the input in order, with index, hash and size, also when the reader fails after delivering them |
| `Chunker.SplitTiles` | Storage/chunker/chunker.go:119-171 | piece i is the slice at i*size: pieces tile the input with no gap or overlap, and only the last is short |
| `Chunker.SplitCovers` | Storage/chunker/chunker.go:119-171 | every byte position lies in the piece whose index is its quotient |
| `Chunker.FlattenSplit` | Storage/chunker/chunker.go:176-201 | concatenating the pieces gives the input back |
| `Chunker.TilesDetermine` | Storage/chunker/chunker.go:103-171 | a file of the right length whose slices equal the pieces is the input |
| `Chunker.ComputeMerkleRoot` | Storage/chunker/chunker.go:259-295 | the level-by-level loops compute the recursively defined root over the decoded leaves |
| `Chunker.PairLevel` | Storage/chunker/chunker.go:277-291 | one pass pairs neighbours and the odd last node with itself |
| `Chunker.DecodeLeaves` | Storage/chunker/chunker.go:264-275 | 32-byte hex hashes become their bytes, any other text is hashed |
| `Chunker.LeavesAgreeIff` | Storage/chunker/chunker.go:264-275 | two hash fields give one leaf exactly when they are equal or one is the text whose digest the other spells in hex |
| `Chunker.NextLevelInjective` | Storage/chunker/chunker.go:277-291 | for levels of one length, equal next levels mean equal levels |
| `Chunker.RootInjective` | Storage/chunker/chunker.go:249-295 | for leaf lists of equal length the roots are equal exactly when the lists are |
| `Chunker.RootIgnoresPadding` | Storage/chunker/chunker.go:280-285 | padding an odd leaf list with its last leaf, or replacing a pair by its parent, keeps the root |
| `Chunker.RootsCollide` | Storage/chunker/chunker.go:277-291 | for any two lengths there are lists with one root |
| `Chunker.RootIdentifiesIff` | Storage/chunker/chunker.go:249-295 | over all lists of lengths n and m, equal roots imply equal lists exactly when n is m |
| `Chunker.VerifyMerkleRoot` | Storage/chunker/chunker.go:249-255 | succeeds exactly when the expected root is that of the list |
| `Chunker.BuildManifest` | Storage/chunker/chunker.go:228-244 | the manifest holds the chunks, their total size and their root |
| `Chunker.TotalIsLength` | Storage/chunker/chunker.go:228-244 | the total size of a file's chunk records is the file's length |
| `ChunkFetch.FetchAndVerifyChunk` | Server/downloader/downloader.go:469-560 | returns only bytes with the manifest's hash, asks no peer twice and at most maxRetries+1 in all, and gives up only after maxRetries+1 peers or all candidates, every one of which served something else; with enough retries, only when no candidate is honest |
| `StreamWindow.StepInv` | Server/downloader/downloader.go:298-397 | every step of main or worker keeps: in-flight, queued, buffered and held indices partition [nextExpected, nextDispatch), and output is the in-order concatenation of verified chunks |
| `StreamWindow.StepShape` | Server/downloader/downloader.go:298-397 | every step keeps the partition, the counters and the waiting conditions for any manifest, even one whose hashes no content has |
| `StreamWindow.WindowBound` | Server/downloader/downloader.go:310-347 | fetches in flight, queued results, buffered chunks and the held index together never exceed MaxParallel |
| `StreamWindow.WindowIsFull` | Server/downloader/downloader.go:319-347 | while the main goroutine waits, as many chunks are under way as MaxParallel and the manifest allow |
| `StreamWindow.SendNeverBlocks` | Server/downloader/downloader.go:311-334 | a worker with a result always finds room in the channel, also after an early error return |
| `StreamWindow.ReceiveSatisfiable` | Server/downloader/downloader.go:349-352 | when the main goroutine waits on an empty channel, the very chunk it needs is in flight |
| `StreamWindow.AcquireSatisfiable` | Server/downloader/downloader.go:323-335 | when the dispatcher waits for a semaphore slot, a worker is about to release one |
| `StreamWindow.Progress` | Server/downloader/downloader.go:298-397 | unless the call has returned and all workers have exited, some goroutine can step: no deadlock |
| `StreamWindow.StepRank` | Server/downloader/downloader.go:298-397 | every step of every goroutine lowers one natural number: no livelock |
| `StreamWindow.EveryRunReturns` | Server/downloader/downloader.go:298-397 | for any manifest every schedule ends within 8n+2 steps, and one that can go no further has returned and left no worker behind |
| `StreamWindow.RunInv` | Server/downloader/downloader.go:298-397 | the invariant holds in every state of every run |
| `StreamWindow.StreamRuns` | Server/downloader/downloader.go:298-397 | in every run a nil return means the whole file was written in order, an error leaves a prefix of it, and without failures a genuine manifest returns nil |
| `StreamWindow.NilIff` | Server/downloader/downloader.go:298-397 | in every run and for any manifest with chunks, the call returns nil exactly when no fetch and no write failed and the root is that of the chunk list |
| `StreamWindow.StreamDeliversFile` | Server/downloader/downloader.go:298-397 | with the manifest of a real file, a nil return means the output is that file |
| `DirectoryPool.BuildTaskList` | Server/downloader/downloader.go:647-656 | the first task list holds each unskipped chunk of each file exactly once, in the order of files and chunks |
| `DirectoryPool.StepConserved` | Server/downloader/downloader.go:669-752 | each unskipped chunk stays in exactly one of listed, queued, held, failed, abandoned or written, and nothing else is anywhere |
| `DirectoryPool.StepAccounts` | Server/downloader/downloader.go:728-742 | `Remaining` stays the number of a file's unwritten chunks and a finalizer is due, running or done exactly when it is 0 |
| `DirectoryPool.StepWritten` | Server/downloader/downloader.go:706-727 | every counted chunk stays on disk with its manifest hash, although a failed write may leave anything in its own place |
| `DirectoryPool.StepInv` | Server/downloader/downloader.go:626-774 | all of these, and the order of the log of writes and finalizations, are kept by every step |
| `DirectoryPool.Progress` | Server/downloader/downloader.go:669-752 | until the download is over some goroutine can step, under cancellation too |
| `DirectoryPool.StepRank` | Server/downloader/downloader.go:669-752 | every step but the cancellation lowers a lexicographic rank, so every schedule ends |
| `DirectoryPool.RunInv` | Server/downloader/downloader.go:626-774 | the invariant holds in every state of every run |
| `DirectoryPool.EveryRunCollects` | Server/downloader/downloader.go:669-773 | every schedule takes a bounded number of steps, and one that can go no further than a cancellation has collected its result; what it then holds is `EveryTaskIsRetried` and `SucceedsIff` |
| `DirectoryPool.EveryTaskIsRetried` | Server/downloader/downloader.go:667-752 | in every run that is not cancelled each chunk gets maxRetries+1 tries: it is written exactly when at most maxRetries of them failed, and otherwise all of them failed |
| `DirectoryPool.CancellationStops` | Server/downloader/downloader.go:669-690 | after a cancellation no round begins and the only fetches going on are those going on when it came |
| `DirectoryPool.SucceedsIff` | Server/downloader/downloader.go:626-773 | in every run that is not cancelled a file succeeds exactly when each of its missing chunks failed at most maxRetries times and, if there was one, the manifest is genuine and the rename went through |
| `DirectoryPool.Tally` | Server/downloader/downloader.go:754-773 | succeeded plus failed is the number of files, and the failed list names exactly those with chunks missing or a finalizer error, in order |
| `DirectoryPool.SucceededMeansComplete` | Server/downloader/downloader.go:626-774 | a file with something to fetch is tallied as succeeded exactly when it was finalized once without error; then its manifest is genuine and all its missing chunks are verified on disk |
| `DirectoryPool.FinalizeOnceAndLast` | Server/server.go:1911-1948 | OnFinalize runs at most once per file, after the writes of all its chunks and before none |
| `DirectoryPool.NothingToFetchIsNeverFinalized` | Server/downloader/downloader.go:728-766 | in every run a file with nothing to fetch counts as succeeded although it was never finalized |
| `ResumableDownload.AcceptedSidecarIsForSameChunks` | Storage/resume/resume.go:153-158 | a sidecar is accepted for a manifest exactly when it was created for the same key, size and chunk hash sequence |
| `ResumableDownload.Open` | Storage/resume/resume.go:99-145 | a missing file, an empty one and a bad header are told apart; otherwise the header and the claims of the remaining lines are returned |
| `ResumableDownload.OpenClaims` | Storage/resume/resume.go:99-145 | the claims are exactly the in-range indices the lines after the header parse to |
| `ResumableDownload.RecordedAreClaimed` | Storage/resume/resume.go:63-165 | opening what was created and recorded claims exactly the recorded in-range indices |
| `ResumableDownload.ChunkLenIsTrueLength` | Server/server.go:638-648 | the length fastVerifyChunks computes is each chunk's true length, last one included |
| `ResumableDownload.ChunksDisjoint` | Server/downloader/downloader.go:252-256 | writes at index*ChunkSize never overlap |
| `ResumableDownload.FastVerifyChunks` | Server/server.go:621-661 | keeps exactly the claimed chunks whose bytes on disk have the manifest's hash, for any file and any claims |
| `ResumableDownload.AllGoodIsComplete` | Server/server.go:523-616 | a file of the right size is the original exactly when every chunk's slice has its hash |
| `ResumableDownload.TruncateKeepsGood` | Server/server.go:564-573 | truncating or extending the part file to full size keeps verified chunks |
| `ResumableDownload.BuiltManifestFits` | Storage/chunker/chunker.go:228-244 | what BuildManifest makes of a file's chunk records is a manifest for that file |
| `ResumableDownload.StepInv` | Server/downloader/downloader.go:192-282 | every step, a torn write and a cancellation included, keeps skipped and finished chunks right and every index accounted for |
| `ResumableDownload.StepBooks` | Server/downloader/downloader.go:228-282 | for any manifest, every step keeps each index handled so far skipped, running, failed or done |
| `ResumableDownload.RunInv` | Server/downloader/downloader.go:192-282 | the invariant holds in every state of every run |
| `ResumableDownload.ResumedDownloadIsOriginal` | Server/server.go:523-616 | whatever the part file held and the sidecar claimed, an uncancelled nil return leaves the original file, and every chunk recorded in the sidecar is right on disk |
| `ResumableDownload.NilReturnIff` | Server/downloader/downloader.go:228-282 | a nil return is complete exactly when the file before the call was right in the unskipped chunks the dispatch loop never reached |
| `ResumableDownload.NilAlwaysCompleteIff` | Server/downloader/downloader.go:228-282 | every run that returns nil, cancelled or not, leaves the original exactly when the file is the original before the call |
| `ResumableDownload.RunLedger` | Server/downloader/downloader.go:228-269 | in every state of every run at most MaxParallel workers run, the error slots are those of the chunks that failed, and every finished chunk is recorded once or about to be |
| `ResumableDownload.NilIffNothingFailed` | Server/downloader/downloader.go:192-282 | for any manifest with chunks, cancelled or not, the call returns nil exactly when no fetch and no write failed and the root is that of the list; every finished chunk has been recorded exactly once, and without a cancellation these are all missing chunks that did not fail |
| `ResumableDownload.CleanRunDownloads` | Server/downloader/downloader.go:192-282 | a download of a real file that is not cancelled and in which nothing fails returns nil and leaves the original |
| `ResumableDownload.Progress` | Server/downloader/downloader.go:231-269 | until the call has returned some goroutine can step, for any manifest |
| `ResumableDownload.StepRank` | Server/downloader/downloader.go:231-281 | every step lowers one natural number |
| `ResumableDownload.EveryRunReturns` | Server/downloader/downloader.go:192-282 | for any manifest and any file, every schedule takes at most 6n+3 steps, and one that can go no further than a cancellation has returned and left no worker behind; what it returned is `NilIffNothingFailed` |
| `ResumableDownload.CancelledReturnsNil` | Server/downloader/downloader.go:232-234 | for every job with something to fetch a cancelled run returns nil and leaves the file untouched |
| `PendingUpload.Load` | Storage/pending/pending.go:139-185 | the sidecar's records are the first-come parsable lines after a valid header, a bad header is corrupt, and the completed set is their indices |
| `PendingUpload.RecordsAreFirst` | Storage/pending/pending.go:158-178 | the records are those of exactly the lines whose index no earlier line has, in the order of the lines |
| `PendingUpload.CutLog` | Storage/pending/pending.go:139-185 | a log cut at any byte loads as a prefix of its records or is rejected; uncut it loads in full |
| `PendingUpload.ResumesWhatSurvived` | Storage/pending/pending.go:139-185 | from a log cut at any byte exactly those records are resumed whose lines survived, the last newline aside |
| `PendingUpload.UploadChunks` | Server/server.go:1210-1372 | an attempt appends to the resumed records those of every chunk not yet recorded, in source order, with the flag and the hash of the bytes it stores; it stores all of them by content and overwrites nothing |
| `PendingUpload.ResumeIsRightIff` | Server/server.go:1156-1192 | the resulting chunk list is the source's exactly when the resumed records were a prefix of it |
| `PendingUpload.LoadsSecured` | Storage/pending/pending.go:139-185 | whatever a crash left in the sidecar loads as records 0..k-1 of chunks already stored |
| `PendingUpload.StepInv` | Server/server.go:1156-1372 | every step keeps the sidecar a cut of the log of stored chunks, crashes in the middle of any write included |
| `PendingUpload.RunInv` | Server/server.go:1156-1372 | the same for every state of every run with any number of crashes |
| `PendingUpload.CrashCostsOnlyTornLines` | Server/server.go:1156-1192 | after a crash the next attempt resumes exactly the records whose lines were out: all when nothing was torn, none after a crash between re-creating the sidecar and writing to it |
| `PendingUpload.CrashesAreInvisible` | Server/server.go:1156-1372 | through any number of crashes the sidecar names only stored chunks; a completed upload's manifest lists exactly the source's chunks with its size and root, and its sidecar is gone |
| `PendingUpload.InterruptedEqualsUninterrupted` | Server/server.go:1156-1372 | two completed uploads of one source have the same manifest however often either crashed |
| `PendingUpload.UploadRoundTrip` | Server/server.go:1205-1320 | when an upload completes after any number of crashes, a peer serving its store is honest about every chunk of the manifest: fetched, decrypted and, where the manifest says so, decompressed, it is that piece of the source |
| `PendingUpload.OtherKeyReadsBackIff` | Server/server.go:1167-1192 | an upload resumed under another data key stores something its own key reads back exactly when there was nothing to resume |
| `PendingUpload.SidecarIffSeveralChunks` | Server/server.go:1157-1161 | for a known size a sidecar is kept exactly when there is more than one chunk |
| `PendingUpload.Progress` | Server/server.go:1156-1372 | until the upload is done the process can take a step other than crashing |
| `PendingUpload.EveryUploadEnds` | Server/server.go:1156-1372 | an upload of n chunks with k crashes takes fewer than (k+1)(3n+9) steps, and one that can only crash any more is done |
| `StreamCipher.EncryptStream` | Crypto/crypto.go:28-71 | the read loop emits the frames of the plaintext's 4 MiB pieces under consecutive nonces, also when the source fails after them, and reports that failure |
| `StreamCipher.EncryptStreamPool` | Crypto/crypto.go:76-127 | the pooled encryptor emits the same bytes and reports the same failure, whatever the slab held before |
| `StreamCipher.SealInto` | Crypto/crypto.go:104-105 | sealing into a dirty slab, in place or not, yields the sealed bytes only |
| `StreamCipher.DecryptStream` | Crypto/crypto.go:132-186 | the read loop accepts exactly what the recursive definition accepts, and writes out exactly the plaintext of the good frames before the first bad one |
| `StreamCipher.DecryptInvertsEncrypt` | Crypto/crypto.go:28-186 | decrypting an encryption returns the plaintext, for every plaintext and nonce offset |
| `StreamCipher.DecryptsIff` | Crypto/crypto.go:132-186 | for any cipher and any bytes, decryption succeeds exactly on concatenations of sized frames with consecutive nonces whose sealed texts all authenticate, and yields what they open to |
| `StreamCipher.RefusedFrame` | Crypto/crypto.go:165-174 | a frame with another nonce, or one that does not authenticate, fails the call and releases nothing |
| `StreamCipher.OtherOffsetRejectedIff` | Crypto/crypto.go:28-186 | a non-empty encryption decrypts under another offset exactly when the offsets are one uint64, and otherwise is rejected with nothing released |
| `StreamCipher.OtherKeyRejectedIff` | Crypto/crypto.go:132-186 | an encryption is rejected under a key that authenticates nothing of the first exactly when it is not empty |
| `StreamCipher.LittleEndianDigits` | Crypto/crypto.go:47-55 | sizes and counters are written least significant byte first |
| `StreamCipher.CutDecrypts` | Crypto/crypto.go:132-186 | a cut stream is accepted exactly at frame boundaries, and then decrypts to the pieces before the cut |
| `StreamCipher.TruncationDetectedIff` | Crypto/crypto.go:132-186 | a truncated encryption is accepted exactly when its length is a multiple of 4+12+4194304+16 or nothing is missing |
| `StreamCipher.TruncationReleasesPrefix` | Crypto/crypto.go:132-186 | a truncated encryption, detected or not, never puts out anything but a prefix of the plaintext |
| `StreamCipher.NonceIdentifiesIndex` | Crypto/crypto.go:46-47 | nonces are equal exactly when the uint64 indices are |
| `StreamCipher.NeighboursShareNoNonceIff` | Crypto/crypto.go:28-71 | neighbouring chunks encrypted at their own indices share no nonce exactly when the first fits one frame |
| `StreamCipher.FileNoncesDistinct` | Crypto/crypto.go:28-71 | chunks no larger than a frame, each encrypted at its own index, never share a nonce |
| `HashRing.Ring.constructor` | Cluster/hashring/hashring.go:35-55 | a new ring is the ring of no nodes, placing virtual nodes by the hash of their labels, with 150 virtual nodes and a replication factor of 3 for non-positive settings |
| `HashRing.LabelReads` | Cluster/hashring/hashring.go:68-69 | a label is the address, ":vnode:" and the index in decimal |
| `HashRing.LabelIdentifies` | Cluster/hashring/hashring.go:68-69 | two labels are equal exactly when address and index are, whatever the addresses contain |
| `HashRing.ConfiguredCollisionFreeIff` | Cluster/hashring/hashring.go:59-79 | a constructed ring is free of collisions exactly when the hash tells the labels of its nodes apart |
| `HashRing.RingIsLabelled` | Cluster/hashring/hashring.go:59-79 | on every ring of constructed parameters the positions are those of the labels, each owned by the address in its label |
| `HashRing.ConfiguredRing` | Cluster/hashring/hashring.go:35-79 | if the hash tells the labels apart, any additions to a new ring give the ring of their addresses |
| `HashRing.Ring.AddNode` | Cluster/hashring/hashring.go:59-79 | adds a node's virtual positions, keeps the array sorted, and changes nothing for a member; the result is the ring of the larger set |
| `HashRing.Ring.RemoveNode` | Cluster/hashring/hashring.go:82-107 | removes exactly a node's positions from array and maps; the result is the ring of the smaller set |
| `HashRing.Ring.Search` | Cluster/hashring/hashring.go:189-197 | the binary search returns the first position at or after the hash, wrapping to 0 |
| `HashRing.Ring.GetNodes` | Cluster/hashring/hashring.go:113-144 | returns the min(n, members) members nearest clockwise from the key, nearest first, each once |
| `HashRing.Collect` | Cluster/hashring/hashring.go:129-143 | the loop returns the distinct owners of the positions walked, in the order met, and stops at the limit or after a full turn |
| `HashRing.MetIsCollected` | Cluster/hashring/hashring.go:113-144 | the owners met are in strict order of clockwise distance, and every owner of a position walked is among them |
| `HashRing.RingUnique` | Cluster/hashring/hashring.go:59-107 | two rings of one member set are identical in every array and map |
| `HashRing.AddedIsRing` | Cluster/hashring/hashring.go:59-79 | with collision-free positions an addition gives the ring of the larger set |
| `HashRing.RemovedIsRing` | Cluster/hashring/hashring.go:82-107 | a removal gives the ring of the smaller set |
| `HashRing.AddRemoveRestores` | Cluster/hashring/hashring.go:59-107 | adding a node and removing it restores the ring |
| `HashRing.AddRemoveRestoresIff` | Cluster/hashring/hashring.go:59-107 | on any sorted array with its owners, adding and removing restores every array and map exactly when none of the node's positions was taken |
| `HashRing.OrderOfAdditionsIrrelevant` | Cluster/hashring/hashring.go:59-79 | additions of the same addresses in any order and with repetitions build one ring |
| `HashRing.DistancesDiffer` | Cluster/hashring/hashring.go:113-144 | no two members are equally far from a key |
| `HashRing.OwnersUnique` | Cluster/hashring/hashring.go:113-144 | the specification of GetNodes has one solution |
| `HashRing.OwnersPrefix` | Cluster/hashring/hashring.go:113-144 | asking for fewer owners gives a prefix |
| `HashRing.MinimalDisruption` | Cluster/hashring/hashring.go:59-144 | a join changes a key's owner list only by inserting the new node (dropping the last when full); read backwards, a leave only deletes |
| `Rebalance.OwnersExist` | Cluster/hashring/hashring.go:113-144 | every key has an owner list |
| `Rebalance.ResponsibleIsMember` | Cluster/rebalance/rebalance.go:278-285 | membership in the returned list decides responsibility |
| `Rebalance.OldOwnersWereResponsible` | Cluster/rebalance/rebalance.go:110-186 | whoever is responsible after a join and is not the new node was responsible before |
| `Rebalance.Rebalancer.LocalKeys` | Cluster/rebalance/rebalance.go:256-275 | exactly the stored keys that are not skipped |
| `Rebalance.Rebalancer.MigrateToNewNode` | Cluster/rebalance/rebalance.go:110-186 | sends only unskipped held keys that it can read and deliver and for which both this node and the new one are responsible, and all of those unless it is stopped; nothing while another run is in progress |
| `Rebalance.KeyReachesNewNodeIff` | Cluster/rebalance/rebalance.go:110-186 | a key the new node becomes responsible for reaches it exactly when the replication factor is at least 2 |
| `Rebalance.JoinPreservesPlacement` | Cluster/rebalance/rebalance.go:110-186 | if every responsible node held every unskipped key before a join, every responsible node holds it after the migration |
| `Rebalance.MigrateEach` | Cluster/rebalance/rebalance.go:97-186 | each member sends exactly the keys that both it and the new node are responsible for |
| `Rebalance.MigrateAll` | Cluster/rebalance/rebalance.go:97-186 | running the migration on every old member of an agreed ring preserves placement |
| `Membership.LeIsTotalOrder` | Cluster/membership/membership.go:296-324 | (generation, severity) with absence below is a total order |
| `Membership.MergeKeepsGeneration` | Cluster/membership/membership.go:296-324 | merging digests never adds, removes or re-stamps an entry and never lowers it |
| `Membership.MergeIsMostSevere` | Cluster/membership/membership.go:296-324 | merging leaves a known address at the most severe state told of it at its own generation and touches nothing else |
| `Membership.ClusterState.constructor` | Cluster/membership/membership.go:70-90 | a new table holds the node itself, Alive, at a clock generation of at least 2 |
| `Membership.ClusterState.AddNode` | Cluster/membership/membership.go:111-129 | an unknown address is added Alive at generation 1; a known one is untouched |
| `Membership.ClusterState.RemoveNode` | Cluster/membership/membership.go:134-138 | removes that entry only |
| `Membership.ClusterState.UpdateState` | Cluster/membership/membership.go:143-172 | applied exactly when the address is unknown or the generation is strictly greater |
| `Membership.ClusterState.ForceLocalState` | Cluster/membership/membership.go:186-203 | gives a known entry the new state at the clock or one above its own generation, and changes nothing else |
| `Membership.ClusterState.BumpSelfGeneration` | Cluster/membership/membership.go:344-358 | raises only the node's own generation, to the clock or one above |
| `Membership.ClusterState.SetMetadata` | Cluster/membership/membership.go:207-221 | merges metadata into a known entry only: new values stand, other keys stay |
| `Membership.ClusterState.Digest` | Cluster/membership/membership.go:278-291 | one digest per known address with its current record |
| `Membership.ClusterState.GetNodes` | Cluster/membership/membership.go:236-247 | full records of exactly the known ones asked for, one for each, in the order asked |
| `Membership.ClusterState.Merge` | Cluster/membership/membership.go:296-324 | takes the more severe state at equal generation and asks for exactly the addresses unknown or older here |
| `Gossip.GossipService.DoGossipRound` | Cluster/gossip/gossip.go:178-225 | as many peers as fan-out and the connected others allow, never itself, and digests of exactly the connected nodes and itself |
| `Gossip.GossipService.HandleDigest` | Cluster/gossip/gossip.go:238-353 | merges and registers as `KnownAfterDigest` and `StrangerAfterDigest` say, dials as `DialledIff` says, and replies with the resulting table's digest and the records of exactly the addresses the sender knows more about |
| `Gossip.StrangerAfterDigest` | Cluster/gossip/gossip.go:298-314 | an unknown address is registered exactly when peers are being dialled, it is neither this node nor connected, and some digest calls it Alive; then Alive at the greatest of 1 and those generations |
| `Gossip.KnownAfterDigest` | Cluster/gossip/gossip.go:238-250 | of a known entry only the state changes, to the most severe one told at its own generation |
| `Gossip.DialledIff` | Cluster/gossip/gossip.go:264-331 | of the unconnected strangers exactly those are dialled that are unknown and listed, or known as not Alive with a higher generation told there or in a last word that is Alive |
| `Gossip.GossipService.FirstPass` | Cluster/gossip/gossip.go:265-296 | of the addresses the sender knows more about, queues exactly the unconnected ones that are unknown or whose last digest is Alive while they are not Alive here |
| `Gossip.GossipService.Scan` | Cluster/gossip/gossip.go:297-331 | the second scan registers the unknown, unconnected addresses some digest calls Alive (`Registered` says as what), and queues exactly these and the rejoining ones |
| `Gossip.Registered` | Cluster/gossip/gossip.go:298-314 | a registered stranger is known exactly when some digest calls it Alive, at the greatest of 1 and the generations of those digests |
| `Gossip.GossipService.HandleResponse` | Cluster/gossip/gossip.go:359-437 | its effect on each address is one function of that address's entry and the message; it dials exactly the Alive nodes first heard of in a full record of somebody else |
| `Gossip.GossipService.TakeFull` | Cluster/gossip/gossip.go:375-412 | full records of others are applied in order and decide whom to dial |
| `Gossip.OwnRecordsSkipped` | Cluster/gossip/gossip.go:375-383 | full records of the node itself, by address or fingerprint, change nothing |
| `Gossip.MetadataTakenOver` | Cluster/gossip/gossip.go:385-391 | the metadata of the last full record of an address stands, whether its state was news or not |
| `Gossip.MetadataKept` | Cluster/gossip/gossip.go:385-391 | no metadata key is lost and every value was known or told |
| `Gossip.GossipService.TakeNewer` | Cluster/gossip/gossip.go:414-436 | newer entries of the peer's digest are taken over, own identities excepted, duplicates harmless |
| `Gossip.ReplyWellFormed` | Cluster/gossip/gossip.go:342-352 | a reply has one digest per address and tells exactly the responder's table |
| `Gossip.ResponseIsJoin` | Cluster/gossip/gossip.go:359-437 | each foreign address ends at the maximum of the local record and the peer's |
| `Gossip.HandleAllIsGreatest` | Cluster/gossip/gossip.go:359-437 | after any responses the record is the greatest of what was known and told |
| `Gossip.OrderAndRepetitionIrrelevant` | Cluster/gossip/gossip.go:359-437 | the same responses in any order and with any repetition leave the same record |
| `Gossip.ResponseNeverLowers` | Cluster/gossip/gossip.go:359-437 | no response lowers an entry; a less severe state needs a strictly greater generation |
| `Gossip.DigestNeverLowers` | Cluster/gossip/gossip.go:238-353 | no incoming digest lowers an entry |
| `Swim.CopyStep` | Cluster/gossip/gossip.go:178-437 | a step that reads no clock only copies records, so any property of all records survives it |
| `Swim.StepInv` | Cluster/membership/membership.go:186-358 | every step of any node keeps: generations are clock stamps, one state per stamp, every node believes itself Alive |
| `Swim.RunInv` | Cluster/gossip/gossip.go:178-437 | the same in every state of every run over a lossy, duplicating, reordering network |
| `Swim.GenerationsAreStamps` | Cluster/membership/membership.go:186-203 | no record anywhere is ahead of the clock and two records of one address at one generation agree |
| `Swim.BumpOutranksEverything` | Cluster/membership/membership.go:344-358 | right after a bump a node's own record is strictly newer than every other record of it in tables and messages |
| `Swim.CeilingHolds` | Cluster/membership/membership.go:344-358 | until somebody stamps it anew, no record of the node overtakes the bump in any later state |
| `Swim.EntriesOnlyClimb` | Cluster/membership/membership.go:143-172 | over any run without restart or removal an entry only climbs; Left or Dead turns Alive only at a greater generation |
| `Swim.RefutationWins` | Cluster/gossip/gossip.go:359-437 | a peer that handles any response telling of the bump records the node Alive and keeps it so |
| `Swim.OwnRecordStays` | Cluster/membership/membership.go:344-358 | until somebody stamps it anew, a bumped node holds the record of its bump through every message it handles |
| `Swim.RefutationCompletes` | Cluster/gossip/gossip.go:238-437 | after a bump, any reply of the node itself that reaches a peer makes that peer record it Alive at the generation of the bump from then on |
| `Swim.OwnResponsesTell` | Cluster/gossip/gossip.go:342-352 | a node's own responses tell its own current record, which is Alive |
| `MerkleTree.Build` | Cluster/merkle/merkle.go:53-72 | builds the tree of the sorted keys, whose leaf keys are exactly the given ones |
| `MerkleTree.BuildLevel` | Cluster/merkle/merkle.go:75-93 | the recursion over levels builds the specified tree |
| `MerkleTree.ThreeKeys` | Cluster/merkle/merkle.go:53-93 | the root hash of three keys in any order, written out: sorted leaves, pairs from the left, the odd node with itself |
| `MerkleTree.KeyLeIff` | Cluster/merkle/merkle.go:53-72 | keys are sorted by prefix, else by their first difference |
| `MerkleTree.HashIdentifies` | Cluster/merkle/merkle.go:75-93 | two subtrees have one hash exactly when they are one subtree |
| `MerkleTree.RootHashIffSameKeys` | Cluster/merkle/merkle.go:53-102 | for duplicate-free key lists root hashes are equal exactly when the key sets are |
| `MerkleTree.RootHashIffSameFrontier` | Cluster/merkle/merkle.go:53-102 | two arbitrary key lists, repetitions included, share a root hash exactly when their sorted lists, filled up level by level with their last blocks, agree |
| `MerkleTree.DuplicatesChangeRoot` | Cluster/merkle/merkle.go:53-72 | with duplicates the hash can differ for equal key sets |
| `MerkleTree.DiffCovers` | Cluster/merkle/merkle.go:129-158 | the recursive diff of trees of any two shapes names every key only one side has |
| `MerkleTree.DiffIsPositional` | Cluster/merkle/merkle.go:129-158 | for trees of one depth the recursive diff names exactly the keys at the leaf positions whose keys differ |
| `MerkleTree.Diff` | Cluster/merkle/merkle.go:112-127 | no key twice, the whole symmetric difference, nothing when the roots agree |
| `MerkleTree.Repair` | Cluster/merkle/merkle.go:331-367 | sends exactly mine minus theirs and requests exactly theirs minus mine, each key once, for any key lists |
| `MerkleTree.Dispatch` | Cluster/merkle/merkle.go:349-366 | each diff key goes to send or need exactly when one side alone has it |
| `MerkleTree.HandleSync` | Cluster/merkle/merkle.go:303-317 | answers a root hash with the key list when the key sets differ, and only then for duplicate-free lists |
| `VectorClock.Compare` | Cluster/vclock/vclock.go:76-111 | decides the product order with absent counted as zero |
| `VectorClock.Merge` | Cluster/vclock/vclock.go:60-68 | the least upper bound in that order |
| `VectorClock.IncrementIsAfterIff` | Cluster/vclock/vclock.go:52-56 | an incremented clock is strictly After exactly while the uint64 counter does not wrap |
| `VectorClock.CausalIsOrder` | Cluster/vclock/vclock.go:76-111 | the relation is a partial order compatible with equality |
| `Conflict.Resolve` | Cluster/conflict/conflict.go:44-69 | the loop computes the fold of the pairwise choice |
| `Conflict.WinnerBeatsLater` | Cluster/conflict/conflict.go:44-69 | without hypotheses the winner is dominated by no version from its own position on |
| `Conflict.TwoVersions` | Cluster/conflict/conflict.go:44-69 | of two versions the winner is never dominated |
| `Conflict.WinnerIsLatest` | Cluster/conflict/conflict.go:44-69 | when wall clocks respect causality the winner is the first version with the greatest timestamp and none is causally later |
| `Conflict.NeverMisledIff` | Cluster/conflict/conflict.go:44-69 | over all lists of candidates, in any order and with repetitions, no winner is causally before another candidate, exactly when the candidate set is free of traps |
| `Conflict.TrapFreeWinner` | Cluster/conflict/conflict.go:44-69 | for any list over a trap-free set no listed version causally follows the winner |
| `Conflict.NoMisleadingPath` | Cluster/conflict/conflict.go:50-67 | without traps the best so far never moves to a version that one handled before dominates |
| `Conflict.TiedTrapMisleads` | Cluster/conflict/conflict.go:60-67 | four versions, three of them stamped alike, that elect one another of them causally follows |
| `Conflict.DominatedWinner` | Cluster/conflict/conflict.go:49-67 | {A:2}@5, {B:1}@10, {A:1}@20: the last wins although the first follows it |
| `Conflict.DisagreementMisleads` | Cluster/conflict/conflict.go:49-67 | any two versions whose stamps contradict causality by more than one tick are the outer versions of a trap, so one concurrent version in between makes the dominated one win |
| `Quorum.ResolveRead` | Cluster/quorum/quorum.go:241-252 | the returned clock is that of the resolver's winner |
| `Quorum.ChannelsHaveRoom` | Cluster/quorum/quorum.go:255-272 | with one reply per target no reply ever finds its channel full |
| `Quorum.QuorumsMeet` | Cluster/quorum/quorum.go:130-239 | a write and a read quorum with W+R>N share a target |
| `Quorum.StepInv` | Cluster/quorum/quorum.go:130-272 | every step keeps one message per target and, for targets that keep their metadata, that whoever acknowledged stores and tells the written clock |
| `Quorum.RunInv` | Cluster/quorum/quorum.go:130-272 | the same in every state of every run with delays, losses and timeouts |
| `Quorum.Outcomes` | Cluster/quorum/quorum.go:130-252 | in every run a write succeeds exactly when W targets' successes were taken before its deadline; a read is full exactly with R replies that have metadata, returns what it has at its deadline, and fails exactly without any |
| `Quorum.AcknowledgedAnswer` | Server/server.go:2190-2241 | whoever acknowledged a write has an entry and answers the read with it, even if its metadata write failed |
| `Quorum.ReadYourWrite` | Server/server.go:2190-2241 | when W+R exceeds N plus the number of targets that may lose metadata, a full-quorum read after a successful write never returns a clock causally before the written one, if R is at most 2 or the versions collected are trap-free |
| `Quorum.NoReplyDropped` | Cluster/quorum/quorum.go:255-272 | in no run, whatever metadata is lost, does a reply find its channel full |
| `QuorumLimits.LostMetadataIsStale` | Server/server.go:2190-2222 | a lone replica that acknowledges and loses its metadata makes the read return whatever earlier clock it had |
| `QuorumLimits.PlanRuns` | Cluster/quorum/quorum.go:130-252 | for any earlier metadata, any w acknowledging targets, any of them in u losing their metadata and any order of r answers there is a run that ends so |
| `QuorumLimits.TooFew` | Server/server.go:2190-2241 | when W+R is at most N+|u| some run returns a stale clock |
| `QuorumLimits.Misled` | Cluster/quorum/quorum.go:189-252 | with three or more answers, two targets able to answer with older metadata and a non-empty clock before the written one, some run misleads the resolver although the quorums meet |
| `QuorumLimits.EnoughIsSafe` | Cluster/quorum/quorum.go:130-252 | in an enough configuration no run returns a stale clock |
| `QuorumLimits.AlwaysReadsWriteIff` | Cluster/quorum/quorum.go:130-252 | over all runs and all earlier metadata, a configuration always reads its writes exactly when W+R > N+|u| and R <= 2, or N+|u| <= W+1, or only the empty clock precedes the written one |
| `QuorumLimits.DefaultsTolerateNoLoss` | Server/server.go:1972-1977 | with three targets and quorums of two the guarantee holds exactly when no target may lose metadata |
| `Handoff.Store.constructor` | Cluster/handoff/handoff.go:45-74 | non-positive limits fall back to 200 hints, 24 h and 512 MiB; the store is empty |
| `Handoff.Store.AddHint` | Cluster/handoff/handoff.go:86-115 | over budget the hint is dropped; otherwise the target's list ends with it, without its first when it was full, and other lists stay; the running total stays the sum of stored sizes |
| `Handoff.Store.DeleteHint` | Cluster/handoff/handoff.go:132-147 | removes every hint of the target with the key and subtracts exactly their sizes |
| `Handoff.Store.UpdateHint` | Cluster/handoff/handoff.go:151-164 | replaces the first hint with the key; the total stays right exactly when there is none or the size is unchanged |
| `Handoff.Store.PurgeExpired` | Cluster/handoff/handoff.go:183-199 | keeps exactly the hints younger than maxAge in every list, in any order of targets |
| `Handoff.Remove` | Cluster/handoff/handoff.go:136-145 | the filtering loop keeps the right hints and counts the freed bytes |
| `Handoff.FilteredMembers` | Cluster/handoff/handoff.go:136-145 | a removal leaves exactly the hints its rule keeps |
| `Handoff.DeletionLeaves` | Cluster/handoff/handoff.go:132-147 | after a deletion the target's list holds exactly its hints with another key, in order, and other lists are as they were |
| `Handoff.PurgeLeaves` | Cluster/handoff/handoff.go:183-199 | after a purge every list holds exactly its hints created after the cutoff, in order |
| `Handoff.RunStaysWithinLimits` | Cluster/handoff/handoff.go:86-199 | over every run on an empty store the stored sizes stay within the budget and each list within its cap, when keys determine sizes |
| `Handoff.EvictionDropsOldest` | Cluster/handoff/handoff.go:100-110 | in a list in order of creation the evicted hint is an oldest one and the order is kept |
| `Handoff.RunStaysChronological` | Cluster/handoff/handoff.go:86-199 | over every run whose updates keep the replaced hint's creation time all lists stay in order of creation |
| `Handoff.UpdateKeepsOrderIff` | Cluster/handoff/handoff.go:355-382 | an update with a copy of a stored hint keeps the order exactly when that hint is the first with its key or the next one is as young |
| `Handoff.UpdateCanDisorder` | Cluster/handoff/handoff.go:355-382 | three failed deliveries to a target that holds a key twice leave its list out of order, and the next eviction drops a hint that is not the oldest |
| `SearchFlood.SearchRequestCache.SeenOrAdd` | Server/server.go:452-469 | reports a known id or records a new one at the current time; when that makes more than 100, exactly the entries older than 30 s are evicted |
| `SearchFlood.HandleSearchRequest` | Server/server.go:3550-3617 | when the id was unknown, answers the originator with the local matches if there are any and forwards to every peer but the sender while the TTL lasts; otherwise does nothing |
| `SearchFlood.ForwardsExactly` | Server/server.go:3590-3616 | with a TTL above 1 every peer but the sender gets one copy with one less, and nobody else gets any |
| `SearchFlood.FloodExactly` | Server/server.go:3503-3519 | a search starts with one request of TTL 5 to every peer |
| `SearchFlood.FloodReachesPeers` | Server/server.go:3457-3617 | when a search without losses and evictions has died out, all peers of the originator and of every node that sent it on were reached, and nobody beyond five connections |
| `SearchFlood.FloodReachesAll` | Server/server.go:3457-3617 | if besides no node first heard of it with a TTL of 1, it reached exactly the nodes connected to the originator |
| `SearchFlood.NearNodeNotReached` | Server/server.go:3550-3617 | without that premise a node two connections away is missed: the request that came the long way marks the id and the direct one is dropped |
| `SearchFlood.CopiesWeighLess` | Server/server.go:3590-3616 | all copies of a request together weigh less than (D+1)^TTL |
| `SearchFlood.StepLowersTotal` | Server/server.go:3550-3617 | every handling or loss lowers the total weight of requests in flight, whatever the caches evict |
| `SearchFlood.RunBound` | Server/server.go:3550-3617 | steps taken plus weight in flight never exceed the initial weight |
| `SearchFlood.SearchDiesOut` | Server/server.go:3457-3617 | a search causes at most D*(D+1)^5 deliveries and ends with nothing in flight |
| `SearchFlood.SearchedAtMostOnce` | Server/server.go:3550-3617 | while nothing is evicted each node searches an id at most once and the originator never |
| `Stun.ParseSTUNResponse` | Peer2Peer/nat/nat.go:144-184 | on any bytes the walk stays in bounds, ends, and returns the specified endpoint or error |
| `Stun.WalkAttributes` | Peer2Peer/nat/nat.go:161-183 | the loop ends, in bounds, at the first address attribute the specified walk reaches, or at none |
| `Stun.ParseXORMappedAddr` | Peer2Peer/nat/nat.go:189-222 | decodes IPv4, IPv6, short values and unknown families as specified |
| `Stun.XorWord` | Peer2Peer/nat/nat.go:202-204 | the 32-bit exclusive-or with the magic cookie is the byte-wise one |
| `Stun.DecodeXorIff` | Peer2Peer/nat/nat.go:189-222 | a value decodes to an endpoint exactly when it starts with that endpoint's encoding |
| `Stun.DecodeMappedIff` | Peer2Peer/nat/nat.go:225-237 | the same for the legacy attribute, IPv4 only |
| `Stun.AtIff` | Peer2Peer/nat/nat.go:164-170 | what the walk reads at a position is an attribute exactly when its encoded header is followed by its value |
| `Stun.WalkIff` | Peer2Peer/nat/nat.go:161-181 | the walk ends at an address attribute exactly when only padded attributes of other kinds precede it |
| `Stun.ParsedIff` | Peer2Peer/nat/nat.go:144-222 | over all byte strings, an endpoint is returned exactly for success responses to this transaction whose first address attribute encodes it |
| `Stun.ParseInvertsEncode` | Peer2Peer/nat/nat.go:144-222 | parsing an encoded response with any other attributes before and anything after returns the encoded endpoint |

## Left out

- Transports, TLS, mDNS, the command line, the terminal interface, IPC, health, metrics, tracing and logging: plumbing over libraries that are not part of this model.
- The server's peer lifecycle (announce, disconnect, re-registration under an external address) and the voluntary-leave message: `Swim` covers the table and gossip operations only, with one strictly increasing clock.
- Generations are unbounded; overflow of a uint64 generation is not modelled. Vector-clock counters and nonce counters do wrap.
- Ring theorems assume collision-free virtual-node positions, as 64 bits of SHA-256 practically are; `AddRemoveRestoresIff` says what a collision costs.
- `rereplicate` after a departure, `Server/transfer`, the non-resumable `DownloadToFile`, `serialDownloadToFile`, the legacy `Download` and `Reassemble`: weaker or covered by the same lemmas.
- `SeedInPlace` and the provider records of swarm downloads: the same chunk records without a content store or a sidecar.
- Phi accrual, peer scoring and entropy estimation: floating point. The peer selector is an arbitrary choice among untried candidates.
- Membership.ClusterState.AddNode: does not model the change callback and the LastUpdated field, which nothing here depends on.
- Membership.ClusterState.UpdateState: does not model the change callback and the LastUpdated field.
- Membership.ClusterState.ForceLocalState: does not model the change callback and the LastUpdated field.
- Membership.ClusterState.Merge: does not model the change callback and the LastUpdated field.
- HashRing.Ring.GetNodes: promises nothing on a ring whose virtual-node positions collide; what it returns then depends on the order of additions.
- Rebalance.Rebalancer.MigrateToNewNode: promises nothing on a ring whose virtual-node positions collide.
- ResumableDownload.AcceptedSidecarIsForSameChunks: is about manifests whose stored root is that of their own list; Matches compares the stored roots as they are.
- Upload: a chunk enters the content store atomically and survives a crash (Storage/storage.go:134-216 writes a temporary file and renames it), all attempts of a run have the same source and key, and an attempt's sidecar header is one fixed text. A sidecar write that fails without a crash is ignored by the source; `PendingUpload.ResumeIsRightIff` states what such a gap would do to a later attempt. The two pipeline stages are one loop, as their order of chunks is the reader's.
- Directory download: chunk records are numbered by position, a chunk's slice of its file is one cell of the disk (`ResumableDownload.ChunksDisjoint` says why slices are independent), and the per-chunk error records and progress counts are not kept.
- Quorum: one operation per key at a time, a fixed target set and at most one reply per target. A replica whose metadata write fails keeps its earlier metadata, or, having none, is left with an empty clock.
- Handoff: loading from and saving to disk, and the delivery loop beyond the update it makes. Mutexes are taken to make each call atomic.
- STUN: the text form of an address, and sending the request.
- DownloadToStream's progress callback, and retries inside a fetch: `ChunkFetch.FetchAndVerifyChunk` is one step of `StreamWindow`, `DirectoryPool` and `ResumableDownload`.
