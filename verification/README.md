# pond in Dafny

A model of the parts of pond that carry its promises, with proofs. Each module follows one source
file or package.

- `Queue`, `ChunkMap`, `Cache`: the S3 cache behind the block device. The priority queue and the
  cache are transition systems over the steps of their goroutines, so the theorems quantify over
  every interleaving, with cancellation, closing, duplicate fetches and lost chunks.
- `Transmit`, `Session`: the NBD transmission phase, first the loop that serves one read request,
  then all goroutines of a connection writing to one stream under one mutex.
- `Verity`: the position of leaf hashes in a dm-verity tree and the blocks a verification covers.
- `Bytepack` (with `Utf8`), `ValueFile` (with `Base64`), `ValueReading`, `Signature`: the packed container
  format, the signed text file of a secret value, written and read back, which texts are accepted, and
  what the signature binds.
- `Access` (with `Glob`): three tiers of certificates and the table they are loaded into.
- `CpioFormat`, `Cpio` (with `Paths`), `CpioContents`: the initramfs archive writer, an independent
  reader, and what the reader finds after any calls of the writer.
- `Kmod`, `Tasks` (with `Graph`): the closure of kernel modules, and the init task scheduler.
- `Block`: the block template engine with its ring of recent lines.

Code that works by changing things is a class or a method with loops, proved against a function of
its inputs or of the old state; what the source promises is then proved about that function.
Concurrent code is a state, the actions that are enabled in it, and `Run`, a sequence of states in
which each follows from the one before by one action. Foreign functions (hashes, signatures, key
parsing, timestamps, marker expressions, the backend) are parameters and arbitrary. The whole project
is checked by `dafny verify dfyconfig.toml`.

## What does not hold

Where the code does not meet what one would expect of it, the model keeps the code and states
exactly when the expectation is met.

- A read that leaves its first chunk can return bytes that are not the object's, because ReadAt
  waits for that chunk only: `Cache.CoherentExactlyWithinChunk`, `Cache.StraddlingReadGoesStale`.
- An acquire that is cancelled between its two channels leaves a priority token behind
  (`Queue.AbandonedExactly`). Queues tolerate n such tokens without a deadlock, in all runs, if and
  only if n is below their size (`Queue.ToleratesBelowSize`). A caller that comes to idle queues gets
  them if and only if its own priority channel has room in each (`Queue.AcquiresExactly`), and nobody
  does if and only if abandoned tokens fill both priority channels (`Queue.RefusesEverybody`). A
  low-priority caller that comes and goes lets a blocked normal one in (`Queue.LowReleaseFrees`).
- Packing loses data exactly when the count or a length of an element lies in 0xD800-0xDFFF or above
  0x10FFFF: `Bytepack.PackRoundTrip`, and for a concrete element `Bytepack.SurrogateLengthLost`.
- A value file loses paths that are empty, start with a blank, end in a carriage return, or span
  several lines: `ValueFile.RoundTrip`, for a concrete value `ValueFile.EmptyPathLost`.
- The signature of a value does not bind the number of its paths: last paths moved to the front of the
  blob leave the signed bytes as they are (`Signature.PathsOrBlob`). For single-line paths that is all
  it leaves open (`Signature.SignatureBinds`).
- A read request of length zero, or whose end does not fit 63 bits, is never answered:
  `Transmit.ReadLoop`, `Session.AnsweredExactlyOnce`.
- A hash tree over a single data block has no levels, and the block is compared with whatever lies
  behind the superblock: `Verity.SingleBlockHasNoSlot`. A region that is not block-aligned may have
  its last block left unverified: `Verity.InspectionCovers`, for a concrete region
  `Verity.UnalignedMisses`.
- An archive ends early for a reader exactly when a path given to a call starts, after cleaning, with
  an element named like the trailer: `Cpio.ReadsBackExactly`, for a concrete call
  `Cpio.TrailerLinkEnds`.
- One accepted certificate that never expires keeps all certificates loaded with it from taking
  effect: `Access.EndlessBlocks`.
- A failure during init can keep tasks from starting that do not depend on it
  (`Tasks.FailureBlocksIndependent`). That happens in no run, whatever fails, if and only if from the
  first direct dependent of a task on everything in the order depends on it (`Tasks.HarmlessExactly`).
- Filling a template twice, with values that contain no markers, differs from filling it once exactly
  when some section has fewer lines than its start offset: `Block.FillTwice`, for a concrete template
  `Block.ShortSectionGrows`.

## Model

| member | source | states |
|---|---|---|
| Queue.RunsBalanced | nbd/s3/queue.go:48-102 | in every state of every run, with any number of callers, cancellations and closed queues: normal + low tokens = global tokens + acquires in flight + releases in flight + abandoned tokens, holders make up the global tokens, and no channel exceeds its size |
| Queue.ReleaseNeverBlocks | nbd/s3/queue.go:48-66 | in every balanced state a release can proceed, both when it takes the global token and when it takes a priority token |
| Queue.AllOrNothing | nbd/s3/queue.go:104-134 | on open queues a caller outside a call accounts for no token of any channel, and after a successful call for exactly one global and one priority token of each queue it named; priority tokens left behind by cancelled calls are counted as abandoned |
| Queue.AbandonedExactly | nbd/s3/queue.go:59-102 | a priority token is left behind exactly when a call gives up between its two channels, or a release does because the queue closed |
| Queue.Quiescent | nbd/s3/queue.go:48-134 | when no call is in progress an open queue is empty up to abandoned priority tokens |
| Queue.BlockedWaits | nbd/s3/queue.go:68-102 | a blocked caller is acquiring, on an open queue, at a full channel |
| Queue.WaitChain | nbd/s3/queue.go:48-134 | while every queue has room beyond its abandoned tokens and callers name queues in a common order, a chain of waits for a token of the next caller leads from every caller to one that can go on, so no part of the callers is deadlocked |
| Queue.DeadlockNeedsAbandoned | nbd/s3/queue.go:68-134 | with queues named in a common order a deadlock implies that abandoned tokens fill some queue |
| Queue.NoDeadlock | nbd/s3/cache.go:178-190 | no reachable state is deadlocked while every queue has room beyond its abandoned tokens and callers name queues in a common order |
| Queue.CancelledRun | nbd/s3/queue.go:72-84 | a run in which n acquires were cancelled between their two channels ends with n abandoned tokens and nobody holding the queue |
| Queue.CancellationsWedge | nbd/s3/queue.go:72-84 | for every queue size there is a run of cancellations after which the next normal caller is blocked although nobody holds the queue |
| Queue.ToleratesBelowSize | nbd/s3/queue.go:48-134 | no state with at most n abandoned tokens per queue is deadlocked, over all runs, if and only if n is below the size |
| Queue.AcquiresExactly | nbd/s3/queue.go:68-128 | a caller that has just begun while all others are idle gets all its queues if and only if its own priority channel has room in each |
| Queue.RefusesEverybody | nbd/s3/queue.go:68-102 | with everybody idle the next caller of either priority is refused if and only if the queue has twice its size of abandoned tokens |
| Queue.LowReleaseFrees | nbd/s3/queue.go:54-65 | in a reachable state a normal caller is blocked before a queue full of abandoned normal tokens, and a low-priority caller that acquires and releases unblocks it |
| Queue.ClosingFrees | nbd/s3/queue.go:39-44 | after a queue is closed nobody is blocked at it in any later state of any run; closing touches no caller and no other queue |
| ChunkMap.ChunksTile | nbd/s3/chunk.go:46-57 | a byte belongs to chunk c exactly when it is a byte of the object and c is its offset over the chunk size |
| ChunkMap.NonEmptyInRange | nbd/s3/chunk.go:46-57 | a chunk is non-empty exactly when its number is below the chunk count |
| ChunkMap.BitOfSetBit | nbd/s3/chunk.go:125-142 | setting a bit of the bitmap changes this bit and no other |
| ChunkMap.DoneValid | nbd/s3/chunk.go:122-136 | Done marks its chunk and no other, closes the channel registered for it, which was open, forgets it and no other, and keeps the map consistent |
| ChunkMap.LostValid | nbd/s3/chunk.go:139-145 | Lost unmarks its chunk and no other and keeps the map consistent |
| ChunkMap.CheckValid | nbd/s3/chunk.go:152-176 | a caller told "done" gets a closed channel and one told "not done" the open channel registered for the chunk; nothing else changes |
| ChunkMap.SavedFitsObject | nbd/s3/chunk.go:103-107 | a bitmap whose bits name chunks of the object, or fill up its last byte, passes the loader's size tests, for up to 10 << 20 chunks |
| ChunkMap.SaveLoad | nbd/s3/chunk.go:59-115 | loading a saved map gives back the bitmap exactly when it has at most the ceiling's bytes; for an object of another size it gives the empty map |
| ChunkMap.LoadedTrusted | nbd/s3/chunk.go:79-112 | whatever a file holds, chunks count as cached only if it announces this format, chunk size and object, and no bit lies beyond the bytes the object needs |
| ChunkMap.LoadedExactly | nbd/s3/chunk.go:59-115 | classifies every file: an empty one or one of another version, chunk size or object size is an empty cache, a truncated, foreign or overlong one an error, and from the rest exactly the chunks whose bits are set are taken |
| ChunkMap.Map.Save | nbd/s3/chunk.go:191-232 | the file written, and that it loads back as the same bitmap |
| ChunkMap.Map.MarkDone | nbd/s3/chunk.go:122-136 | the new state is Done of the old one and consistent |
| ChunkMap.Map.MarkLost | nbd/s3/chunk.go:139-145 | the new state is Lost of the old one and consistent |
| ChunkMap.Map.CheckChunk | nbd/s3/chunk.go:152-176 | result and new state are Check of the old one |
| ChunkMap.Map.After | nbd/s3/chunk.go:179-188 | the first marked chunk behind the given one, or that there is none |
| Cache.RunsCoherent | nbd/s3/cache.go:113-223 | in every interleaving of fetches, byte copies, Done, Lost and reads: marked chunks, chunks whose waiters were woken, and the bytes a read took from its first chunk agree with the remote object |
| Cache.AgreementLasts | nbd/s3/cache.go:155-223 | agreement of a chunk with the remote object, once reached in a run, is never lost |
| Cache.NoLostWakeup | nbd/s3/chunk.go:122-176 | a channel handed out as "not done" is open exactly while it is registered for its chunk; when closed the chunk has arrived; the end of any fetch of the chunk closes it |
| Cache.ClosedByItsFetch | nbd/s3/chunk.go:122-136 | only the end of a fetch of its own chunk closes a channel |
| Cache.BitsInRange | nbd/s3/cache.go:155-160 | runs add done bits for chunks of the object only: bits stay below the chunk count, and stray bits of a loaded map below its limit |
| Cache.MapReloads | nbd/s3/chunk.go:191-232 | in every state of every run, also of one that started with a loaded map, the map reloads to the same bits exactly when it has at most the ceiling's bytes |
| Cache.WithinIsFaithful | nbd/s3/cache.go:113-150 | in every run a completed read whose bytes lie in one chunk has returned bytes of the object only |
| Cache.StraddlingReadGoesStale | nbd/s3/cache.go:135-138 | for every read that is not within one chunk there is a run in which it returns other bytes |
| Cache.CoherentExactlyWithinChunk | nbd/s3/cache.go:113-150 | a read returns nothing but the remote bytes in all runs if and only if the bytes it covers lie in the chunk of the first one |
| Cache.ReadLength | nbd/s3/cache.go:113-150 | in every run a completed read has as many bytes as were asked for, unless a chunk's worth or the end of the local file limits it |
| Cache.ReadReturns | nbd/s3/cache.go:113-150 | in every run a completed read of bytes that lie in one chunk of the object has returned all of them, unchanged |
| Cache.ReadCanEnd | nbd/s3/cache.go:113-223 | every run can be continued so that a given read is completed |
| Transmit.FillBogus | nbd/server/proto_transmit.go:145-147 | the filler pattern repeated and cut to the length of the block |
| Transmit.Respond | nbd/server/proto_transmit.go:115-149 | the rows of the truth table |
| Transmit.ReactExplains | nbd/server/proto_transmit.go:91-173 | every round refuses, makes progress, or raises the failure count towards the threshold, and never sends beyond the end |
| Transmit.AnswerableRuns | nbd/server/proto_transmit.go:84-86 | the loop runs exactly for non-zero lengths whose end does not overflow 63 bits |
| Transmit.ReadLoop | nbd/server/proto_transmit.go:77-174 | terminates for every backend that never reads nothing without an error; asks it each time for what is left, a buffer at most; refuses exactly when its first answer is an empty failure; else sends exactly the requested number of bytes, each block the backend's data at its place, or filler exactly when the answer is an empty failure and more than 30 such came since the last error-free one |
| Transmit.EmptyAnswerStalls | nbd/server/proto_transmit.go:110-113 | an empty answer without an error leaves the loop where it is |
| Session.RunsInOrder | nbd/server/proto_transmit.go:13-195 | the invariants of goroutines, mutex, stream and replies hold in every state of every run |
| Session.StreamFraming | nbd/server/proto_transmit.go:20-30 | while no send failed the stream is complete replies and at most one unfinished reply, which belongs to the holder of the mutex; nobody locks the mutex twice |
| Session.ReturnsFit | nbd/server/proto_transmit.go:120-174 | a goroutine that returns has completed a reply exactly when its command is due one, with the right cookie and length |
| Session.AnsweredExactlyOnce | nbd/server/proto_transmit.go:13-195 | when all goroutines have returned, every command that is due a reply was answered exactly once and no other was; the replies make up the whole stream |
| Session.ReceivesExactly | nbd/server/proto_transmit.go:51-195 | a request with the magic number of the protocol that is no plain disconnect is taken up as one job that has to end; any other ends the connection without a reply |
| Session.RepliesServed | nbd/server/proto_transmit.go:51-195 | in every run no reply answers a plain disconnect or a request without the magic number |
| Session.NothingAfterLeaving | nbd/server/proto_transmit.go:32-68 | once the main goroutine has left, no command is taken up in the rest of the run |
| Session.DataIsTheBackends | nbd/server/proto_transmit.go:84-174 | in every run the data of every reply is, block by block, what the answers that the backend gave to its goroutine call for, filler only after more than 30 empty failures |
| Session.SomeoneProceeds | nbd/server/proto_transmit.go:151-174 | while a goroutine has not returned, some goroutine can take a step |
| Session.ClientUnderstands | nbd/server/proto_transmit.go:197-214 | an independent client that knows the lengths it asked for parses the stream into exactly the replies sent |
| Verity.CeilDivTwice | nbd/verity/verity.go:82-89 | dividing with rounding up twice is dividing by the product once |
| Verity.CeilDivShrinks | nbd/verity/verity.go:82-89 | a level is smaller than the one below exactly when a block holds at least two hashes, so only then the loop ends |
| Verity.LayerSize | nbd/verity/verity.go:82-89 | level i has as many blocks as the data blocks over hashes per block to the power i + 1, rounded up |
| Verity.Height | nbd/verity/verity.go:82-89 | the number of levels is the least power that covers all data blocks |
| Verity.LeafOffsetIsLeafLevel | nbd/verity/verity.go:90-94 | the computed offset is where the levels, stored from root to leaves, put the leaf level |
| Verity.SlotInsideLeafLevel | nbd/verity/verity.go:51 | the hash of every data block lies inside the leaf level |
| Verity.SlotsStandard | nbd/verity/verity.go:51 | for block sizes that are powers of two every hash is read where the type 1 format, with its padding of hashes to powers of two, puts it if and only if the hash size is a power of two |
| Verity.Sha256Standard | nbd/verity/verity.go:125-131 | so it is for the one hash function the code supports |
| Verity.SingleBlockHasNoSlot | nbd/verity/verity.go:81-94 | for one data block there are no levels and the hash is looked up behind the superblock |
| Verity.InspectedIsOverlapped | nbd/verity/verity.go:37-43 | only blocks that share a byte with the region are verified |
| Verity.InspectionCovers | nbd/verity/verity.go:37-43 | all blocks of the region are verified if and only if the next block starts at or behind its end or does not exist; an aligned offset guarantees it |
| Verity.UnalignedMisses | nbd/verity/verity.go:37-43 | of two bytes around the end of the first block the second one is not verified |
| Verity.RoundUp | nbd/verity/verity.go:83-86 | division with rounding up |
| Verity.LayerSizes | nbd/verity/verity.go:78-89 | the sizes of all levels |
| Verity.UpperLevels | nbd/verity/verity.go:90-93 | the bytes taken by the levels above the leaves |
| Verity.Verity.FindFirstLeafHash | nbd/verity/verity.go:77-95 | the field becomes the leaf offset |
| Verity.Verity.VerifyBlock | nbd/verity/verity.go:48-75 | succeeds exactly when the block and its hash can be read and match |
| Verity.FormattedVerifies | nbd/verity/verity.go:48-75 | every block verifies in an image into which the hash of each salted block was written at its standard place |
| Verity.ChangeDetected | nbd/verity/verity.go:48-75 | a block of a changed image whose stored hash is untouched verifies if and only if it has the hash of the original block |
| Verity.Verity.Verify | nbd/verity/verity.go:32-45 | succeeds exactly when all inspected blocks match their hashes, which for an aligned offset are all blocks of the region |
| Bytepack.StoredNarrow | lib/bytepack/integer.go:21-36 | an integer survives conversion to 32 bits and UTF-8 exactly when it is a Unicode scalar value |
| Bytepack.Encode | lib/bytepack/integer.go:21-30 | writes the encoding at the place given and nothing else |
| Bytepack.Ceiling | lib/bytepack/bytepack.go:15-20 | four bytes per header integer and the elements |
| Bytepack.Pack | lib/bytepack/bytepack.go:13-43 | never runs past its buffer, and gives a pack of exactly the input if and only if count and lengths are representable |
| Bytepack.Wrap | lib/bytepack/bytepack.go:46-108 | decodes sizes and offsets or fails, for every byte string |
| Bytepack.WrapTiles | lib/bytepack/bytepack.go:46-139 | for every byte string Wrap accepts the elements are in bounds, adjacent and disjoint, and make up everything behind the header |
| Bytepack.HeaderReadsBack | lib/bytepack/bytepack.go:58-75 | the header is read back although decoding runs on into element bytes |
| Bytepack.PackedSizes | lib/bytepack/bytepack.go:58-108 | for a representable count the lengths read are the lengths as stored |
| Bytepack.PackRoundTrip | lib/bytepack/bytepack.go:13-139 | Pack then Unpack is the identity if and only if count and lengths are in [0, 0xD800) or [0xE000, 0x10FFFF] |
| Bytepack.SurrogateLengthLost | lib/bytepack/bytepack.go:27-30 | one element of 0xD800 bytes does not come back |
| Bytepack.SmallPack | lib/bytepack/bytepack.go:24-35 | the bytes of a pack of two small elements |
| ValueFile.RoundTrip | secrets/value/serialize.go:39-177 | reading a written file gives the value with times cut to seconds if and only if its paths are storable, its dates expressible and its binary part packable; writing again gives the same text |
| ValueFile.SuiteExists | secrets/value/serialize.go:39-177 | the assumptions about keys, signatures and timestamps can be met, by a suite that writes and reads back a value |
| ValueFile.EmptyPathLost | secrets/value/serialize.go:39-177 | a value with an empty path is written and does not come back |
| ValueFile.WholeSame | secrets/value/value.go:36-54 | cutting times to seconds changes neither signed bytes nor text |
| ValueFile.PathSurvives | secrets/value/serialize.go:72-79 | a single-line path comes back exactly when it is non-empty, has no leading blank or trailing carriage return and fits a line |
| ValueFile.SplitPathsLost | secrets/value/serialize.go:98-177 | a path that spans lines never comes back |
| ValueFile.FinishBack | secrets/value/serialize.go:98-177 | signer, signature and blob come back exactly when their lengths are representable |
| ValueFile.UnpackableChanges | secrets/value/serialize.go:98-177 | otherwise signature or blob differ |
| ValueFile.ReadBack | secrets/value/serialize.go:98-177 | what the line loop makes of a written file, including when it fails |
| ValueFile.WriteBlob64 | secrets/value/serialize.go:81-96 | base64 cut into lines of 72 characters |
| ValueFile.BlobLinesCut | secrets/value/serialize.go:81-96 | the base64 text is cut every 72 characters and nowhere else, and none of it is lost |
| ValueFile.FileLayout | secrets/value/serialize.go:39-79 | the lines of a file: header, paths, creation, expiry, signer, delimiter and blob, in this order, with names padded to one column |
| ValueFile.Scan | secrets/value/serialize.go:98-177 | the line loop, error cases included |
| ValueReading.RunGathers | secrets/value/serialize.go:98-150 | the line loop succeeds if and only if every line is fine by itself, and then holds all paths in order, the last of each other field and the joined blob lines |
| ValueReading.AcceptsExactly | secrets/value/serialize.go:98-177 | a text is accepted as a value if and only if it has the header, all lines are fine, paths and times are those of its lines, the blob unpacks to a key with the fingerprint of the last Signer line, and the signature verifies |
| ValueFile.Value.ToSign | secrets/value/value.go:36-54 | the bytes under the signature, with random bytes in place of a nonce of another length |
| ValueFile.Value.Verify | secrets/value/value.go:81-95 | succeeds exactly when the signature verifies over these bytes, and panics exactly for a non-empty signature shorter than its nonce |
| ValueFile.Value.Sign | secrets/value/value.go:57-78 | the value keeps the nonce that was signed, so what the signer's key accepts Verify accepts |
| Signature.SignatureBinds | secrets/value/value.go:36-54 | two values with single-line paths have the same signed bytes if and only if they have the same nonce and whole seconds and one is the other with its last paths moved to the blob |
| Signature.PathsOrBlob | secrets/value/value.go:49-52 | last paths moved as lines to the front of the blob leave the signed bytes as they are |
| Signature.SignedText | secrets/value/value.go:36-54 | the signed bytes are the nonce, a text whose lines are a header, both times in seconds and the paths, and the blob |
| ValueFile.Value.Serialize | secrets/value/serialize.go:39-70 | the file, what was already written when packing fails, and when it panics |
| ValueFile.Value.Deserialize | secrets/value/serialize.go:98-177 | the value read, whose signature verifies; what the object holds after a failure, and when it panics |
| Access.ValidateCertificate | secrets/access/cert.go:148-195 | succeeds exactly for complete, genuine certificates in force with absolute paths and capabilities of one tier, in whatever order they are met; panics exactly when it meets an empty path before a relative one |
| Access.AcceptedExactly | secrets/access/acl.go:148-170 | a certificate is accepted if and only if it is in order and either for administrators and signed by the master key, or for users and signed by someone who passes the matching manager check on all its paths |
| Access.CheckMeaning | secrets/access/acl.go:173-193 | for a literal directory Check passes exactly when the key has a valid row at or below it |
| Access.AncestorsPass | secrets/access/acl.go:173-193 | whoever passes a check on a directory passes it on the directories above |
| Access.ACL.Validate | secrets/access/acl.go:148-170 | administrators are signed by the master key, users by a signer who passes the required check for each path and capability |
| Access.Insert | secrets/access/acl.go:118-139 | adds one row per path and capability |
| Access.RowsGrant | secrets/access/acl.go:118-139 | the rows made of a certificate grant what its paths, capabilities and period say and nothing else |
| Access.ACL.LoadCerts | secrets/access/acl.go:82-145 | the tier's rows are replaced by those of the certificates accepted against the old table, or nothing changes; it is rolled back if one of them cannot be inserted and crashes if validating one panics |
| Access.ACL.Select | secrets/access/acl.go:83-96 | exactly the accepted certificates, unless validating one panics |
| Access.EndlessBlocks | secrets/access/acl.go:124-136 | an accepted certificate that never expires rules out that the load is committed |
| Access.ACL.Load | secrets/access/acl.go:62-80 | administrators first, users against the new administrators, and what is left after either fails |
| Access.LoadReplaces | secrets/access/acl.go:97-139 | no older row of the loaded tier remains, the other tier keeps its rows, and every new row comes from an accepted certificate |
| Access.CheckAfterLoad | secrets/access/acl.go:62-193 | who passes a check after a load: with nothing to hinder it whoever an accepted certificate grants it, and in the other tier whoever passed before; otherwise whoever passed before |
| Access.AdminRowsFromMaster | secrets/access/acl.go:148-152 | rows with administrator capabilities come from certificates signed by the master key |
| Access.UserRowsFromAdmins | secrets/access/acl.go:153-168 | the signer of a user row passes every check, for the capability required of signers, that the row passes |
| Access.LoadedDelegation | secrets/access/acl.go:62-193 | after a complete Load a user who passes a check has a certificate in order that covers the directory, capability and time, signed by an administrator whose own certificate, signed by the master key, covers the matching capability there at load time |
| Access.RowsHaveOrigin | secrets/access/acl.go:82-145 | over any history of loads every row comes from a certificate accepted by an earlier load |
| Access.DelegationChain | secrets/access/acl.go:62-193 | over any history of loads whoever passes a user check has such a certificate from an earlier load, and its signer one from a still earlier load, signed by the master key |
| Glob.PrefixExactly | secrets/access/acl.go:178-182 | for a literal path the pattern "path*" matches exactly the texts that start with it |
| Glob.StarExtends | secrets/access/acl.go:178-182 | a pattern that ends in a star still matches longer texts |
| CpioFormat.ReadBack | initramfs/cpio/header.go:27-55 | an independent newc reader gets back every representable entry, whatever follows it |
| CpioFormat.ArchiveRoundTrip | initramfs/cpio/cpio.go:119-188 | a closed archive reads back as its entries in order if and only if none is named like the trailer |
| CpioFormat.Aligned | initramfs/cpio/header.go:27-55 | every header and the data behind it start on a four-byte boundary |
| Cpio.AddedOrdered | initramfs/cpio/cpio.go:119-183 | adding anything keeps directories unique and in front of their contents |
| Cpio.CallsOrdered | initramfs/cpio/cpio.go:57-183 | after any successful calls every ancestor directory has exactly one entry, before everything it contains |
| Cpio.ClosedArchiveReadsBack | initramfs/cpio/cpio.go:57-188 | any successful calls and Close give an archive that reads back as exactly the entries written if and only if none is named like the trailer |
| Cpio.ReadsBackExactly | initramfs/cpio/cpio.go:57-188 | the same condition on the calls: no path whose cleaned form starts with an element named like the trailer |
| Cpio.TrailerLinkEnds | initramfs/cpio/cpio.go:96-117 | a link named like the trailer is accepted, and the closed archive does not read back |
| CpioContents.ArchiveHolds | initramfs/cpio/cpio.go:57-188 | which calls succeed; after them the closed archive reads back with exactly the copied files, their content and mode, and the links, each once and in order, and besides nothing but the directories above them |
| Paths.CleanLeads | initramfs/cpio/cpio.go:126-127 | the cleaned elements of a path lead to the place that the path leads to |
| Cpio.Archive.Write | initramfs/cpio/cpio.go:119-166 | missing ancestors, then the entry; fails exactly for empty or absolute paths, without effect, and for wrong sizes, with a header and data that do not match |
| Cpio.Archive.Parents | initramfs/cpio/cpio.go:127-134 | the missing ancestors of a path, outermost first |
| Cpio.Archive.Emit | initramfs/cpio/cpio.go:136-165 | header, data and padding of one entry, and the output after a size mismatch |
| Cpio.Archive.MkDir | initramfs/cpio/cpio.go:168-183 | a directory entry unless there is one |
| Cpio.Archive.CopyFile | initramfs/cpio/cpio.go:57-93 | a regular file is added once per source and destination |
| Cpio.Archive.LinkFile | initramfs/cpio/cpio.go:96-117 | a link is added once per target and name |
| Cpio.Archive.Close | initramfs/cpio/cpio.go:186-188 | appends the trailer |
| Kmod.ParseKmodTree | initramfs/cmd/mkinitrd/kmod.go:20-49 | the tree of all files or the failure of the first mismatch |
| Kmod.ParsesOneKernel | initramfs/cmd/mkinitrd/kmod.go:31-41 | parsing succeeds exactly when, once a file names a kernel release, all later ones name the same |
| Kmod.LastFileWins | initramfs/cmd/mkinitrd/kmod.go:42-45 | a name has the data of the last file of that name |
| Kmod.NamesFromFiles | initramfs/cmd/mkinitrd/kmod.go:42-45 | every name in the tree comes from such a file |
| Kmod.ParsedInjective | initramfs/cmd/mkinitrd/kmod.go:22-47 | no two modules share a path |
| Kmod.Collector.Add | initramfs/cmd/mkinitrd/kmod.go:71-88 | terminates on cyclic dependencies too; collects only reachable modules, on success none of them without its dependencies, and fails only if a reachable module is missing |
| Kmod.Collect | initramfs/cmd/mkinitrd/kmod.go:57-63 | succeeds exactly when every reachable module exists, with exactly the reachable paths |
| Kmod.FindKernelModules | initramfs/cmd/mkinitrd/kmod.go:51-69 | the same with each module's place in the archive |
| Kmod.DestIs | initramfs/cmd/mkinitrd/kmod.go:56-67 | a module is placed in the directory of its kernel under the part of its path behind the last slash |
| Tasks.Init.Start | initramfs/pid1/main.go:85-100 | starts exactly reachable tasks, each once, dependencies first; fails only if a reachable task is unknown |
| Tasks.Walk | initramfs/pid1/main.go:78-100 | succeeds exactly when all tasks the target reaches are known, and gives them in an order with dependencies first and the target last |
| Tasks.RunsKeepInv | initramfs/pid1/tasks.go:32-71 | in every run each started task is running, done or failed, and its direct dependencies are done |
| Tasks.DependenciesDone | initramfs/pid1/tasks.go:32-56 | in every run a task starts only after everything it depends on, however indirectly, finished without error |
| Tasks.FailureBlocks | initramfs/pid1/tasks.go:50-56 | in every run a failed task keeps all its direct and indirect dependents from starting |
| Tasks.OnceOnly | initramfs/pid1/tasks.go:39-60 | in every run no task is started twice and no channel closed twice |
| Tasks.ReachedAllDone | initramfs/pid1/main.go:78-83 | when the target is reached everything it depends on is done and nothing failed or is running |
| Tasks.Progress | initramfs/pid1/tasks.go:32-48 | while nothing failed and the target is not reached, some step is possible |
| Tasks.StuckExactlyOnFailure | initramfs/pid1/main.go:78-100 | a run that cannot go on has reached its target if and only if no task failed |
| Tasks.StuckAtFirstDependent | initramfs/pid1/main.go:93-99 | otherwise it stands at the first task that directly depends on a failed one, or the target failed |
| Tasks.IndependentsDone | initramfs/pid1/main.go:85-100 | then all that depends on no failure is done if and only if all that was not started depends on one |
| Tasks.HarmlessExactly | initramfs/pid1/main.go:85-100 | in every run that gets stuck all that depends on no failure is done, whatever fails, if and only if from the first direct dependent of a task on everything in the order depends on it |
| Tasks.FailureBlocksIndependent | initramfs/pid1/main.go:85-100 | a run that is stuck with a task not started although it does not depend on the failed one |
| Tasks.RunsEnd | initramfs/pid1/tasks.go:32-56 | every run for n tasks with m dependencies has at most 2n + m + 1 steps |
| Block.Fill | lib/block/template.go:32-114 | the ring-buffer loop computes the specification, which keeps the whole body, for every input, errors and panics included |
| Block.CopyBack | lib/block/template.go:78-83 | the lines put back from the ring, and that the index is out of range exactly when the end offset exceeds the body and the ring has two lines or more |
| Block.TailIsSuffix | lib/block/template.go:78-92 | for an end offset within start offset and body the ring gives the last lines of the body |
| Block.FillsDocument | lib/block/template.go:32-114 | every section of a document becomes its first lines, the value and the lines put back; all else stays; it fails exactly when a section is missing |
| Block.BadStartFails | lib/block/template.go:44-53 | behind any well-formed document a start marker whose offset is no number makes the text fail |
| Block.BadEndFails | lib/block/template.go:64-83 | an end marker makes the text fail if it names another section or its offset is no number, and panics if it asks a ring of two or more for more lines than there are |
| Block.UnclosedFails | lib/block/template.go:101-114 | a section that is never closed makes the text fail unless all sections were filled before it |
| Block.TailAgain | lib/block/template.go:78-92 | lines put back from the ring of a long enough body are put back again, whatever the end offset |
| Block.RefillBody | lib/block/template.go:63-97 | filling a filled body changes nothing if it was as long as the start offset, and otherwise makes it longer |
| Block.FillTwice | lib/block/template.go:32-114 | with values that contain no markers, filling a filled document gives it back if and only if every section had at least its start offset of lines |
| Block.ShortSectionGrows | lib/block/template.go:32-114 | a template with a short section that is filled differently the second time |

## Left out

- S3, sockets, files, locks on files, timers and logging: cancellation, timeouts and failed sends are
  steps that may happen at any time.
- Cryptography, SSH key formats and RFC 3339 formatting: functions of a suite with the properties the
  code relies on (`ValueFile.Suite.Faithful`).
- Power loss and corruption of local files: a chunk is lost only by the step that clears its bit.
- Background integrity checks, autosave and cache eviction of nbd/s3: schedules around modelled calls.
- NBD negotiation, and the payload of write requests, which two goroutines read at once.
- `err` of proto_transmit.go is shared by the main goroutine and the read goroutines; the model gives
  each its own.
- secrets/repo, the secretd and secretctl commands, DHCP, mounting, ELF parsing, entropy seeding.
- Text consists of single-byte characters; integers are unbounded except where a width is written out.
- Queue.RunsBalanced: callers name each of their queues once and release them in reverse order.
- Cache.RunsCoherent: a fetch copies any number of bytes in one step; a local file longer than the object is never
  truncated, and its surplus is not claimed to mean anything.
- Transmit.ReadLoop: requires that the backend does not read nothing without an error, on such answers
  the loop does not end.
- Signature.SignatureBinds: requires paths of single-byte characters.
- Verity.Verity.Verify: requires that the superblock is not at offset zero and that a hash block holds
  two hashes if there are two data blocks, because the level loop does not end otherwise; offsets stay
  within 63 bits.
- Cpio.Archive.Write: calls are atomic, the races between the mutexes of concurrent calls are not
  modelled.
- Cpio.ClosedArchiveReadsBack: requires that no name is 4 GiB long.
- CpioContents.ArchiveHolds: says what reads back for names below 4 GiB and paths that do not start with
  the trailer's name; for the others `Cpio.ReadsBackExactly` says that the archive ends early.
- Verity.FormattedVerifies: there is no formatter in the program; the image is one whose hashes lie
  behind its data and fit into it.
- Access.ACL.LoadCerts: the clock is read once per call; rows form a set.
- Access.CheckMeaning: requires a non-empty directory, on an empty one the program panics.
- Access.DelegationChain: requires that certificate paths have no GLOB metacharacters; the directory
  that is checked may have them.
- Kmod.FindKernelModules: the result is a set, the program lists it in arbitrary order; metadata of
  module files is given.
- Kmod.DestIs: takes paths as the tree holds them, those of files; on a path that ends in a slash
  filepath.Base gives the element before it.
- Tasks.Init.Start: requires a table without cycles, on others the recursion does not return; the
  table is not changed while tasks run, and the map of channels is read without races.
- Tasks.RunsKeepInv: every task has a worker; results are always collected.
- Block.FillTwice: requires values without markers and that an empty line is none.
- Block.FillsDocument: requires sections whose markers are closed in order; Block.Fill has no such
  condition.
- Block.Fill: lines are given, so line splitting, the longest line a scanner accepts and the trimming
  of values by Set are not modelled; a start offset too large to allocate is not an error.
