# Crash, concurrency and chunking proofs for the persistent-memory and CXL samples

The repository contains small programs in which a fast or volatile form has to agree with a simple abstract one
across crashes, interleavings and chunkings. This project models the hardest of them in Dafny and proves that it
does, or, where the code does not keep a promise, gives the input that breaks it and the condition under which the
promise holds.

- **Write-ahead-log accelerator** (`wal_accel/src/aofguard.c`). `Ring`, `WalMachine`, `WalSafety`, `WalTheorems` and `WalCreation`
  describe writer, fsync worker and crash as a machine with one label per store another party can see; `AofGuard` is
  the C code as an object whose methods log those labels, so that every claim about runs holds at every point
  inside every call.
- **Lock server, shared blocks and handoff** (`cxl_memory_sharing`). `HashTable` and `LockProtocol` are the server;
  `SharedMemory` is memory with a non-coherent write-back cache per host; `SharedBlocks` runs writers and readers over
  both, and `LockClients` are their loop bodies as methods with interference between any two steps; `Handoff` and
  `HandoffPeers` are the same for the one-slot producer and consumer; `FlushLoops` are the loops that cover a range with cache lines.
- **Page cache** (`cbs_req/cbs_req_pmem.cpp`). `PageLayout` is the address arithmetic, `PageCache` the persistent and
  volatile state with its operations, `PageCrashes` what start-up makes of every crash, `PageCacheFile` the code on the
  arrays it updates in place.
- **Undo-log transactions**. `UndoLog` is the transaction machine, `PersistentQueue` and `PageIndex` its two users,
  `simple_fifo_queue/queue_pmemobj.cpp` and `cbs_req/cbs_req_pmemobj.cpp`.
- **Bit-level and chunking code**. `Crc`, `ShiftRegister`, `CrcBursts` and `SealedBlocks` (`cxl_memory_sharing/crc.c` and
  its uses), `Sha1` and `Sha1Context` (`wal_accel/src/sha1.c`), `DsaMove` (`cxl_memory_sharing/dsa_move.c`). `CrcVectors` and
  `Sha1Vectors` work published test vectors through the specifications.

## Conventions

- State machines are datatypes with `Enabled`, `Apply` and `Run`; claims about runs are lemmas over all label
  sequences. Code that works in place is a class or a method with loops, specified by functions on values.
- `size_t` and `long` are unbounded where a stated bound keeps the C value from wrapping. Where wrapping is the point
  (SHA-1 counters and words, CRC registers, packed metadata) it is written out.
- The retry loops of `cxl_memory_sharing/lock.c` are the `Receive` step, which asks again when refused; they need not end.
- Choices of the environment are parameters or labels: what an allocator returns, what survives a crash, when a cache
  line is prefetched or evicted, how far a torn store got, when the fsync worker moves.

## Findings

- A ring filled to exactly its capacity stores `buf_end == start`, which start-up reads as empty
  (`wal_accel/src/aofguard.c:158-161`). `CrashSafety` proves that this is the only way an acknowledged byte is lost, and
  `FullRingLosesTheWrite` is a run that loses one.
- A crash between `ftruncate` and the first store of `aofguard_init` over an existing log leaves a zero word, and the next
  start cuts the log to nothing (`CreationWindow`, `LossIsReached`). A crash just before `ftruncate` leaves a ring file of
  the wrong size, which every later start refuses (`RefusedForGood`, `RefusedIsReached`).
- Start-up of the page cache keeps the last page it scans for a request and not the one with the higher sequence number
  (`cbs_req/cbs_req_pmem.cpp:135-140`, against the comment at lines 25 and 213). One crash in the overwrite window is
  harmless but loses a page; that page can later replace an acknowledged write (`LeakedPageComesBack`).
  `RebuildFindsPages` gives the exact condition.
- The handoff delivers every payload exactly once only if the 64-byte flag line is stored in one piece;
  `TornFlagRepeats` is a run that delivers one twice otherwise.
- `queue_deque` returns from inside `TX_BEGIN` on an empty queue (`simple_fifo_queue/queue_pmemobj.cpp:90-92`), so the
  transaction stays open: `Deque` leaves the pool's depth one higher in exactly this case. An enqueue that the same
  process makes afterwards is part of the open transaction, and any power failure takes it back
  (`EnqueAfterEmptyDeque`).
- `sha1_update` does not end for pieces of nearly 2^32 bytes or more: `IndexLoopEnds` gives the exact lengths.
- `dsa_move_data` with a `block_size * job_num` that wraps takes more than there is exactly for the sizes of
  `OverdrawnWhen`, and `__cflush` runs past its range exactly below the first 64 bytes of memory (`Cflush`).

## Hypotheses

- Write-ahead log: the file descriptor appends, successful system calls are whole, the log's content when the ring is
  created is durable, and the log stays below 2^48 bytes.
- Lock protocol: clients follow ask, hold, release; sockets are reliable and first-in first-out.
- Page cache: a request is not in the one block past the disk (line 170 lets those 1024 request numbers through, and the
  index is then left), and a write finds a free page (line 177 only prints, and the free list is then left). Both are
  preconditions of `WriteReq`.
- Undo-log users: one process makes one operation, as `main` does, in the run theorems; `Queue` and `Pool` say what
  further operations in the same process do. libpmemobj makes a transaction begun inside another one part of it.
- Creating the ring file: each of `openat`, `ftruncate` and the two stores takes effect as a whole and in order.
- Hash table keys are not negative. Addresses are those of user space, below 2^63. `dsa_move_data` is called with at least
  one job and a block size of at least one.

## Model

| member | source | states |
|---|---|---|
| Ring.MetaRoundTrip | wal_accel/src/aofguard.c:18-24 | the packed word fits 64 bits, and decodes to its length and start exactly when the length is below 2^48 and the start is block-aligned |
| Ring.SliceConcat | wal_accel/src/aofguard.c:289-298 | consecutive wrapped slices of the ring join to the wrapped slice of both |
| Ring.SliceFrame | wal_accel/src/aofguard.c:289-298 | stores behind the live bytes, wrapped or not, leave every live byte alone |
| Ring.MirrorsDrop | wal_accel/src/aofguard.c:223-228 | giving up the front of the ring keeps ring and file in step, at the advanced file offset |
| Ring.MirrorsExtend | wal_accel/src/aofguard.c:287-299 | file append plus ring copy keep ring and file in step |
| WalSafety.ForwardAligned | wal_accel/src/aofguard.c:224-225 | the assertion that start stays block-aligned always holds |
| WalSafety.ReleaseKeeps | wal_accel/src/aofguard.c:219-231 | releasing durable blocks keeps length sums, ring contents and both persistent words in agreement |
| WalSafety.HandOverKeeps | wal_accel/src/aofguard.c:233-250 | the blocks handed to the worker leave the ring only when they are durable |
| WalSafety.AdvanceKeeps | wal_accel/src/aofguard.c:252-258 | after a synchronous fsync every accepted write fits |
| WalSafety.StoreEndKeeps | wal_accel/src/aofguard.c:299-302 | the one store of buf_end makes the copied bytes live and keeps ring and file in step |
| WalSafety.WordsDecode | wal_accel/src/aofguard.c:150-161 | in every running state the two persistent words decode to the current start, fsync_len and fill, a full ring reading as empty |
| WalSafety.ImageIsPromise | wal_accel/src/aofguard.c:158-161 | what start-up would rebuild is every promised byte if and only if the ring is not exactly full |
| WalSafety.CrashKeepsImage | wal_accel/src/aofguard.c:148-184 | a crash in any state, whatever survives beyond the durable prefix, leaves words start-up accepts and the same image |
| WalSafety.ReplayFrontKeepsImage | wal_accel/src/aofguard.c:170-179 | one write completes the file or leaves exactly the wrapped piece |
| WalSafety.ReplayBackCompletesImage | wal_accel/src/aofguard.c:181-184 | the second write completes the file |
| WalTheorems.StepKeeps | wal_accel/src/aofguard.c:87-310 | every step of writer, worker, crash and start-up keeps the whole invariant |
| WalTheorems.Reachable | wal_accel/src/aofguard.c:87-310 | the invariant, with the assertions at lines 209, 225, 226, 286 and 300 and the one-token handshake, holds after every run |
| WalTheorems.RecoveryRun | wal_accel/src/aofguard.c:148-184 | start-up interrupted by any number of further crashes rebuilds the same image |
| WalTheorems.CrashSafety | wal_accel/src/aofguard.c:148-310 | after any interleaving, a crash at any store and any interrupted start-ups, the file is all acknowledged writes, with the write in flight wholly present or absent, if and only if the ring was not exactly full |
| WalTheorems.RecoveryAdvances | wal_accel/src/aofguard.c:148-184 | start-up never refuses its own files and ends in at most four stages |
| WalTheorems.FullRingLosesTheWrite | wal_accel/src/aofguard.c:158-161 | a single write of exactly the capacity is acknowledged and rebuilt as an empty file |
| WalCreation.EveryRunAgrees | wal_accel/src/aofguard.c:114-193 | whatever crashes interrupt creation, the ring file holds what its place in the code says |
| WalCreation.CreationReachesInit | wal_accel/src/aofguard.c:126-193 | a creation that ends leaves the initial state all claims about runs start from |
| WalCreation.CreationWindow | wal_accel/src/aofguard.c:126-193 | after any run of creation and crashes the log survives recovery if and only if its length had been stored or was zero |
| WalCreation.CrashOutcome | wal_accel/src/aofguard.c:114-193 | for every store at which creation may crash, whether the next start creates, refuses or recovers, and with which length |
| WalCreation.RefusedForGood | wal_accel/src/aofguard.c:116-131 | once the ring file was created and not sized, every later start refuses it |
| WalCreation.LossIsReached | wal_accel/src/aofguard.c:128-191 | a run that sizes the ring file and loses power before the length is stored |
| WalTheorems.BlockedWriterIsFreed | wal_accel/src/aofguard.c:260-269 | a writer blocked on sem_done always has a worker step that lowers a rank, and may go on exactly at rank zero |
| WalTheorems.Acceptance | wal_accel/src/aofguard.c:277-280 | a write is refused exactly when the bytes accepted so far modulo a block plus its length exceed the capacity, whatever the fsync timing |
| WalTheorems.AcceptsMeans | wal_accel/src/aofguard.c:277-280 | that test in the operators of the code |
| WalTheorems.ReturnHandsOver | wal_accel/src/aofguard.c:303-308 | a returning write hands over all whole blocks with one token when none were handed over, and never leaves whole blocks unattended |
| AofGuards.AofGuard.Create | wal_accel/src/aofguard.c:107-132 | first initialisation succeeds for exactly 2 to 65536 blocks and starts from the existing log |
| AofGuards.AofGuard.WorkerTakes | wal_accel/src/aofguard.c:92-94 | the worker's wake-up is the machine's step |
| AofGuards.AofGuard.WorkerFinishes | wal_accel/src/aofguard.c:94-97 | the end of its fsync is the machine's step |
| AofGuards.AofGuard.UpdateAfterFsync | wal_accel/src/aofguard.c:219-231 | the new start, fill, length and persistent word are those of a release of whole blocks |
| AofGuards.AofGuard.HandleAfsyncIfFinish | wal_accel/src/aofguard.c:233-250 | takes the done token and releases the handed blocks exactly when blocks are handed over and the token is there, and otherwise changes nothing; file and acknowledged bytes stay |
| AofGuards.AofGuard.WaitAfsyncDone | wal_accel/src/aofguard.c:260-269 | returns after finitely many worker moves, the handed blocks released |
| AofGuards.AofGuard.Admit | wal_accel/src/aofguard.c:277-286 | a write that fits changes nothing; otherwise makes room, waiting and then synchronising, or refuses, exactly as the acceptance test says |
| AofGuards.AofGuard.NvmMemcpy | wal_accel/src/aofguard.c:34-37 | patches the ring byte by byte, each intermediate state a possible crash state |
| AofGuards.AofGuard.CopyToRing | wal_accel/src/aofguard.c:289-298 | the split copy puts the whole write behind the live bytes |
| AofGuards.AofGuard.Write | wal_accel/src/aofguard.c:271-310 | a refused write leaves file and acknowledged bytes as they were (the poll may have released blocks); every other is acknowledged, appended, and reached by legal steps only, and then blocks are handed to the worker, with exactly one token out, unless less than a block is live |
| AofGuards.AofGuard.PowerFailure | wal_accel/src/aofguard.c:148-161 | any surviving file keeps the image start-up will rebuild |
| AofGuards.AofGuard.Recover | wal_accel/src/aofguard.c:148-184 | start-up over an existing ring always succeeds and leaves exactly the image |
| LockProtocol.DecodeMessage | cxl_memory_sharing/lock.c:36-72 | a request decodes on the server to the block and kind the client encoded |
| LockProtocol.ServeKeepsCount | cxl_memory_sharing/lock_service.c:20-68 | handling one message keeps the stored value equal to the number of grants outstanding |
| LockProtocol.EveryRunIsConsistent | cxl_memory_sharing/lock_service.c:116-149 | for any number of clients every run keeps all counts and the socket discipline |
| LockProtocol.WriterIsAlone | cxl_memory_sharing/lock_service.c:29-47 | an outstanding write grant, held or in flight, is the only grant on its block and the value is 1 |
| LockProtocol.MutualExclusion | cxl_memory_sharing/lock_service.c:20-68 | no run has a writer together with another holder of the same block |
| LockProtocol.ValueCountsGrants | cxl_memory_sharing/lock_service.c:39-58 | the value is 1 exactly for one write grant, 2k for k read grants, and no other odd or negative number is ever stored |
| LockProtocol.ServeGrants | cxl_memory_sharing/lock_service.c:29-67 | a write request is answered 1 if and only if no grant on the block is outstanding, a read request if and only if the block is known and no write grant is outstanding, every other one 0; a release is not answered |
| LockProtocol.WritesAreRemembered | cxl_memory_sharing/lock_service.c:29-37 | a block is known from its first write request on, and for ever |
| LockProtocol.FreeBlockIsGranted | cxl_memory_sharing/lock.c:31-65 | a request that finds its block free ends with the client holding the lock |
| LockProtocol.RefusedAsksAgain | cxl_memory_sharing/lock.c:31-65 | a client holds its lock after an answer of 1 and sends the same request again after 0 |
| HashTables.PrependKeeps | cxl_memory_sharing/hash_kv.c:39-47 | a new node in front of its bucket keeps every key once and in its own bucket, and adds exactly that key |
| HashTables.HashTable.constructor | cxl_memory_sharing/hash_kv.c:8-17 | a new table is well formed and stands for the empty map |
| HashTables.HashTable.GetKeyValue | cxl_memory_sharing/hash_kv.c:51-64 | returns the mapped value or -1; the traversal ends |
| HashTables.HashTable.SetKeyValue | cxl_memory_sharing/hash_kv.c:21-48 | the chains then stand for the map updated at the key, every node still in its own bucket once |
| HashTables.HandleLock | cxl_memory_sharing/lock_service.c:20-68 | table and reply are those of the lock protocol for the decoded message; the reply as a function of the entry found |
| FlushLoops.Cflush | cxl_memory_sharing/rw_info.c:56-67 | flushes, in increasing order, every line with a byte in the range and no other, for an empty range the line of its address; it runs past the range if and only if the bound wraps, which is below the first 64 bytes |
| FlushLoops.Cflushopt | cxl_memory_sharing/rw_info.c:70-77 | flushes, in increasing order, every line with a byte in the range and no other, without the fence |
| FlushLoops.CoversOnce | cxl_memory_sharing/rw_info.c:56-77 | a range has exactly one such sequence of lines |
| FlushLoops.BlockLines | cxl_memory_sharing/rw_info.c:56-77 | whatever covers a block of whole lines, as both loops do, is its lines in order |
| SharedMemory.AfterFlush | cxl_memory_sharing/rw_info.c:70-77 | a flush or eviction writes a dirty line back, forgets it, and touches nothing else |
| SharedMemory.FetchedIsHeld | cxl_memory_sharing/lock_read.c:62-63 | a line that is loaded or prefetched is in the cache from then on |
| SharedBlocks.PutKeeps | cxl_memory_sharing/lock_write.c:70-70 | a torn store under the write lock disturbs no other block, reader or host |
| SharedBlocks.CommitReachesMemory | cxl_memory_sharing/lock_write.c:71-71 | once every line is flushed the whole block is in memory, whatever was evicted before |
| SharedBlocks.ReaderFindsBlock | cxl_memory_sharing/lock_service.c:39-47 | a granted reader's block has been written in full and nobody is writing it |
| SharedBlocks.LoadReadsLatest | cxl_memory_sharing/lock_read.c:62-63 | after the invalidation every line loaded is that of the latest full block, despite prefetches |
| SharedBlocks.EventKeeps | cxl_memory_sharing/lock_write.c:59-78 | every step of any client, cache or server keeps locks, caches and memory consistent |
| SharedBlocks.ReadersGetLatest | cxl_memory_sharing/lock_read.c:55-76 | every completed copy is the block most recently written in full by one writer, and the host keeps seeing it until release |
| SealedBlocks.Seal | cxl_memory_sharing/lock_write.c:61-63 | the last four bytes become the checksum of the rest, which stays |
| SealedBlocks.LoadedIs | cxl_memory_sharing/lock_write.c:63-63 | the trailer is the little-endian word of its four bytes |
| SealedBlocks.ReaderCrcMatches | cxl_memory_sharing/lock_read.c:66-73 | the reader's checksum equals the trailer of its copy and the trailer it loads from shared memory |
| LockClients.OthersDoNotDisturb | cxl_memory_sharing/lock_write.c:65-77 | whatever others do, a client that holds a lock keeps its place and its block keeps its latest content |
| LockClients.Cluster.WriteBlock | cxl_memory_sharing/lock_write.c:68-77 | the writer's pass, with any interference between its steps, leaves its buffer as the latest content of the block, all of it in memory, and the lock given back |
| LockClients.Cluster.ReadBlock | cxl_memory_sharing/lock_read.c:61-74 | the reader's pass returns the latest content of the block, which is what memory holds; its comparison of checksums succeeds, and the lock is given back |
| HandoffPeers.Channel.Produce | cxl_memory_sharing/meta_write.c:51-76 | one pass publishes the buffer whole or nothing; it publishes whenever everything is taken and the flag is clear in memory, or the consumer is back at its flag |
| HandoffPeers.Channel.Consume | cxl_memory_sharing/meta_read.c:49-77 | one pass takes the next payload published, whole, or nothing; it takes it whenever one is pending and the flag is set in memory, or the producer is back at its flag |
| SealedBlocks.HandoffCrcMatches | cxl_memory_sharing/meta_read.c:65-71 | the consumer's assertion never fails |
| Handoff.EventKeeps | cxl_memory_sharing/meta_write.c:51-72 | every step of producer, consumer and caches keeps flag, data lines and payload sequences in agreement |
| Handoff.ConsumeKeeps | cxl_memory_sharing/meta_read.c:52-57 | a completed copy is the pending payload |
| Handoff.ConsumedIsPublished | cxl_memory_sharing/meta_read.c:49-74 | what is consumed is what is published, in order and once each, but for at most one payload pending |
| Handoff.AnnouncedStays | cxl_memory_sharing/meta_read.c:49-52 | a payload whose flag is in memory stays so, and visible to the consumer, whatever the producer and the caches do |
| Handoff.OneSideGoesOn | cxl_memory_sharing/meta_write.c:66-76 | in every run, with the producer at its flag a payload on its way is announced in memory, and with the consumer at its flag an empty slot is |
| Handoff.TornFlagRepeats | cxl_memory_sharing/meta_write.c:66-67 | with a flag line stored in pieces some run delivers a payload twice |
| PageLayout.PageCount | cbs_req/cbs_req_pmem.cpp:42-43 | the number of pages is the one the macro computes, and page ids fit 32 bits |
| PageLayout.IdsAndMetas | cbs_req/cbs_req_pmem.cpp:44-46 | page ids and metadata addresses are inverse to each other |
| PageLayout.PagesFit | cbs_req/cbs_req_pmem.cpp:39-46 | mapped again at any page-aligned base, pages are aligned, apart from each other and the metadata, and inside the mapping |
| PageCaches.WordStandsFor | cbs_req/cbs_req_pmem.cpp:185-208 | the 8-byte words written decode to valid, sn and request as packed |
| PageCaches.OwnerIsLast | cbs_req/cbs_req_pmem.cpp:125-143 | the scan leaves for a request the last page in use for it, or none |
| PageCaches.FreeOfIs | cbs_req/cbs_req_pmem.cpp:125-129 | the scan's free list has every unused page once |
| PageCaches.RecoveredIsSound | cbs_req/cbs_req_pmem.cpp:120-146 | start-up from any sane metadata gives a sound cache |
| PageCrashes.StartUpShows | cbs_req/cbs_req_pmem.cpp:103-143 | start-up on a formatted file leaves the file alone and shows each request the last page in use for it, or none |
| PageCaches.WritePersists | cbs_req/cbs_req_pmem.cpp:181-218 | the persists of a write, in order, leave exactly the new page and its metadata, and nothing of the old |
| PageCaches.WriteKeeps | cbs_req/cbs_req_pmem.cpp:162-218 | a write keeps the cache sound, changes what its request sees and nothing else, and leaks no page |
| PageCaches.DeleteKeeps | cbs_req/cbs_req_pmem.cpp:290-321 | a deletion removes its request alone and leaks no page |
| PageCaches.Conservation | cbs_req/cbs_req_pmem.cpp:162-342 | free pages, pages requests see and leaked pages add up to all pages |
| PageCrashes.RebuildFindsPages | cbs_req/cbs_req_pmem.cpp:125-143 | the scan finds every request's page where it was if and only if no leaked page comes after a live one |
| PageCrashes.RebuildInvertsRunning | cbs_req/cbs_req_pmem.cpp:120-146 | under that condition contents, leaked pages and the free set come back as they were |
| PageCrashes.CrashDuringWrite | cbs_req/cbs_req_pmem.cpp:181-218 | after a crash in any persist of a write, torn page included, the request has its old or new page as the crash point says, one page at most is lost, nothing else changes |
| PageCrashes.CrashDuringDelete | cbs_req/cbs_req_pmem.cpp:309-321 | after a crash around a deletion the request is there or gone, and no page is lost |
| PageCrashes.EveryRunKeeps | cbs_req/cbs_req_pmem.cpp:75-342 | runs with crashes outside the overwrite window never leak, and free plus referenced pages are all pages |
| PageCrashes.CrashAtomicity | cbs_req/cbs_req_pmem.cpp:75-342 | after any such run one more operation takes place as a whole or, crashed, not at all; a page is lost exactly for a crash in the window |
| PageCrashes.ContentsAreFolded | cbs_req/cbs_req_pmem.cpp:75-342 | after any run of writes, deletions and crashes outside the window requests see the plain map changed by exactly the acts that reached their last persist |
| PageCrashes.RestartKeeps | cbs_req/cbs_req_pmem.cpp:103-143 | a restart at rest, after any such run, shows every request what it saw before and frees the same pages |
| PageCrashes.FormatStartsEmpty | cbs_req/cbs_req_pmem.cpp:103-118 | however often formatting is interrupted, the cache starts empty with all pages free |
| PageCrashes.LeakedPageComesBack | cbs_req/cbs_req_pmem.cpp:135-140 | a run in which a page lost in the window later replaces an acknowledged write |
| PageCacheFiles.PageCache.constructor | cbs_req/cbs_req_pmem.cpp:75-149 | on a formatted file metadata stays, a request is there if and only if some page is in use for it, with the content of the last such page, and the free pages are those not in use; on any other file no request is there, all metadata is zero and all pages are free |
| PageCacheFiles.PageCache.WriteReq | cbs_req/cbs_req_pmem.cpp:162-250 | state, return code and the order of persists are those specified; the two-page branch cannot be reached |
| PageCacheFiles.PageCache.ReadReq | cbs_req/cbs_req_pmem.cpp:252-288 | returns the page the request sees, or none exactly when there is none |
| PageCacheFiles.PageCache.DeletePage | cbs_req/cbs_req_pmem.cpp:290-342 | state and persists are those specified; the free list has room; the two-page branch cannot be reached |
| UndoLog.RunIsSane | simple_fifo_queue/queue_pmemobj.cpp:58-81 | whatever a transaction does, what it has not stored to keeps its first value, snapshots included |
| UndoLog.RollsBackIff | simple_fifo_queue/queue_pmemobj.cpp:66-79 | a transaction rolls back from every crash image if and only if every old location it stored to was snapshotted with its first value |
| UndoLog.RollsBackAgain | simple_fifo_queue/queue_pmemobj.cpp:58-81 | a crash during rollback changes nothing about its result |
| UndoLog.GuardedIsCrashSafe | simple_fifo_queue/queue_pmemobj.cpp:58-81 | snapshot before store is enough at every crash point of a transaction |
| UndoLog.OutageChangesNothing | simple_fifo_queue/queue_pmemobj.cpp:58-81 | a crash at any step of a crash-safe transaction, and another inside the recovery, leave what was there before it |
| UndoLog.Pool.TxEnd | simple_fifo_queue/queue_pmemobj.cpp:81-81 | for the outermost transaction frees take effect and memory is what it commits; an inner one stays open; the steps were crash-safe throughout |
| UndoLog.Pool.PowerFailure | simple_fifo_queue/queue_pmemobj.cpp:58-81 | memory is what it was when the open transaction began, or what was committed |
| PersistentQueue.NodesAreDetermined | simple_fifo_queue/queue_pmemobj.cpp:30-38 | memory determines the list of nodes |
| PersistentQueue.EnqueueAppends | simple_fifo_queue/queue_pmemobj.cpp:56-82 | after an enqueue the list is well formed, tail last and head null only if tail is, and the value is at its end |
| PersistentQueue.DequeueTakesFirst | simple_fifo_queue/queue_pmemobj.cpp:93-107 | after a dequeue the list is well formed without its first node, which is freed |
| PersistentQueue.EnqueueRuns | simple_fifo_queue/queue_pmemobj.cpp:58-81 | the steps of an enqueue store to nothing old without its snapshot, in an empty queue and in another, and commit exactly its memory |
| PersistentQueue.DequeueRuns | simple_fifo_queue/queue_pmemobj.cpp:86-108 | so do those of a dequeue, which are none on an empty queue |
| PersistentQueue.BrokenIsNothing | simple_fifo_queue/queue_pmemobj.cpp:56-110 | an operation that breaks off at any step, with any memory left behind and any second crash during recovery, never was |
| PersistentQueue.RunsAreFifo | simple_fifo_queue/queue_pmemobj.cpp:56-110 | any run of transactions, each committed or crashed at any step and rolled back, leaves what a plain FIFO list of the committed ones would hold |
| PersistentQueue.Queue.Enque | simple_fifo_queue/queue_pmemobj.cpp:56-82 | appends one value by exactly the planned steps, which are crash-safe from the begin of the transaction they belong to |
| PersistentQueue.Queue.Deque | simple_fifo_queue/queue_pmemobj.cpp:84-110 | returns and removes the first value by exactly the planned steps, or returns -1 with the transaction left open if and only if the queue is empty |
| PersistentQueue.Queue.Show | simple_fifo_queue/queue_pmemobj.cpp:112-123 | the traversal ends and shows the contents from head to tail; -1 if and only if there are none |
| PersistentQueue.Queue.EnqueAfterEmptyDeque | simple_fifo_queue/queue_pmemobj.cpp:90-92 | after a dequeue of the empty queue an enqueue shows its value, and every later crash takes it back |
| PageIndex.WriteKeeps | cbs_req/cbs_req_pmemobj.cpp:91-143 | in all three cases the page is stored under its request alone, objects stay unshared and every count is the number of pages there |
| PageIndex.WriteRuns | cbs_req/cbs_req_pmemobj.cpp:96-140 | in all three cases the steps store to nothing old without its snapshot, and lead to exactly the specified memory |
| PageIndex.BrokenIsNothing | cbs_req/cbs_req_pmemobj.cpp:91-143 | a write that breaks off at any step, with any memory left behind and any second crash during recovery, never was |
| PageIndex.RunsReadLastWritten | cbs_req/cbs_req_pmemobj.cpp:91-163 | after any run of transactions, each committed or crashed at any step and rolled back, every page reads as it was last written |
| PageIndex.WriteLeaksNothing | cbs_req/cbs_req_pmemobj.cpp:91-143 | overwriting allocates nothing, and every object a write allocates is linked |
| PageIndex.RunsLeakNothing | cbs_req/cbs_req_pmemobj.cpp:91-143 | after any such run every page and block object belongs to a request |
| PageIndex.Index.WriteReq | cbs_req/cbs_req_pmemobj.cpp:91-143 | memory becomes the specified one by exactly the planned steps, which are crash-safe; the request reads as written and every other as before |
| PageIndex.Index.ReadReq | cbs_req/cbs_req_pmemobj.cpp:145-163 | returns the page of the request, or none exactly when there is none |
| Crc.ReflectReverses | cxl_memory_sharing/crc.c:20-46 | ReflectedData is true bit reversal at width 32 |
| Crc.ReflectTwice | cxl_memory_sharing/crc.c:20-46 | and an involution |
| Crc.CheckCrc32 | cxl_memory_sharing/crc.c:350-387 | the nested loops compute the register of the whole buffer |
| Crc.Crc32IsRfc1952 | cxl_memory_sharing/crc.c:350-387 | reflecting bytes and result around the MSB-first loop is the CRC of section 8 of RFC 1952 |
| Crc.CalculateCrc32 | cxl_memory_sharing/crc.c:418-423 | calculate_crc32 is that CRC |
| CrcVectors.DigitsCrc | cxl_memory_sharing/crc.c:418-423 | calculate_crc32 of "123456789" is the check value cbf43926 |
| CrcVectors.PlainDigitsCrc | cxl_memory_sharing/crc.c:350-387 | without reflection it is fc891918 |
| ShiftRegister.FeedAllIsLinear | cxl_memory_sharing/crc.c:367-378 | the register is linear over XOR in its start and its input |
| ShiftRegister.StepsAreFeeds | cxl_memory_sharing/crc.c:367-378 | n shift steps on a whole word equal feeding its top n bits one by one |
| ShiftRegister.WindowIsSeen | cxl_memory_sharing/crc.c:367-378 | no nonzero input of register width leaves the register at zero |
| CrcBursts.BurstChangesCrc | cxl_memory_sharing/crc.c:350-387 | buffers whose bits differ only inside one window of 32 have different checksums |
| CrcBursts.FourBytesChangeCrc | cxl_memory_sharing/crc.c:418-423 | so have buffers of equal length that differ only inside four consecutive bytes |
| Sha1.ScheduleAt | wal_accel/src/sha1.c:14-14 | every word of the 80-word schedule of section 6.1 of RFC 3174 satisfies its recurrence |
| Sha1.ConstantsAreRoots | wal_accel/src/sha1.c:16-20 | the constants of the four groups of rounds are the integer square roots of 2, 3, 5 and 10 times 2^60 |
| Sha1.RotationDoubles | wal_accel/src/sha1.c:4-4 | a rotation by one is doubling modulo 2^32 plus the carry |
| Sha1.RotationsRepeat | wal_accel/src/sha1.c:4-4 | the rotations by 5 and 30 are that one repeated |
| Sha1.StartPattern | wal_accel/src/sha1.c:58-67 | the initial registers are the byte pattern 01 23 ... EF FE DC ... 10 F0 E1 D2 C3 |
| Sha1.WordsHoldBytes | wal_accel/src/sha1.c:6-12 | byte k of word i is byte 4i + k of the block |
| Sha1.DigestDecodes | wal_accel/src/sha1.c:104-106 | the digest read as big-endian words is the registers |
| Sha1.EightDigitsDecode | wal_accel/src/sha1.c:91-95 | the digits that make up the length field stand for the length |
| Sha1Vectors.AbcCompressed | wal_accel/src/sha1.c:22-56 | the compression of the one padded block of "abc" is the value section 7.3 of RFC 3174 leads to |
| Sha1Vectors.AbcDigest | wal_accel/src/sha1.c:69-106 | the digest of "abc" is the one of section 7.3 of RFC 3174 |
| Sha1.PaddedIsBlocks | wal_accel/src/sha1.c:91-103 | the padding of section 4 of RFC 3174 ends on a block boundary |
| Sha1Contexts.MacroIsStep | wal_accel/src/sha1.c:16-20 | the macros' expressions are one round of section 6.1 with renamed registers |
| Sha1Contexts.NextInPlace | wal_accel/src/sha1.c:6-14 | the word computed in sixteen circular slots is the next of the eighty |
| Sha1Contexts.R | wal_accel/src/sha1.c:16-20 | one macro call is one round |
| Sha1Contexts.Transform | wal_accel/src/sha1.c:22-56 | the unrolled in-place form is the compression of section 6.1 |
| Sha1Contexts.CountsGrow | wal_accel/src/sha1.c:71-74 | carry and shifted length keep the two counters equal to the bit length modulo 2^64 |
| Sha1Contexts.FinalCountIsLength | wal_accel/src/sha1.c:93-95 | finalcount is the length field of section 4 |
| Sha1Contexts.IndexLoopEnds | wal_accel/src/sha1.c:76-83 | the loop over whole blocks ends if and only if its 32-bit index reaches the end of the piece without wrapping |
| Sha1Contexts.Sha1Context.Update | wal_accel/src/sha1.c:69-89 | takes in every piece on which the loop ends, whole blocks into the state and the rest into the buffer |
| Sha1Contexts.Sha1Context.Pad | wal_accel/src/sha1.c:96-102 | the padding loop ends, having appended exactly the padding of section 4 |
| Sha1Contexts.Sha1Context.Final | wal_accel/src/sha1.c:91-106 | returns the digest of the padded message |
| Sha1Contexts.DigestOfPieces | wal_accel/src/sha1.c:69-106 | the digest does not depend on how the message is cut into updates |
| DsaMove.PartitionCovers | cxl_memory_sharing/dsa_move.c:51-107 | every byte below the size is in exactly one piece, none empty or above block_size |
| DsaMove.PiecesAreBlocks | cxl_memory_sharing/dsa_move.c:51-107 | piece k starts k blocks in; all pieces but the last are full, and there are as many as the size needs |
| DsaMove.OverdrawnWhen | cxl_memory_sharing/dsa_move.c:50-67 | the remaining size underflows exactly when max_move wraps and the size is above what is left of it |
| DsaMove.Engine.Submit | cxl_memory_sharing/dsa_move.c:55-62 | a slot is submitted only when free and inside the slots given |
| DsaMove.Engine.WaitAll | cxl_memory_sharing/dsa_move.c:73-80 | after the waits the pieces under way are in place, nothing else has changed and all slots are free |
| DsaMove.Engine.SubmitAll | cxl_memory_sharing/dsa_move.c:53-70 | one batch submits consecutive full blocks to all slots |
| DsaMove.Engine.SubmitRest | cxl_memory_sharing/dsa_move.c:83-121 | what is left, at most one batch, fits into the slots with its short last piece |
| DsaMove.Engine.MoveData | cxl_memory_sharing/dsa_move.c:45-131 | for every size that does not underflow the move ends with destination equal to source, the pieces a partition of it into full blocks and one remainder |

## Left out

- AofGuards.AofGuard.Create: does not model `reset` over an existing ring, nor the checks of an existing file's size.
- Failing or partial system calls, `aofguard_deinit` and thread cancellation: errors end the C functions without a promise.
- Libc interposition in `wal_accel/src/inject.c` and `syscall.c`: I/O and file naming.
- Handoff.ConsumedIsPublished: assumes the flag starts clear; the producer's own initial memset of a flag the consumer is reading is not modelled, and both sides run on different hosts.
- SharedMemory.AfterFlush: flushes happen in program order; the weaker ordering of x86 flushes against other stores is not modelled.
- Socket set-up, `select`, disconnects, malformed messages and the server's lack of ownership checks.
- LockProtocol.EveryRunIsConsistent: makes no fairness claim; a client may be refused for ever, as in the source.
- HashTables.HashTable.SetKeyValue: does not model a failing `malloc`, which leaves the table unchanged; `freeHashTable` is left out.
- `CheckCrc4` to `CheckCrc16` and the dispatch in `CrcCheck`: no program of the repository calls them at those widths.
- The two-page branches of `cbs_req/cbs_req_pmem.cpp`: proved unreachable instead of modelled.
- `cached_pages_cnt` of `cbs_req/cbs_req_pmem.cpp`: deletion never lowers it.
- PageCacheFiles.PageCache.WriteReq: the index is an array by request number; the split into block and page within the block is a bijection and is not modelled there.
- PageCacheFiles.PageCache.constructor: the stored page offset is covered by `PagesFit` only; failing allocations and mapping errors are left out.
- `delete_page` and `get_cached_count` of `cbs_req/cbs_req_pmemobj.cpp`: the freed page id stays in the index, and the count starts uninitialised.
- PageIndex.Index.WriteReq: requires a request on the disk, which the source does not test.
- PageIndex.Index.ReadReq: the same.
- PageCacheFiles.PageCache.ReadReq: requires, like `WriteReq` and `DeletePage`, a request outside the block that line 170 lets through; what the source then finds behind its index is not modelled.
- WalCreation.EveryRunAgrees: a call is durable once made; a file system that loses a created file or its size in a crash is not modelled.
- UndoLog.Pool.TxEnd: commit is one step; the library's own redo log for frees and its flushes are part of libpmemobj, not of this repository.
- PersistentQueue.Queue.Deque: does not model how a later abort would unwind into the frame that was left, nor closing a pool with its transaction open.
- Sha1Contexts.Transform: the eighty macro calls are sixteen iterations of five, after which the registers are back in their places.
- Sha1Contexts.Swapped: the little-endian form of `blk0`; the big-endian one is the identity.
- DsaMove.Engine.Wait: a job's bytes arrive when it is waited for; hardware errors and faults are not modelled.
- `simple_fifo_queue/queue_aof.cpp`, the memkind, pmemblk, pmemkv and ssd variants of cbs_req, `dsa_meta_read.c` and `dsa_meta_write.c`, benchmarks, timing, random data and printing.
