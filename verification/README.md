# Verified models of YAFFS2 and RT-Thread 4

This project models the two systems the device firmware carries and proves what they promise: the
YAFFS2 flash file system as a log-structured store, and the RT-Thread 4 kernel's message passing,
scheduling and heaps.

**YAFFS2.** Flash is a set of erasable blocks to which tagged pages are appended. RAM keeps each
file's chunk map, the chunk bitmap, block states and counters. `BlockTable` and `ChunkBits` keep the
space accounting; `FlashLog` states what the log owes the RAM index, `FlashOps` the writes, resizes
and garbage collection, `MountScan` and `ScanOrdering` the backward mount scan, `FlashRuns` whole runs
in which a collection may come between any two page writes, and `FlashRecovery` what a mount finds
after such a run: everything, unless a collection has copied a file's header inside a write call that
had already gone past the old end, as in `TornWrite`. `FlashDevice` runs these operations in place.
`FileCache`, `FileBytes`, `ChunkAddress`, `FileDevice` and `FileRefinement` put the short-op cache in
front of the chunks and show that files behave as plain byte arrays; `FileRecovery` joins the two. `Tnodes`, `TnodeTree`, `TnodePrune`,
`TnodeCheckpt` and `TnodeRuns` are the bit-packed look-up tree. `CheckptStream`, `CheckptRoundTrip`
and `CheckptDevice` are the checkpoint byte stream, `EccTable`, `Ecc`, `EccDoubles` and `PackedTags` the
protected tags.

**RT-Thread.** One step is the code between an interrupt-disable and the next interrupt-enable.
`WaitList`, `RingList` and `Wakeups` are the suspend lists and the counting of resumed threads;
`MessagePool`, `MessageQueue` and `MessageQueueObject` the message queue; `Mailbox`, `MemoryPool`,
`Mutex` and `Event` the other objects; `ReadyGroup`, `Scheduler` and `SchedulerStart` the single-core
scheduler with 32 priorities; `Tiling`, `SmallHeap`, `SmallHeapObject`, `MemHeap` and `MemHeapObject` the two heaps.

Code that changes state in place is a class whose methods are proved equal to specification functions;
the theorems are about those functions, over every input and every run. Timers appear as "a suspended
thread with a time limit may time out at any step". Contents of object headers, bytes to write, and
the outcomes of space checks, erasures and block choice are parameters.

## Model

| member | source | states |
|---|---|---|
| `FlashRecovery.MountAfterRun` | yaffs2/yaffs_yaffs2.c:1039-1086 | after any run of page writes, cached chunks, size assignments, hole headers, resizes, truncations, block skips and collections, any of them between any two page writes, a scan newest page first finds of every file not being truncated and without chunks in the cache alone its newest header, the size, and all chunks but those the order of the writes says are cut off; the file is back whole if and only if none is cut off and that size is the one in RAM |
| `FlashRecovery.NoneLost` | yaffs2/yaffs_guts.c:3678-3681 | no chunk is cut off when the last header of the file was written while the size in RAM reached every chunk, as it does outside a write call that has gone past the old end |
| `FlashRecovery.StaysLost` | yaffs2/yaffs_guts.c:2495-2509 | a chunk cut off by a header copied inside a write call stays lost to every mount until that chunk or a header of the file is written again |
| `TornWrite.FirstChunkLost` | yaffs2/yaffs_guts.c:2495-2509 | a nine-step run, one write call of two chunks with a collection between them, after which the call has returned, the flash holds both chunks and a mount finds the file without the first |
| `FlashRecovery.FlushedSurvives` | yaffs2/yaffs_guts.c:3808-3825 | once a file at rest has been flushed, whatever came before, a mount finds it whole after any further run of collections and of work on other files |
| `FlashRecovery.MountFindsFiles` | yaffs2/yaffs_yaffs2.c:1039-1086 | after any run the files a mount finds are exactly the files in RAM |
| `FlashRecovery.MountInSortedOrder` | yaffs2/yaffs_yaffs2.c:924-935 | while sequence numbers stay below 2^31, sorting the blocks by the source's signed comparison and walking them backwards is a newest-first scan, and recovers a file under exactly the same condition |
| `FlashRecovery.RunTracks` | yaffs2/yaffs_guts.c:2399-2540 | over every run the cut off chunks and the readable size of a file are what its page writes, page copies and header writes make them, one after the other |
| `FlashRuns.StepInv` | yaffs2/yaffs_guts.c:2996-3050 | every step keeps the log invariant, in the middle of a write call, a resize or a collection: mapped chunks carry their file's tags and are the newest with them, no shrink header cuts one off, and every dead data page is superseded, about to be, past the end, or cut by a shrink header that outlives it |
| `FlashRuns.RunInvariant` | yaffs2/yaffs_guts.c:2542-2641 | the log invariant holds at the end of every run that starts from it |
| `FlashRuns.CollectIsRun` | yaffs2/yaffs_guts.c:2542-2641 | one collection of a block, whatever it copies, is a run of such steps |
| `MountScan.MountFinds` | yaffs2/yaffs_yaffs2.c:1039-1086 | from any state of the invariant, the middle of an operation included, the backward scan finds of a file its newest header, the size its newest pages reach and every mapped chunk that header does not cut off |
| `MountScan.RecoversIff` | yaffs2/yaffs_yaffs2.c:1309-1317 | so it brings the file back whole exactly when the header cuts nothing off and that size is the size in RAM |
| `MountScan.ScanPrefix` | yaffs2/yaffs_yaffs2.c:937-1345 | after each page scanned, what is known of a file is exactly what there is to find of it among the pages seen so far |
| `MountScan.DeadRejected` | yaffs2/yaffs_yaffs2.c:1039-1086 | a dead data page meets a filled position or a limit that excludes it, whatever the scan has found by then |
| `FlashOps.GcBlockPreserves` | yaffs2/yaffs_guts.c:2542-2641 | collecting a block keeps the invariant, every file's size, every object header's contents and the bytes of every chunk of every file, in the middle of a resize too |
| `FlashOps.GcCopySame` | yaffs2/yaffs_guts.c:2399-2540 | copying one live page leaves every chunk and header readable as before |
| `FlashLog.EraseInv` | yaffs2/yaffs_guts.c:2320-2397 | erasing a block without pages in use and without a shrink header keeps the whole invariant: no mapped chunk, header or needed shield was in it |
| `FlashLog.GcBeginKept` | yaffs2/yaffs_yaffs2.c:119-134 | dropping a block's shrink protection is safe when every older block is full of live pages |
| `FlashLog.MarkedOpens` | yaffs2/yaffs_yaffs2.c:831-917 | a protected shrink header shields everything past the end, so the file may grow over a hole |
| `FlashLog.HoldInv` | yaffs2/yaffs_guts.c:3600-3642 | a chunk kept in the cache may move the end of the file: dead pages at its place stay accounted for until it is written |
| `FlashLog.CutSizeInv` | yaffs2/yaffs_guts.c:3737-3765 | with the chunks past it gone, the new size of a truncated file may be set in RAM before any header records it |
| `FlashOps.PutChunkBody` | yaffs2/yaffs_guts.c:2996-3050 | a data write sets the bytes of its own chunk and of no other |
| `FlashOps.PutHeaderInv` | yaffs2/yaffs_guts.c:3277-3415 | a header write keeps the invariant, moving a pending truncation or extension on as the header's kind says |
| `FlashOps.WriteBody` | yaffs2/yaffs_guts.c:3516-3692 | a write of any number of chunks, hole header first if it starts past the end, sets exactly the chunks it covers and leaves the size the larger of the old one and its own end, set once after the loop |
| `FlashOps.WriteInv` | yaffs2/yaffs_guts.c:3516-3692 | it keeps the invariant, finished or given up for lack of space |
| `FlashOps.ExtendInv` | yaffs2/yaffs_guts.c:3767-3806 | a resize upwards, the size set between its two headers, keeps the invariant |
| `FlashOps.TruncateBody` | yaffs2/yaffs_guts.c:3696-3806 | a truncation drops exactly the chunks at or past the new size, rewrites the chunk the size falls into, and leaves other files alone |
| `FlashOps.TruncateInv` | yaffs2/yaffs_guts.c:3696-3806 | the truncation as one piece, the size set before its header is written, keeps the invariant whenever its writes find space |
| `ScanOrdering.ScansInOrder` | yaffs2/yaffs_yaffs2.c:1347-1512 | the sorted block walk visits every page once, newest first, with one sequence number per block and numbers below 2^31 |
| `FlashDevice.Device.CollectBlock` | yaffs2/yaffs_guts.c:2542-2641 | the copy loop of the collector, run in place, does what the specified collection does |
| `FlashDevice.Device.BlockOkForGc` | yaffs2/yaffs_yaffs2.c:119-134 | a FULL block the shrink header rule lets through is safe to collect |
| `FlashDevice.Device.FindRefreshBlock` | yaffs2/yaffs_yaffs2.c:141-193 | the oldest FULL block is safe to collect |
| `FlashDevice.Device.DoFileWr` | yaffs2/yaffs_guts.c:3516-3685 | the write loop in place, with the size assignment after it, does what the specified write does |
| `FlashDevice.Device.WrFile` | yaffs2/yaffs_guts.c:3687-3692 | hole header, loop and size in place are the specified write |
| `FlashDevice.Device.ResizeFileUp` | yaffs2/yaffs_guts.c:3767-3806 | the in-place extension sets the size between its two headers, as specified |
| `FlashDevice.Device.ResizeFileDown` | yaffs2/yaffs_guts.c:3696-3765 | the in-place truncation does what the specified one does |
| `FlashDevice.Device.Mount` | yaffs2/yaffs_yaffs2.c:1347-1512 | the in-place mount, from block index to last page, finds what the mount theorem says of every file, from whatever point of an operation the power went at |
| `FileRecovery.MountReadsPlain` | yaffs2/yaffs_yaffs2.c:1039-1086 | files written through the cache as plain byte arrays, logged with collections in between and flushed read back after a mount, chunk by chunk from flash, with the length and the bytes of the plain arrays |
| `FileRecovery.RunBacked` | yaffs2/yaffs_guts.c:2399-2540 | after any run the chunk bodies and sizes are those of the last writes: headers, collections and copies change none |
| `FileRecovery.CacheWrites` | yaffs2/yaffs_guts.c:1422-1431 | writing a slot back, writing it through and writing a whole chunk past the cache each leave the store the cache sits on equal to what the log then holds |
| `BlockTable.AccountingHolds` | yaffs2/yaffs_guts.c:4960-4983 | after any enabled run from a formatted device n_free_chunks equals the recount and n_erased_blocks the number of EMPTY blocks, exactly so whenever no checkpoint is being written |
| `BlockTable.RunInv` | yaffs2/yaffs_guts.c:388-514 | every enabled run of allocation, deletion, soft deletion, purging, block skips, collection, empty-block collection, retirement and checkpoint open, take, close and invalidation keeps: pages_in_use is the popcount of the block's bits, one ALLOCATING block at most, no bit at or past alloc_page, distinct sequence numbers, exact counters |
| `BlockTable.ProbeFinds` | yaffs2/yaffs_guts.c:388-432 | the cyclic finder stops at an EMPTY block whenever one lies within its tries |
| `BlockTable.TakeBlockSucceeds` | yaffs2/yaffs_guts.c:388-432 | while n_erased_blocks is positive the finder does find an erased block |
| `BlockTable.ChunkDelInv` | yaffs2/yaffs_guts.c:2938-2994 | deleting a chunk, with the erasure or retirement it may set off, keeps the accounting |
| `BlockTable.SoftDelInv` | yaffs2/yaffs_guts.c:1191-1205 | a soft deletion moves the free count and the block's soft count together |
| `BlockTable.CheckptCloseInv` | yaffs2/yaffs_checkptrw.c:358-397 | closing a checkpoint settles the blocks it took |
| `BlockTable.BlockDev.FindAllocBlock` | yaffs2/yaffs_guts.c:388-432 | the allocator loop, in place, does what the specified search does |
| `BlockTable.BlockDev.EraseCheckpoint` | yaffs2/yaffs_checkptrw.c:27-62 | the erasing loop, in place, does what the specified erasure does |
| `BlockTable.BlockDev.CountFreeChunks` | yaffs2/yaffs_guts.c:4960-4983 | the counting loop returns the recount that n_free_chunks must agree with |
| `ChunkBits.SetMembers` | yaffs2/yaffs_bitmap.c:58-64 | setting a bit adds exactly that chunk to the set the bytes stand for |
| `ChunkBits.ClearMembers` | yaffs2/yaffs_bitmap.c:50-56 | clearing a bit removes exactly that chunk |
| `ChunkBits.CountIsCard` | yaffs2/yaffs_bitmap.c:87-97 | the sum of the byte weights is the number of chunks in the set |
| `ChunkBits.BlockBits.StillSome` | yaffs2/yaffs_bitmap.c:74-85 | the loop says yes exactly when the set is not empty |
| `FileRefinement.PerformAll` | yaffs2/yaffs_guts.c:3431-3806 | any sequence of reads, writes, write-throughs, flushes and resizes through the cache returns what plain byte arrays return and leaves the same files, holes and regrown tails reading as zeros |
| `FileRefinement.WriteShows` | yaffs2/yaffs_guts.c:3516-3685 | a write replaces its bytes, fills what lay between the old end and its offset with zeros, and sets the length |
| `FileRefinement.ResizeShows` | yaffs2/yaffs_guts.c:3767-3806 | a resize cuts the array or extends it with zeros |
| `ChunkAddress.AddressExact` | yaffs2/yaffs_guts.c:49-76 | shift, then mask or divide, gives the chunk an address lies in and its offset there, for every chunk size below 2^31, exactly as long as the shifted address fits an int |
| `ChunkAddress.OddPart` | yaffs2/yaffs_guts.c:107-122 | the shift found for a chunk size leaves its odd part, whatever the size |
| `ChunkAddress.MaskBits` | yaffs2/yaffs_guts.c:57-61 | the bitwise and with the chunk mask is the low part of the address, at every word length |
| `ChunkAddress.FindShift` | yaffs2/yaffs_guts.c:107-122 | the loop counts the shifts to the lowest set bit |
| `FileBytes.AddressExact` | yaffs2/yaffs_guts.c:63-72 | chunk times chunk size plus start is the file offset |
| `FileBytes.CutByte` | yaffs2/yaffs_guts.c:3696-3765 | a truncation keeps every byte below the new end and leaves zeros past it, in every chunk |
| `FileBytes.PokeStep` | yaffs2/yaffs_guts.c:3619-3635 | a write into a cached chunk replaces exactly its span of the file and keeps the cache sound |
| `FileCache.WriteBackSame` | yaffs2/yaffs_guts.c:1422-1431 | writing a slot out and freeing it changes what no reader gets, and no chunk is held twice |
| `FileCache.LoadSame` | yaffs2/yaffs_guts.c:3471-3480 | loading a chunk into a free or clean slot changes what no reader gets |
| `FileCache.WriteWholeChanges` | yaffs2/yaffs_guts.c:3660-3667 | a whole chunk written past the cache replaces that chunk alone, cached copy included |
| `FileDevice.Files.Grab` | yaffs2/yaffs_guts.c:1470-1531 | the slot handed out is free or clean, after flushing the least recently used slot's file if all are taken |
| `FileDevice.Files.FlushFile` | yaffs2/yaffs_guts.c:1396-1438 | every dirty slot of the file, lowest chunk first, is written out and freed, and no byte read changes |
| `FileDevice.Files.ReadFile` | yaffs2/yaffs_guts.c:3431-3514 | a read returns the bytes of the file at its offset, chunk by chunk, cached or not |
| `FileDevice.Files.WriteFile` | yaffs2/yaffs_guts.c:3516-3685 | a write replaces exactly its bytes and updates the size |
| `FileDevice.Files.WriteBackCount` | yaffs2/yaffs_guts.c:3550-3574 | the write-back count covers every valid byte that follows the new ones in the chunk |
| `FileDevice.Files.HandleHole` | yaffs2/yaffs_yaffs2.c:831-917 | filling a small hole, or leaving a large one, changes no byte that can be read |
| `FileDevice.Files.Resize` | yaffs2/yaffs_guts.c:3767-3806 | after a resize bytes below both ends are as before and everything past the new end is zero |
| `Tnodes.SlotAfterSet` | yaffs2/yaffs_guts.c:744-802 | storing in one packed slot sets that slot to the low bits of the value and no other, for every even width from 16 to 30, straddling slots included |
| `Tnodes.LoadTnode0` | yaffs2/yaffs_guts.c:744-773 | the masked word updates in place are that store |
| `Tnodes.GetGroupBase` | yaffs2/yaffs_guts.c:775-802 | the shifted and joined words are the slot |
| `TnodeTree.PutChunkEffect` | yaffs2/yaffs_guts.c:1058-1189 | storing at one chunk id changes that id alone, and a store that fails changes none |
| `TnodeTree.AddFindKeepsMap` | yaffs2/yaffs_guts.c:867-960 | growing the tree and adding tnodes, completed or given up for lack of tnodes, changes no chunk number |
| `TnodeTree.AddFindSucceeds` | yaffs2/yaffs_guts.c:867-960 | for an id in range, tnodes enough for the new levels and the path down make the call succeed |
| `TnodeTree.FileTree.FindTnode0` | yaffs2/yaffs_guts.c:812-853 | the walk down is the specified look-up |
| `TnodePrune.PruneTreeCorrect` | yaffs2/yaffs_guts.c:1722-1805 | pruning changes no chunk number, frees exactly the tnodes it unlinks, and leaves the tree as tall as its largest mapped id needs |
| `TnodePrune.PruneSpine` | yaffs2/yaffs_guts.c:1722-1763 | the leftmost chain of tnodes survives pruning |
| `TnodePrune.TrimTree` | yaffs2/yaffs_guts.c:1786-1802 | the height loop removes exactly the tops whose only child is the first |
| `TnodeRuns.TreeIsMap` | yaffs2/yaffs_guts.c:867-1189 | from a new file, any run of stores, failed ones included, and prunes leaves the tree that stands for exactly the stores that succeeded, with no leaf out of range |
| `TnodeRuns.CheckpointTree` | yaffs2/yaffs_yaffs2.c:445-539 | dumping any in-range tree and reloading it, with tnodes for its leaves, succeeds and gives the same chunk number for every id |
| `TnodeRuns.RunThenCheckpoint` | yaffs2/yaffs_yaffs2.c:445-539 | the map a run built survives the checkpoint that follows it |
| `TnodeCheckpt.DumpRecords` | yaffs2/yaffs_yaffs2.c:445-479 | a leaf is dumped exactly when it is in the tree, with its words and its base id |
| `CheckptRoundTrip.RoundTrip` | yaffs2/yaffs_checkptrw.c:64-136 | any bytes, written in any calls and closed, are read back identically in any calls, given erased blocks to spare for the pages they take and room for their blocks in the reader's list |
| `CheckptRoundTrip.WrittenSucceeds` | yaffs2/yaffs_checkptrw.c:202-285 | writing and closing succeed exactly when the erased blocks hold the pages the bytes fill, a partly filled last one included |
| `CheckptRoundTrip.SameBlocks` | yaffs2/yaffs_checkptrw.c:97-136 | the reader visits the blocks the writer used, in the same order |
| `CheckptRoundTrip.ChecksumAccepted` | yaffs2/yaffs_yaffs2.c:638-672 | the sum and xor read back at the end equal the reader's own |
| `CheckptRoundTrip.BlocksForExact` | yaffs2/yaffs_checkptrw.c:244-251 | the blocks used are the page count divided by the pages per block, rounded up |
| `CheckptStream.WrSplit` | yaffs2/yaffs_checkptrw.c:257-285 | writing in two calls is writing in one |
| `CheckptStream.GapFree` | yaffs2/yaffs_checkptrw.c:97-136 | no block between a page and the next starts with a checkpoint page, so the search from the hint meets the right block |
| `CheckptDevice.StreamWriter.Write` | yaffs2/yaffs_checkptrw.c:257-285 | the byte loop, in place, writes the specified stream |
| `CheckptDevice.StreamReader.Read` | yaffs2/yaffs_checkptrw.c:287-356 | the byte loop, in place, reads the specified bytes |
| `Ecc.SingleDataBit` | yaffs2/yaffs_ecc.c:231-281 | for data of every length up to 2^32, one flipped data bit is located and repaired with result 1 |
| `Ecc.SingleEccBit` | yaffs2/yaffs_ecc.c:231-281 | one flipped bit of the stored ECC leaves the data alone, repairs the ECC and returns 1 |
| `Ecc.DoubleDataBit` | yaffs2/yaffs_ecc.c:231-281 | any two flipped data bits return -1 and nothing is changed |
| `EccDoubles.DoubleEccBit` | yaffs2/yaffs_ecc.c:231-281 | any two flipped bits of the stored ECC return -1 and nothing is changed |
| `EccDoubles.DataAndEccBit` | yaffs2/yaffs_ecc.c:231-281 | a flipped data bit with a flipped ECC bit returns -1 and nothing is changed, but with one of the two column bits not in use the data is repaired with result 1 |
| `Ecc.EqualEcc` | yaffs2/yaffs_ecc.c:231-249 | equal ECCs return 0 and nothing is changed |
| `Ecc.CalcOther` | yaffs2/yaffs_ecc.c:205-229 | the accumulation loop computes the specified parities |
| `Ecc.CorrectOther` | yaffs2/yaffs_ecc.c:231-281 | the in-place correction does what the specified one does |
| `EccTable.ColumnFlip` | yaffs2/yaffs_ecc.c:35-68 | flipping one bit of a byte flips exactly that bit's column parities in its table entry, for all 256 entries |
| `PackedTags.UnpackPack` | yaffs2/yaffs_packedtags2.c:63-144 | packing and unpacking returns every packed field, extra header information included, for ids below 2^28 and legal sequence numbers |
| `PackedTags.DamagedTags` | yaffs2/yaffs_packedtags2.c:146-188 | after one flipped bit of the tags they come back whole with result FIXED exactly when the flip does not make them look erased |
| `PackedTags.TagsSurvive` | yaffs2/yaffs_packedtags2.c:146-188 | unless the sequence number is 0x7fffffff, 0xbfffffff or 0xdfffffff, every single flipped bit is repaired |
| `PackedTags.TagsLost` | yaffs2/yaffs_packedtags2.c:146-188 | for those three sequence numbers one flipped bit makes the tags read back as an erased chunk with no error |
| `PackedTags.DamagedEcc` | yaffs2/yaffs_packedtags2.c:146-188 | one flipped bit of the stored ECC is repaired with result FIXED |
| `PackedTags.CleanTags` | yaffs2/yaffs_packedtags2.c:146-188 | undamaged tags come back with no error |
| `MessageQueue.QueueCorrect` | RTT4/src/ipc.c:1975-2441 | over every interleaving of sends, urgent sends, receives, timeouts and resets, byte copies included: the nodes are split between free list, queue, fillers and drainers; each message is linked once and leaves once; ordinary ones leave in link order and urgent ones overtake; each is delivered at most once with its sender's bytes; and no thread sleeps beside something it could take that is not already promised to a resumed thread |
| `MessageQueue.StepInv` | RTT4/src/ipc.c:1975-2441 | each atomic step keeps that invariant |
| `MessageQueue.QuietMeansServed` | RTT4/src/ipc.c:2240-2384 | with nobody resumed and not yet run, a sleeping receiver means an empty queue and a sleeping sender an empty free list |
| `MessagePool.EntryFits` | RTT4/src/ipc.c:1806-1825 | entry never exceeds the number of nodes, so it cannot wrap where max_msgs does not |
| `MessagePool.LinkTailLists` | RTT4/src/ipc.c:2091-2105 | linking at the tail appends to the list the links spell out and leaves the free list alone |
| `MessagePool.DrainLists` | RTT4/src/ipc.c:2425-2440 | the reset loop moves the whole queue to the free list, newest on top |
| `MessageQueueObject.Mq.Reset` | RTT4/src/ipc.c:2406-2441 | the reset in place ends with both lists as specified and nobody waiting |
| `MessageQueueObject.Mq.TakeMessage` | RTT4/src/ipc.c:2339-2349 | the receive's first critical section, in place, pops the head |
| `Mailbox.MailboxCorrect` | RTT4/src/ipc.c:1442-1714 | in every reachable state mails have left in the order they were sent, the rest are in the box, and threads stay suspended only while resumed ones can take every mail or slot |
| `Mailbox.StoreContents` | RTT4/src/ipc.c:1535-1542 | storing at in_offset appends to the contents of the ring |
| `Mailbox.FetchContents` | RTT4/src/ipc.c:1683-1691 | fetching at out_offset takes the oldest mail |
| `MemoryPool.PoolCorrect` | RTT4/src/mempool.c:303-449 | in every reachable state the free list holds exactly the blocks not handed out, the counter counts them, and threads wait only while resumed ones can take every free block |
| `MemoryPool.PoolObject.Alloc` | RTT4/src/mempool.c:303-391 | the block handed out was free and is no longer on the list; none is handed out exactly when none is free |
| `Mutex.MutexCorrect` | RTT4/src/ipc.c:654-881 | over every interleaving of recursive takes, releases and timeouts within the hold counter: one owner at most, value, owner and hold agree, waiters are sorted, no waiter outranks the owner, and everyone else has its starting priority |
| `Mutex.StepInv` | RTT4/src/ipc.c:654-881 | a step keeps the invariant exactly when it is not a recursive take at a hold count of 255 |
| `Mutex.LastReleaseRestores` | RTT4/src/ipc.c:828-839 | the last release gives the owner the priority it had at acquisition |
| `Mutex.FifoHandOver` | RTT4/src/ipc.c:841-861 | without the PRIO flag the new owner inherits exactly when no later waiter outranks the first |
| `Mutex.FifoLosesInheritance` | RTT4/src/ipc.c:841-861 | a run of four operations on a FIFO mutex after which a waiter of priority 1 waits for an owner of priority 9 |
| `Mutex.NestingOverflows` | RTT4/include/rtdef.h:683-684 | after 256 nested takes the hold count is 0 while the mutex is owned |
| `Mutex.RtMutex.Release` | RTT4/src/ipc.c:790-881 | the release in place does what the specified one does and names the thread it resumes |
| `WaitList.SuspendSorted` | RTT4/src/ipc.c:80-123 | insertion by priority keeps the list sorted and puts the newcomer behind its equals |
| `RingList.Links.Suspend` | RTT4/src/ipc.c:80-123 | the scan over the circular list and the insertion build that list |
| `RingList.InsertBeforeRing` | RTT4/include/rtservice.h:73-80 | insertion before a node puts it at that place of the ring and nowhere else |
| `RingList.RemoveRing` | RTT4/include/rtservice.h:86-92 | removal takes exactly that node out of the ring |
| `Event.NobodyStranded` | RTT4/src/ipc.c:1029-1237 | in every reachable state no suspended thread's condition is met by the event set |
| `Event.ScanGives` | RTT4/src/ipc.c:1056-1100 | each waiter a send reaches gets what an immediate receive would have returned at that moment, and leaves the event set it would have left, after whatever earlier waiters cleared |
| `Event.ScanLeaves` | RTT4/src/ipc.c:1056-1100 | a waiter passed over stays unsatisfied whatever later waiters clear |
| `Event.RtEvent.Send` | RTT4/src/ipc.c:1029-1111 | the loop over the waiters, in place, does what the specified scan does |
| `Scheduler.RunInv` | RTT4/src/scheduler.c:418-538 | every run of startup, suspend, resume, timeout, close, priority change, tick, yield, lock and unlock keeps: a bit is set exactly when its queue is not empty, the queues hold exactly the ready threads, once each and at their priority, and only the current thread runs |
| `SchedulerStart.BeginInv` | RTT4/src/scheduler.c:246-270 | whatever threads are started in whatever order, the scheduler begins in a state of the invariant and runs the first started of those with the best priority |
| `SchedulerStart.EverAfter` | RTT4/src/scheduler.c:191-270 | so the invariant holds in every state reached from initialisation, startups and start |
| `Scheduler.ScheduleBest` | RTT4/src/scheduler.c:418-538 | after an unlocked reschedule no ready thread outranks the running one |
| `Scheduler.RoundRobin` | RTT4/src/clock.c:72-100 | the thread at position j of the queue the running thread shares runs after exactly the remaining ticks of the running thread and of those ahead of it |
| `Scheduler.YieldRotates` | RTT4/src/thread.c:473-478 | yielding among equals gives way exactly when the slice had expired |
| `Scheduler.YieldKeepsRunning` | RTT4/src/thread.c:473-478 | two threads of one priority, of which the first yields and keeps running |
| `Scheduler.HighestReady` | RTT4/src/scheduler.c:162-184 | the bitmap search meets the best non-empty queue |
| `Scheduler.ChangePriorityInv` | RTT4/src/thread.c:630-671 | a priority change moves a ready thread to the tail of its new queue and keeps the invariant |
| `Scheduler.Kernel.Reschedule` | RTT4/src/scheduler.c:418-538 | rt_schedule in place does what the specified reschedule does |
| `Scheduler.Kernel.TickIncrease` | RTT4/src/clock.c:72-100 | the tick in place does what the specified one does |
| `ReadyGroup.FfsLowest` | RTT4/src/kservice.c:1480-1524 | the table search returns the lowest set bit plus one, and 0 only for no bit |
| `SmallHeap.HeapCorrect` | RTT4/src/mem.c:156-609 | every run of malloc, realloc and free from a fresh heap keeps an exact, 8-aligned tiling without adjacent free blocks, used_mem equal to the used spans, and lfree at a free block or the end; without reallocations lfree is the lowest free block |
| `SmallHeap.MallocFreeRestores` | RTT4/src/mem.c:272-410 | malloc followed by free of its result restores the blocks, lfree and used_mem, in reallocation runs too |
| `SmallHeap.MallocLive` | RTT4/src/mem.c:272-410 | malloc hands out an aligned block with room that was free and disturbs no allocation in force |
| `SmallHeap.FreeLive` | RTT4/src/mem.c:546-609 | free ends one allocation and disturbs no other |
| `SmallHeap.ReallocLive` | RTT4/src/mem.c:421-511 | realloc disturbs no other allocation, and its result has room for the request |
| `SmallHeap.MallocRefuses` | RTT4/src/mem.c:305-307 | with lfree lowest, a request is refused exactly when every block that fits is the last and fits exactly |
| `SmallHeap.ExactFitRefused` | RTT4/src/mem.c:305-307 | a fresh heap of 16 bytes refuses 16 bytes |
| `SmallHeap.ShrinkLowest` | RTT4/src/mem.c:471-497 | shrinking leaves lfree lowest exactly when it was below the block or at the free block right behind it |
| `SmallHeap.ReallocLosesLowest` | RTT4/src/mem.c:471-497 | a heap of two allocations whose first is shrunk and leaves a free block below lfree |
| `SmallHeapObject.HeapMem.PlugHoles` | RTT4/src/mem.c:156-194 | the header writes in place join exactly the free neighbours and keep all forward and back links |
| `SmallHeapObject.HeapMem.Malloc` | RTT4/src/mem.c:272-410 | the in-place allocation does what the specified one does and keeps all links |
| `SmallHeapObject.HeapMem.Realloc` | RTT4/src/mem.c:421-511 | the in-place reallocation does what the specified one does and keeps all links |
| `MemHeap.MemHeapCorrect` | RTT4/src/memheap.c:50-595 | every run of alloc, realloc and free keeps the tiling, the free list exactly the unused blocks, no adjacent free blocks, available_size the payload of the free blocks, and max_used_size at or above the use after every prefix of the run |
| `MemHeap.AllocRefuses` | RTT4/src/memheap.c:138-281 | a request is refused exactly when it is not below available_size or no free block has room |
| `MemHeap.AllocLive` | RTT4/src/memheap.c:138-281 | alloc hands out a free block with room and disturbs no allocation in force |
| `MemHeap.GrowLive` | RTT4/src/memheap.c:316-402 | in-place growth moves the end of one allocation and disturbs no other |
| `MemHeap.ShrinkLive` | RTT4/src/memheap.c:421-489 | shrinking with merge moves the end of one allocation and disturbs no other |
| `MemHeap.FreeLive` | RTT4/src/memheap.c:495-595 | free with its left and right merges ends one allocation and disturbs no other |
| `MemHeap.SplitAligned` | RTT4/src/memheap.c:147-150 | a split keeps 8-byte alignment exactly when more than 8 bytes were asked for |
| `MemHeap.SecondPayloadMisaligned` | RTT4/src/memheap.c:147-150 | one byte, then eight: the second payload of a fresh pool starts at offset 60 |
| `MemHeapObject.Pool.Alloc` | RTT4/src/memheap.c:138-281 | the in-place allocation does what the specified one does and keeps both linked lists |
| `MemHeapObject.Pool.Free` | RTT4/src/memheap.c:495-595 | the in-place release does what the specified one does and keeps both linked lists |
| `MemHeapObject.Pool.Realloc` | RTT4/src/memheap.c:284-492 | the in-place reallocation does what the specified one does and keeps both linked lists |

## Findings

Where the code does not do what a first reading promises, the exact condition is proved, with an input
at which it fails.

- `yaffs_do_file_wr` sets the size only after its loop, but every chunk it writes may first collect, and
  a collection copies the header with the size in RAM. A header copied so inside a growing write cuts
  off the chunks the call has already written at or past the old size; a mount before the next header
  is written, or those chunks are written again, deletes them although the call has returned.
  `FlashRecovery.MountAfterRun` is exact for every run, `FlashRecovery.NoneLost` and
  `FlashRecovery.StaysLost` name the harmless and the harmful runs, `TornWrite.FirstChunkLost` is one.
- A legal sequence number of 0x7fffffff, 0xbfffffff or 0xdfffffff is one flipped bit away from the
  erased pattern, and the tags are then taken for an erased chunk before the ECC is looked at:
  `PackedTags.TagsLost`; all other legal tags survive any one flipped bit: `PackedTags.TagsSurvive`.
- The search loop of `rt_malloc` skips a last block that fits exactly: `SmallHeap.MallocRefuses`,
  `SmallHeap.ExactFitRefused`.
- `rt_realloc` shrinking can leave a free block below `lfree`: `SmallHeap.ShrinkLowest`,
  `SmallHeap.ReallocLosesLowest`.
- The 12-byte minimum of the memheap breaks 8-byte alignment: `MemHeap.SplitAligned`,
  `MemHeap.SecondPayloadMisaligned`.
- A FIFO mutex does not boost its new owner on hand-off: `Mutex.FifoHandOver`,
  `Mutex.FifoLosesInheritance`.
- The 8-bit hold count of a mutex wraps at 256 nested takes: `Mutex.StepInv`, `Mutex.NestingOverflows`.
- `rt_thread_yield` does not rotate threads of equal priority; only an expired slice does:
  `Scheduler.YieldRotates`, `Scheduler.YieldKeepsRunning`.

## Left out

- YAFFS1, inband tags, summaries, shadow headers, names, directories, links, attributes and lost+found.
- File deletion and unlinking: soft deletion is part of the space accounting only.
- What a mount finds of a file in the middle of its truncation, when the chunks on their way out are
  neither all there nor all gone, or of one with chunks in the cache alone; other files are covered.
- A hole header that finds no page: the source goes on to write past the end without it. The header that
  ends a truncation is written again until it finds one.
- Whole cached calls as runs of the log: `FileRecovery.CacheWrites` joins the two one write at a time.
- Failed page writes and their retries, and ECC errors on data pages; erasure failures are in the
  accounting only.
- Chunk groups: tnodes are wide enough that each slot names one chunk.
- How the collector picks a block beyond the rule for shrink headers, and how many chunks it copies at
  a time; both are parameters.
- The cached oldest_dirty_seq is recomputed where it is used.
- Sequence numbers and object numbers are unbounded; a scan is compared with the sorted order while
  sequence numbers stay below 0x80000000.
- Space checks in the cache: every write through `FileDevice.Files` finds space, and its flash writes
  succeed.
- The 256-byte ECC for whole pages: its three packed bytes are the same scheme at a fixed length.
- Tree updates on values: `TnodeTree` and `TnodePrune` rebuild the path they change instead of writing
  through pointers; only the words of one leaf are updated in place.
- The checkpoint's device, block and object records: the stream carries bytes, and the tree dump is a
  sequence of records.
- Semaphores, signals, thread deletion while waiting on a message queue, mailbox or pool, and more than
  one processor.
- Overflow of ticks, of the tick recomputation after a resume, and of the scheduler lock count.
- Payload bytes in the heaps: what is proved is that no allocation in force is moved, split or joined.
- Heaps smaller than one minimal block, on which the allocation loop bound of `rt_malloc` wraps.
- Freeing or reallocating a pointer that is not an allocation in force.
