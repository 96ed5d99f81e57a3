# nvmefs: verified models

nvmefs gives DuckDB a file system directly on an NVMe device. This project models its core and proves
what that core promises:

- the temporary-block allocator: an address-ordered doubly linked list and eight doubly linked free
  lists over the same nodes, changed by pointer surgery (`BlockPool`, `AllocatorLaws`, `AllocatorRuns`,
  `BlockManager`);
- the temporary-file layer that maps (file, block index) to allocator blocks, alone and under any
  interleaving of threads (`TempFileModel`, `TempFileLaws`, `TempFileSizes`, `TempFileSpace`, `TempFileFill`,
  `TempFileManager`, `TempConcurrency`, `TempSchedules`);
- the I/O engines, against the flat-memory device (`Device`, `ChunkPlan`, `SyncEngine`, `AsyncEngine`,
  `PrefetchEngine`);
- the device layout, its metadata and the write watermarks (`Regions`, `RegionTable`, `MetadataImage`,
  `Watermarks`);
- the translation from file offsets to LBAs and the whole file system over one device (`Translation`,
  `FileSystem`, `LastWrites`, `FileBytes`, `PositionalIO`).

The shape is the same throughout. A value-level specification carries the theorems: `BlockPool.Allocate`,
`TempFileModel.GetLBA`, `Device.FakeWrite`, `FileSystem.Write`. The code that changes state is a class, or a
method with loops, whose `ensures` equates its new abstract state with that specification. Concurrent code is a
state machine over its atomic steps. `PositionalIO` stacks them: its `Write` runs the heap-based temporary-file
manager, which runs the heap-based allocator, then the asynchronous engine with all its completion orders, then the
watermark loop, and its result is `FileSystem.Write`. `LastWrites` says what that amounts to over whole runs: every
read returns, at each byte, the last value put there.

`dafny verify dfyconfig.toml` checks everything.

## What the code does not promise

These properties fail. Each has a lemma with an input that shows it, or the exact condition under which it
holds.

- `AllocateBlock` never looks at the size of what it pops, so a gap left by a smaller request of the same size class
  serves a larger one (`SameClassCollides`). In a pool of more than 128 LBAs, no run of the buffer sizes ever lets one
  block run into a live neighbour if and only if LBAs are 4096 bytes (`CollisionFreeExactly`): smaller LBAs fail
  because requests above 64 LBAs share a class, larger ones because requests up to 8 LBAs do.
- The byte counter adds what was requested and subtracts what was held. It stays exact for every run exactly
  when the pool is a multiple of 8 LBAs and at least 64 (`CounterExactly`). The file system leaves one LBA out of
  the pool.
- `GetAvailableSpace` is the free bytes in every reachable state exactly for the same pools (`ReportExactly`). In every
  other pool one file can make it wrap around to almost 2^64 (`WrappingRun`): nothing is free and the last block is
  short (`AvailableSpaceExactly`). The disk space reported is then short by the amount that went below zero
  (`DiskSpaceExactly`).
- Truncating a temporary file follows a null block exactly when an index it walks over is unmapped. A file can be
  truncated to every size if and only if it is dense (`TruncatableExactly`); a first access past the first block makes
  one that is not (`SparseFile`).
- A call on a temporary file follows a null pointer exactly when it looks the file up while it is gone, in either half
  of `GetLBA`, a truncation, a second deletion or a question for the size, or when it truncates down to a null block
  (`FaultsExactly`); so does a `GetLBA` when a delete comes between its two locks (`DeletedInBetween`).
- `GetLBA` lets go of its locks before the device I/O. The I/O is to the block's own LBAs exactly when nothing
  drops the block in between (`IoHitsOwnBlock`). Otherwise it can hit another file: from every state with such an I/O
  there is a schedule after which its LBA is part of another file's block (`HitsOtherFile`).
- A prefetch slot is drained only by its own thread. Another thread's write leaves it coherent whatever it writes if
  and only if the slot is idle, unfilled or off the device, or the two ranges share no byte (`HarmlessExactly`);
  otherwise a later hit returns old bytes (`StaleExactly`, `StaleAcrossSlots`).
- The asynchronous engine's 32-bit counters are right exactly for `Within32Bits` (`PlanExactly`).
- A thread index is outside the prefetch slots for some thread exactly when more than 256 threads are configured
  (`SlotsExactly`), and threads past the configured number share slots with earlier ones (`SlotsShared`).
- `db_configs` empty: initialisation always throws (`NoConfigAlwaysThrows`). Otherwise it succeeds exactly when the
  databases fit the table and the LBAs below the temporary area (`BuildSucceedsExactly`). Database names longer than 100
  characters are never found again, and names are unique exactly when they are as cut to 100 characters
  (`BuildLayout`, `AllocateLayout`, `OpenAllLayout`). A temporary area larger than the device wraps
  `tmp_start` (`TmpStartExactly`).
- The metadata image is 2583 bytes from LBA 0 on, and the first database starts at LBA 1. Writing the metadata leaves
  that database alone exactly when LBAs are 2583 bytes or more (`OneLbaExactly`, `ImageSparesDatabases`); with
  512-byte LBAs it covers LBAs 0 to 5.
- An empty write beyond the region passes the range check and carries the watermark out (`EmptyWriteEscapes`).
  A finished write's advance is lost exactly when a truncation or reset takes effect below its end after it and
  nothing later reaches it (`WriteLostExactly`, `TruncateLosesWrite`). Truncation counts 4096-byte blocks on every
  device (`TruncateUnitExactly`).
- A temporary access keeps only its offset inside an LBA, not inside its block (`TempOffsetExactly`). Where accesses
  start in the first LBA of their blocks, reads return what was last written at each offset of the file
  (`ReadsFileBytes`).

## Model

| member | source | states |
|---|---|---|
| BlockPool.FreeListIndex | src/nvmefs_temporary_block_manager.cpp:45-66 | size classes: a request of class r needs more than 8r LBAs, and at most 8r+8 below class 7 |
| BlockPool.FreshWellFormed | src/nvmefs_temporary_block_manager.cpp:34-43 | the initial pool satisfies the structural invariant, whatever its length |
| BlockPool.AllocateWellFormed | src/nvmefs_temporary_block_manager.cpp:68-160 | allocation keeps the invariant: gapless tiling by non-empty blocks, no two free neighbours, each free block once in the list of its class and nothing else there |
| BlockPool.FreeWellFormed | src/nvmefs_temporary_block_manager.cpp:162-310 | freeing with three-way coalescing keeps the same invariant |
| AllocatorLaws.AllocateAddsOne | src/nvmefs_temporary_block_manager.cpp:68-160 | the live blocks gain exactly the block returned, no longer than requested and disjoint from all others, none of which moves |
| AllocatorLaws.FreeRemovesOne | src/nvmefs_temporary_block_manager.cpp:162-310 | the live blocks lose exactly the block freed |
| AllocatorLaws.Canonical | src/nvmefs_temporary_block_manager.cpp:132-179 | the live blocks alone determine the whole tiling: the free blocks are the maximal gaps between them |
| AllocatorLaws.AllFreed | src/nvmefs_temporary_block_manager.cpp:244-310 | with nothing live one free block covers the pool and is in exactly one list |
| AllocatorLaws.RunInOneBlock | src/nvmefs_temporary_block_manager.cpp:244-310 | every run of free LBAs lies inside a single free block |
| AllocatorLaws.FailureIsComplete | src/nvmefs_temporary_block_manager.cpp:68-93 | allocation throws only if nowhere in the pool are that many LBAs free in a row |
| AllocatorLaws.SucceedsExactly | src/nvmefs_temporary_block_manager.cpp:45-93 | success exactly when there is a free run longer than the class below holds; the block comes from the smallest adequate class |
| AllocatorLaws.AllocateThenFree | src/nvmefs_temporary_block_manager.cpp:68-179 | freeing the block just allocated restores every extent and every free list (for the untouched pool, up to where its one block is filed) |
| AllocatorRuns.LiveUntilFreed | src/nvmefs_temporary_block_manager.cpp:132-160 | over every run a live block keeps address and length across all splits and merges until it is freed itself |
| AllocatorRuns.HistoryForgotten | src/nvmefs_temporary_block_manager.cpp:244-310 | two histories that leave the same blocks live leave the same tiling; with none live, one free block |
| AllocatorRuns.RunCounted | src/nvmefs_temporary_block_manager.cpp:98-103 | over every run the active-bytes counter is 4096 times the live LBAs plus all shortfalls so far |
| AllocatorRuns.PeakIsMaximum | src/nvmefs_temporary_block_manager.cpp:101-103 | the peak counter is the maximum the active counter reached |
| AllocatorRuns.RequestsNeverCollide | src/nvmefs_temporary_block_manager.cpp:45-88 | for requests of 8, 16, ..., 64 LBAs the requested extents of live blocks are disjoint in every reachable state and overshoot the pool by less than 8 LBAs |
| AllocatorRuns.CounterExactly | src/nvmefs_temporary_block_manager.cpp:98-99 | the byte counter never drifts, over all runs, if and only if the pool is a multiple of 8 LBAs and at least 64 |
| AllocatorRuns.SucceedsOnRun | src/nvmefs_temporary_block_manager.cpp:68-93 | in an aligned pool of a multiple of 8 LBAs, 64 or more, a request of 8, 16, ..., 64 LBAs succeeds exactly when that many LBAs are free in a row, and gets exactly that many |
| AllocatorRuns.RunSucceedsExactly | src/nvmefs_temporary_block_manager.cpp:68-93 | the same in every state reached from such a pool |
| AllocatorRuns.SameClassCollides | src/nvmefs_temporary_block_manager.cpp:45-88 | for any two sizes of the same class and any untouched pool with room, a run after which a live block's requested extent runs into the next live block |
| AllocatorRuns.CollisionFreeExactly | src/nvmefs_temporary_block_manager.cpp:45-93 | over the LBA sizes from 512 to 32768: no run of buffer-size requests in a pool of more than 128 LBAs makes two requested extents collide if and only if LBAs are 4096 bytes |
| BlockManager.NvmeTemporaryBlockManager.constructor | src/nvmefs_temporary_block_manager.cpp:34-43 | the linked structure represents the fresh pool |
| BlockManager.NvmeTemporaryBlockManager.PushFreeBlock | src/nvmefs_temporary_block_manager.cpp:181-197 | the block becomes the top of its size class's list; the other lists keep their links |
| BlockManager.NvmeTemporaryBlockManager.PopFreeBlock | src/nvmefs_temporary_block_manager.cpp:199-221 | the top of a list leaves it, the rest stays linked both ways |
| BlockManager.NvmeTemporaryBlockManager.RemoveFreeBlock | src/nvmefs_temporary_block_manager.cpp:223-242 | a block anywhere in its list leaves it, the rest stays linked both ways |
| BlockManager.NvmeTemporaryBlockManager.CoalesceFreeBlocks | src/nvmefs_temporary_block_manager.cpp:244-310 | the four merge cases are one splice of the address list, and unlink exactly the merged neighbours |
| BlockManager.NvmeTemporaryBlockManager.SplitBlock | src/nvmefs_temporary_block_manager.cpp:132-160 | a new node takes the front of a free block and the rest is filed under its new size |
| BlockManager.NvmeTemporaryBlockManager.AllocateBlock | src/nvmefs_temporary_block_manager.cpp:68-111 | the pointer structure refines the pool's allocation exactly, failures included; counters as in the source; every other live node keeps identity and extent |
| BlockManager.NvmeTemporaryBlockManager.FreeBlock | src/nvmefs_temporary_block_manager.cpp:162-179 | the pointer structure refines the pool's free exactly, under the same frame |
| TempFileModel.GetBufferSize | src/temporary_file_metadata_manager.cpp:13-33 | exactly eight names are accepted, and each size is 8, 16, ..., 64 blocks of 4096 bytes |
| TempFileModel.SizesAsNamed | src/temporary_file_metadata_manager.cpp:13-33 | each accepted name stands for 1024 times the decimal number between S and K, and DEFAULT for 256 KiB |
| TempFileModel.CreatedAsNamed | src/temporary_file_metadata_manager.cpp:35-60 | a new file is created exactly for those names, with the block size named, no blocks, and the allocator as it was |
| TempFileModel.BufferIsRequest | src/temporary_file_metadata_manager.cpp:13-33 | on every LBA size these sizes are the buffer requests of the collision theorem |
| TempFileModel.CreateInv | src/temporary_file_metadata_manager.cpp:64-91 | creation keeps ownership exact and the active-file counter equal to the number of files |
| TempFileModel.AllocateLBAInv | src/temporary_file_metadata_manager.cpp:116-128 | allocation for a file keeps ownership exact |
| TempFileModel.FreeEntryInv | src/temporary_file_metadata_manager.cpp:166-170 | freeing a mapped block keeps ownership exact |
| TempFileModel.NothingOwned | src/temporary_file_metadata_manager.cpp:213-228 | in whatever order Clear frees the blocks, the allocator ends as one free block |
| TempFileLaws.FilesOwnThePool | src/temporary_file_metadata_manager.cpp:98-228 | in every reachable state the files' blocks are exactly the live blocks, each owned once, and the extents the files may access are disjoint |
| TempFileLaws.StableUntilReleased | src/temporary_file_metadata_manager.cpp:98-228 | over every run a mapped block keeps its LBA until a truncate, delete or clear reaches it |
| TempFileLaws.FreeDownFiles | src/temporary_file_metadata_manager.cpp:163-170 | the truncation loop drops exactly the indices it walks over |
| TempFileLaws.TruncatedOnTop | src/temporary_file_metadata_manager.cpp:163-170 | truncation frees downwards: what held the lowest index dropped is the next its free list serves |
| TempFileLaws.DeletedOnTop | src/temporary_file_metadata_manager.cpp:182-186 | deletion frees upwards: what held the highest index is the next its free list serves |
| TempFileLaws.PeakFilesIsMaximum | src/temporary_file_metadata_manager.cpp:83-88 | over every run the peak counter is the largest number of files there were at once |
| TempFileSizes.TruncatableExactly | src/temporary_file_metadata_manager.cpp:163-170 | a file can be truncated to every size without following a null block if and only if it is dense |
| TempFileSizes.SparseFile | src/temporary_file_metadata_manager.cpp:98-170 | from every state with room, a creation and one access past the first block lead to a file whose truncation to 0 follows a null block |
| TempFileSizes.TruncateExactly | src/temporary_file_metadata_manager.cpp:155-171 | for every file and size: truncation ends normally exactly when truncatable, and otherwise has dropped exactly what is above the unmapped index; it keeps the LBAs of what stays, and leaves no index at or past the new size exactly when none was past both that size and the number of blocks: when the file does not grow, exactly when it was dense |
| TempFileSizes.TruncateReturns | src/temporary_file_metadata_manager.cpp:155-171 | for every file and size, exactly the blocks taken off the file go back to the pool, also when the walk ends at a null block |
| TempFileSizes.TruncateIs | src/temporary_file_metadata_manager.cpp:155-171 | where no null block is met, truncation is the one that runs are made of |
| TempFileSizes.RunDense | src/temporary_file_metadata_manager.cpp:155-171 | over every run of overwriting or appending accesses all files stay dense and every truncation is possible |
| TempFileSizes.SeekBoundExactly | src/temporary_file_metadata_manager.cpp:203-238 | both seek bounds agree, and in a dense file a location is below the bound exactly when its block is mapped |
| TempFileSizes.FileSizeExactly | src/temporary_file_metadata_manager.cpp:203-211 | for every LBA size the size in LBAs is that of the mapped bytes rounded down, and the strategy's bound equals the manager's exactly when LBAs divide those bytes |
| TempFileSpace.RunSpace | src/temporary_file_metadata_manager.cpp:240-253 | every run keeps the bytes mapped by files equal to the allocator's live LBAs plus the last block's shortfall |
| TempFileSpace.AvailableSpaceExactly | src/temporary_file_metadata_manager.cpp:240-253 | where that holds, the reported space is the free LBAs less the shortfall, and wraps around exactly when nothing is free and the last block is short |
| TempFileSpace.ReportAndUsed | src/temporary_file_metadata_manager.cpp:240-253 | for every LBA size the report and the mapped bytes make up the pool's bytes while these fit it |
| TempFileSpace.NeverShort | src/nvmefs_temporary_block_manager.cpp:132-160 | in a pool of a multiple of 8 LBAs, 64 or more, the last block has no shortfall |
| TempFileFill.ReachableSpace | src/temporary_file_metadata_manager.cpp:240-253 | from a new pool both hold in every reachable state |
| TempFileFill.FillTo | src/temporary_file_metadata_manager.cpp:98-129 | from an empty pool, accesses to blocks 0, 1, 2, ... of one file get the pool's LBAs in order, up to its end |
| TempFileFill.WrappingRun | src/temporary_file_metadata_manager.cpp:240-253 | for every other pool, a run of one file after which nothing is free and the report is 2^64 less the shortfall |
| TempFileFill.ReportExactly | src/temporary_file_metadata_manager.cpp:240-253 | the report is the free bytes in every state of every run if and only if the pool is a multiple of 8 LBAs and at least 64 |
| TempFileManager.TemporaryFileMetadataManager.GetOrCreateFile | src/temporary_file_metadata_manager.cpp:64-91 | the map of file objects refines creation; an unknown buffer size changes nothing |
| TempFileManager.TemporaryFileMetadataManager.CheckLBA | src/temporary_file_metadata_manager.cpp:99-114 | the look under the shared locks |
| TempFileManager.TemporaryFileMetadataManager.AllocateLBA | src/temporary_file_metadata_manager.cpp:116-128 | the second look and the allocation, through the pointer-based allocator |
| TempFileManager.TemporaryFileMetadataManager.GetLBA | src/temporary_file_metadata_manager.cpp:98-129 | both parts together: result and whole new state |
| TempFileManager.TemporaryFileMetadataManager.TruncateFile | src/temporary_file_metadata_manager.cpp:155-174 | the loop frees from the last index down and reaches the specified state, or stops at the null block with everything above it freed |
| TempFileManager.TemporaryFileMetadataManager.DeleteFile | src/temporary_file_metadata_manager.cpp:176-191 | all blocks are returned in key order and the file is gone |
| TempFileManager.TemporaryFileMetadataManager.FileExists | src/temporary_file_metadata_manager.cpp:193-201 | whether the file is in the map |
| TempFileManager.TemporaryFileMetadataManager.Clear | src/temporary_file_metadata_manager.cpp:213-228 | whatever order the files come in, the result is the same empty state |
| TempFileManager.TemporaryFileMetadataManager.GetFileSizeLBA | src/temporary_file_metadata_manager.cpp:203-211 | the size in LBAs of the mapped blocks |
| TempFileManager.TemporaryFileMetadataManager.GetAvailableSpace | src/temporary_file_metadata_manager.cpp:240-253 | the sum over all files, in any order, modulo 2^64 |
| TempConcurrency.StepIsEffect | src/temporary_file_metadata_manager.cpp:64-238 | a step under one lock has the effect of at most one whole operation, also when it ends at a null pointer, and a call that ends answers as if it had run alone then |
| TempConcurrency.Linearizable | src/temporary_file_metadata_manager.cpp:64-129 | every interleaving of any number of calls has the effect of a run of whole operations, in the order the calls end |
| TempConcurrency.OneBlockPerIndex | src/temporary_file_metadata_manager.cpp:98-129 | between releases of a file all calls for one block get the same LBA and exactly one allocates it if it was not mapped |
| TempConcurrency.CountedOnce | src/temporary_file_metadata_manager.cpp:64-91 | concurrent creates count a file once, the counter is the number of files, and while the file is not deleted the calls on it that fail are exactly the truncations that meet a null block |
| TempConcurrency.FaultsExactly | src/temporary_file_metadata_manager.cpp:98-238 | in every schedule the calls on a file that follow a null pointer are exactly those that look it up while it is gone (GetLBA's halves, truncations, deletions, size queries), its presence read off the events, and the truncations that meet a null block |
| TempConcurrency.DeletedInBetween | src/temporary_file_metadata_manager.cpp:114-117 | so a delete between the two locks makes the call follow a null pointer, from every state that allows it |
| TempConcurrency.IoHitsOwnBlock | src/nvmefs.cpp:206-213 | from a GetLBA answer on, through every schedule, the LBA stays the block's own if and only if no truncation, deletion or clear drops the block |
| TempConcurrency.AnsweredIo | src/nvmefs.cpp:206-213 | the same from the very step that answers a call |
| TempSchedules.RunAsSchedule | src/temporary_file_metadata_manager.cpp:64-238 | every run of whole operations is a schedule of one thread's steps |
| TempSchedules.ReachableExactly | src/temporary_file_metadata_manager.cpp:64-238 | what schedules of any number of threads make of the files is exactly what runs of whole operations make of them |
| TempSchedules.HitsOtherFile | src/nvmefs.cpp:206-213 | from every state in which an LBA is a file's block, a schedule of another thread that clears, creates a second file and accesses it, after which that LBA is inside the second file's block |
| Device.FakeDevice.Write | test/gtest/utils/fake_device.cpp:12-21 | the array in place is the flat write |
| Device.FakeDevice.Read | test/gtest/utils/fake_device.cpp:23-32 | the bytes returned are the flat read |
| Device.ReadAfterWrite | test/gtest/utils/fake_device.cpp:12-32 | a read sees a write's bytes where they overlap and the old ones elsewhere |
| ChunkPlan.MaxLbasPositive | src/include/io_engines/nvme_async_io_engine.hpp:24-33 | the chunk size is usable exactly for LBAs up to 4096 bytes, no stated limit, or a limit of one LBA or more |
| ChunkPlan.MaxLbasFits | src/include/io_engines/nvme_async_io_engine.hpp:24-33 | it respects the transfer limit exactly when the limit admits 4 KiB worth of blocks |
| ChunkPlan.MaxLbasIs | src/include/io_engines/nvme_async_io_engine.hpp:24-33 | it is the largest number of LBAs that the limit admits, or 127 without one, and that is a multiple of 4 KiB; where there is none, 4 KiB |
| ChunkPlan.ChunkAt | src/include/io_engines/nvme_async_io_engine.hpp:61-80 | the k-th command of the submission loop in closed form, 32-bit wrap-around included |
| ChunkPlan.PlanExactly | src/include/io_engines/nvme_async_io_engine.hpp:49-80 | the commands tile the transfer, each with its own part of the buffer and one for each promise, if and only if the block count and the last buffer offset stay below 2^32 |
| ChunkPlan.CommandSizes | src/include/io_engines/nvme_async_io_engine.hpp:25-33 | each command fits the transfer limit when that admits 4 KiB of blocks; all but the last are multiples of 4 KiB when blocks divide 4 KiB |
| AsyncEngine.NvmeAsyncIOEngine.CompleteWrite | src/include/io_engines/nvme_async_io_engine.hpp:184-191 | whichever outstanding command completes, the device is the old one with exactly the completed chunks replaced |
| AsyncEngine.NvmeAsyncIOEngine.SubmitWrites | src/include/io_engines/nvme_async_io_engine.hpp:151-191 | for every order of completion, early ones included, promise indices stay in bounds, the wait ends, and the device holds the whole buffer |
| AsyncEngine.NvmeAsyncIOEngine.Read | src/include/io_engines/nvme_async_io_engine.hpp:15-93 | returns what the flat device returns; buffers allocated equal buffers freed |
| AsyncEngine.NvmeAsyncIOEngine.Write | src/include/io_engines/nvme_async_io_engine.hpp:95-194 | changes the device exactly as the flat device does, with the bytes around the write preserved |
| SyncEngine.NvmeSyncIOEngine.Read | src/include/io_engines/nvme_sync_io_engine.hpp:12-33 | returns what the flat device returns |
| SyncEngine.NvmeSyncIOEngine.Write | src/include/io_engines/nvme_sync_io_engine.hpp:35-75 | changes the device exactly as the flat device does |
| PrefetchEngine.CoherentRead | src/include/io_engines/nvme_async_prefetch_io_engine.hpp:61-107 | a read through a coherent slot returns the device's bytes, hit or miss, and leaves the slot coherent |
| PrefetchEngine.OnlyExactHits | src/include/io_engines/nvme_async_prefetch_io_engine.hpp:61-107 | only a read of exactly the blocks fetched is served from the slot; any other returns the device's bytes, from a stale slot too |
| PrefetchEngine.ReadsAhead | src/include/io_engines/nvme_async_prefetch_io_engine.hpp:108-133 | every read, hit or miss, fetches the blocks that follow, so that the read of those is a hit |
| PrefetchEngine.WriteDrops | src/include/io_engines/nvme_async_prefetch_io_engine.hpp:135-150 | a write always drops its own slot's prefetch and gives the buffer back, and the next read through it is fresh; other slots stay |
| PrefetchEngine.CoherentWrite | src/include/io_engines/nvme_async_prefetch_io_engine.hpp:135-194 | a harmless write keeps a slot coherent: to its own slot, or where the slot is idle, unfilled or off the device, or the ranges share no byte |
| PrefetchEngine.HarmlessExactly | src/include/io_engines/nvme_async_prefetch_io_engine.hpp:135-194 | a write leaves a slot coherent whatever its data if and only if it is harmless |
| PrefetchEngine.RunCoherent | src/include/io_engines/nvme_async_prefetch_io_engine.hpp:43-194 | over every run in which every write is harmless to the other watched slots, all reads return what the flat device would, whenever prefetches complete |
| PrefetchEngine.SingleSlot | src/include/io_engines/nvme_async_prefetch_io_engine.hpp:24-194 | so does every run through one slot, whatever the other slots hold |
| PrefetchEngine.RunBuffers | src/include/io_engines/nvme_async_prefetch_io_engine.hpp:24-38 | buffers allocated and not freed are as many as there are active prefetches |
| PrefetchEngine.StaleAcrossSlots | src/include/io_engines/nvme_async_prefetch_io_engine.hpp:72-75 | for every device and data: another slot's write to fetched blocks makes a later hit return the old bytes |
| PrefetchEngine.StaleExactly | src/include/io_engines/nvme_async_prefetch_io_engine.hpp:61-75 | for every filled slot and every range another thread writes: a later hit returns the device's bytes whatever was written if and only if the write is harmless |
| PrefetchEngine.SlotsExactly | src/nvme_device.cpp:234-240 | every thread's index is inside the 256 prefetch slots if and only if at most 256 threads are configured |
| PrefetchEngine.SlotsShared | src/nvme_device.cpp:234-240 | of as many threads as are configured no two share a slot, and each thread after them has the slot of an earlier one |
| PrefetchEngine.NvmeAsynPrefetchIOEngine.DrainPrefetch | src/include/io_engines/nvme_async_prefetch_io_engine.hpp:24-38 | the slot's command is waited for, its buffer returned and the slot idle |
| PrefetchEngine.NvmeAsynPrefetchIOEngine.Read | src/include/io_engines/nvme_async_prefetch_io_engine.hpp:43-133 | the slot array and the data are those of the specification's read |
| PrefetchEngine.NvmeAsynPrefetchIOEngine.Write | src/include/io_engines/nvme_async_prefetch_io_engine.hpp:135-194 | the slot array and the device are those of the specification's write |
| Watermarks.StepSafe | src/include/strategies/database_file_strategy.hpp:30-74 | a step keeps the watermark and every running loop's target inside the region exactly unless it is an empty write beyond the region |
| Watermarks.RunSafe | src/include/strategies/wal_file_strategy.hpp:30-73 | at every step of every interleaving of non-empty writes, truncations and resets the watermark is inside its region |
| Watermarks.EmptyWriteEscapes | src/include/strategies/database_file_strategy.hpp:53-74 | an empty write beyond the region carries the watermark out |
| Watermarks.SpaceExactly | src/include/strategies/database_file_strategy.hpp:84-88 | the unsigned 64-bit space computation does not wrap while the watermark is inside |
| Watermarks.OnlyWrites | src/include/strategies/database_file_strategy.hpp:64-74 | with only writes, the location is the maximum of the first value and all completed write ends, and never moves back, whatever compare-and-swap fails spuriously |
| Watermarks.TruncateSets | src/include/strategies/wal_file_strategy.hpp:30-42 | whatever runs between its load and its successful exchange, a truncation leaves the watermark after the fewest 4096-byte blocks that hold the new size |
| Watermarks.TruncateRefusedExactly | src/include/strategies/wal_file_strategy.hpp:31-38 | a truncation is refused, and changes nothing, exactly when the new size does not fit the region in 4096-byte blocks |
| Watermarks.ResetFrees | src/include/strategies/wal_file_strategy.hpp:44-47 | removing the WAL makes its whole region available, whatever loops are running |
| Watermarks.Linear | src/include/strategies/database_file_strategy.hpp:30-74 | every interleaving leaves the watermark where its effects, one after the other, leave it: a write raises it when it stores or loads a location past its end, a truncation or reset puts it |
| Watermarks.WriteOnce | src/include/strategies/database_file_strategy.hpp:64-74 | a write that has ended took effect exactly once since it began, with its own end |
| Watermarks.WriteLostExactly | src/include/strategies/database_file_strategy.hpp:30-74 | after any interleaving a finished write's end lies beyond the watermark if and only if, after its effect, a truncation or reset takes effect below it and nothing later reaches it |
| Watermarks.TruncateLosesWrite | src/include/strategies/database_file_strategy.hpp:30-74 | a schedule of that kind: the write has read the old location, and gives up after the truncation |
| Watermarks.EqualEndStores | src/include/strategies/database_file_strategy.hpp:64-74 | a write that ends exactly at the watermark still stores, so that a truncation in between does not lose it |
| Watermarks.TruncateUnitExactly | src/include/strategies/database_file_strategy.hpp:31-32 | truncation keeps the blocks a size needs, for all sizes, if and only if LBAs are 4096 bytes |
| Regions.NoConfigAlwaysThrows | src/nvmefs.cpp:530-547 | the branch without configured databases throws for every geometry and configuration, through the 64-bit wrap-around |
| Regions.BuildSucceedsExactly | src/nvmefs.cpp:517-562 | initialisation succeeds if and only if databases are configured, they and the opened one (unless listed) take at most 16 slots, and one LBA plus all their sizes stays below tmp_start, wrapped or not |
| Regions.BuildNames | src/nvmefs.cpp:527-559 | after it the names are unique if and only if the configured names as cut are distinct and the opened one is among them or new as cut |
| Regions.StableApart | src/nvmefs.cpp:527-559 | distinct configured names of at most 100 characters without NUL meet that condition |
| Regions.LbasIs | src/nvmefs.cpp:522-523 | sizes in bytes become whole LBAs, rounded down |
| Regions.TmpStartExactly | src/nvmefs.cpp:522-522 | the temporary area starts on the device exactly when its size is less than one LBA above the device's, and is then that size rounded down to LBAs |
| Regions.BuildServed | src/nvmefs.cpp:527-559 | after a successful initialisation every configured database has its slot and name and, in bytes rounded down to LBAs, its configured size and the WAL size; the opened one has the default size, added exactly when it was not configured |
| Regions.BuildLayout | src/nvmefs.cpp:517-562 | after a successful initialisation regions are ordered, disjoint and in [1, tmp_start), the active count is the number of used slots, names are unique exactly under that condition, and the opened database is found exactly when its name fits |
| Regions.ConfigSizeAsked | src/nvmefs.cpp:97-101 | a database gets the size configured under its own name, and the default exactly when there is none |
| Regions.AllocateLayout | src/nvmefs.cpp:92-133 | no region for want of slots or of space exactly when there are 16 or the sizes reach tmp_start; a new region follows the highest, has that size and the WAL size in bytes rounded down to LBAs, and keeps the layout; the slot search never falls through, the database is found afterwards exactly when its name fits, and names stay unique exactly when its cut name was not there |
| Regions.Cut | src/nvmefs.cpp:534-536 | the name field holds as much of the name as 100 characters do before any NUL |
| Regions.RemountRestores | src/nvmefs.cpp:495-512 | writing the metadata and mounting it again restores every database's watermarks and nothing else |
| Regions.SyncedKeeps | src/nvmefs.cpp:602-615 | writing the metadata out changes nothing but the watermarks of open databases |
| Regions.SyncedLayout | src/nvmefs.cpp:602-615 | after any interleavings of non-empty writes, truncations and resets of each database's two watermarks, these are inside their regions and the metadata written out keeps the layout |
| RegionTable.MetadataTable.InitializeMetadata | src/nvmefs.cpp:517-573 | the loops build the specified layout; a throwing initialisation changes nothing, in memory or at LBA 0 |
| RegionTable.MetadataTable.AllocateNewDatabaseRegion | src/nvmefs.cpp:92-133 | both slot loops compute the specified allocation; a refusal changes nothing |
| RegionTable.MetadataTable.GetRegionForPath | src/nvmefs.cpp:484-493 | the first active slot of that name, or none when there is none |
| RegionTable.MetadataTable.TryLoadMetadata | src/nvmefs.cpp:495-515 | metadata in memory is kept; otherwise it and the watermarks come from LBA 0 |
| RegionTable.MetadataTable.WriteMetadata | src/nvmefs.cpp:602-628 | LBA 0 and the metadata in memory both carry the current watermarks |
| RegionTable.MetadataTable.GetAvailableDiskSpace | src/nvmefs.cpp:431-453 | the 64-bit sum over the open databases and the temporary area |
| RegionTable.DiskSpaceExactly | src/nvmefs.cpp:435-453 | the sum over the databases never wraps, because regions are disjoint, and is the bytes past all watermarks; for every temporary report, wrapped ones included, the total is that plus the report, or less the report's deficit where the sum passes 2^64 |
| RegionTable.RegionSpaceIsFiles | src/nvmefs.cpp:435-450 | what an open database adds is what its file and its WAL report as available |
| RegionTable.OpenAllLayout | src/nvmefs.cpp:151-155 | whatever databases are opened in whatever order, the layout holds and no region moves; names stay unique if and only if none is added that was cut to one already there, as names that fit never are |
| MetadataImage.OneLbaExactly | src/nvmefs.cpp:602-626 | the metadata image takes LBA 0 alone if and only if LBAs are 2583 bytes or more |
| MetadataImage.ImageBytes | src/include/nvmefs.hpp:16-33 | the image is the magic, the header and 16 slots that each hold a 100-character name |
| MetadataImage.BuildFirst | src/nvmefs.cpp:524-562 | after a successful initialisation the first database starts at LBA 1 |
| MetadataImage.SparedExactly | src/nvmefs.cpp:602-626 | writing the metadata can change no byte of a range of LBAs if and only if the range is empty or starts past the image |
| MetadataImage.ImageSparesDatabases | src/nvmefs.cpp:602-626 | it can change no byte of the first database if and only if one LBA holds the image or the database has no LBA; then it spares every region |
| Translation.FlatExactly | src/include/strategies/database_file_strategy.hpp:17-20 | LBA times LBA size plus the offset inside it is the region's start plus the location |
| Translation.RangeExactly | src/include/strategies/wal_file_strategy.hpp:53-62 | a non-empty access passes the range check if and only if it ends inside the region; its command is then well-formed |
| Translation.TempRangeExactly | src/include/strategies/temporary_file_strategy.hpp:43-57 | of the blocks short at the pool's end exactly those short by one LBA are accepted |
| Translation.TempOffsetExactly | src/temporary_file_metadata_manager.cpp:105-113 | a temporary access reaches the byte it names exactly when its offset inside the block is inside the first LBA |
| FileSystem.KeysApart | src/nvmefs.cpp:517-573 | metadata, database files, WALs and temporary blocks never share an LBA |
| FileSystem.RegionResolved | src/nvmefs.cpp:180-214 | an access to a database file or WAL is refused exactly when it does not end inside its region |
| FileSystem.TempPlacedExactly | src/nvmefs.cpp:180-214 | a temporary access is carried out exactly when it is for a whole block that is mapped or can be allocated and that ends on the device |
| FileSystem.WriteView | src/nvmefs.cpp:198-214 | a write puts its data at the named offset of one file or block and leaves the bytes of every other, and LBA 0, alone |
| FileSystem.ReadView | src/nvmefs.cpp:180-196 | a read returns the bytes of its file or block at that offset and changes none |
| FileSystem.StepKeeps | src/nvmefs.cpp:180-214 | every operation keeps the invariant, and the bytes it does not touch stay where and as they are, also when the device discards freed blocks |
| FileSystem.RunKeeps | src/nvmefs.cpp:180-214 | the same over every run |
| FileSystem.ReadsLastWrite | src/nvmefs.cpp:180-214 | the read that repeats a write returns its data over every run that leaves those bytes alone, and is not refused |
| LastWrites.RunKnows | src/nvmefs.cpp:180-214 | over every run the last value put at any byte of any file, block or the metadata, by any write or flush that covers it, is the value there until the block is given up |
| LastWrites.RegionsKnown | src/nvmefs.cpp:180-214 | the bytes of the metadata, databases and WALs are known at the end of every run |
| LastWrites.ReadsLastWritten | src/nvmefs.cpp:180-214 | after every run, every read of any range of any file that is not refused returns at each byte the last value put there, whatever ranges wrote it |
| FileBytes.PlacedInFile | src/temporary_file_metadata_manager.cpp:105-113 | an access that is placed and starts in the first LBA of its block covers exactly the file offsets it names |
| FileBytes.ReadsFileBytes | src/nvmefs.cpp:180-214 | in file offsets: when temporary accesses start in the first LBA of their blocks, every accepted read returns at each byte the last value written at that offset of the file |
| FileSystem.InitialFs | src/nvmefs.cpp:561-570 | a successful initialisation gives a state these laws hold from, when the temporary area has two LBAs or more |
| PositionalIO.NvmeFileSystem.Place | src/nvmefs.cpp:182-193 | strategy lookup and range check over the heap-based temporary-file manager |
| PositionalIO.SmallTransfers | src/include/io_engines/nvme_async_io_engine.hpp:49-80 | with 4096-byte LBAs the engine's counters hold every transfer of up to 4 GiB, whatever the transfer limit |
| PositionalIO.AdvancedExactly | src/include/strategies/database_file_strategy.hpp:64-74 | a write's update raises its own file's watermark to the end where that is past it and else not at all, as a write's effect in the concurrent model does; no watermark moves back and no other moves |
| PositionalIO.WriteCovered | src/nvmefs.cpp:213-214 | a placed write keeps all watermarks inside their regions and leaves its own at or past the last byte written |
| PositionalIO.NvmeFileSystem.UpdateMetadata | src/include/strategies/wal_file_strategy.hpp:63-72 | however often the exchange fails, the file's watermark becomes the write's end if that is past it and else stays, and no other moves |
| PositionalIO.NvmeFileSystem.Write | src/nvmefs.cpp:198-214 | through manager, allocator and asynchronous engine, the objects after the call are those of the specified write, refusals included, and the watermarks those of the update |
| PositionalIO.NvmeFileSystem.Read | src/nvmefs.cpp:180-196 | through manager, allocator and asynchronous engine, the objects and the data are those of the specified read |

## Left out

- xNVMe: a command is one step that succeeds. Queue-depth exhaustion, completion errors, polling and the width of
  a command's block count are not modelled. The exception is a speculative read past the device, which may be
  rejected or leave anything in its buffer.
- The discard sent to the device for a freed block is a hint; `FileSystem` lets the device put anything in the
  blocks given up.
- The process-wide counters of active and peak temporary bytes and files are fields of their manager: a second
  manager that adds to the same counters is not modelled.
- DuckDB integration, configuration parsing, path parsing, placement handles, buffer allocators, metrics, printing
  and `MoveLBALocation` (its body is commented out). A temporary file is known by the parts of its name that the
  source reads.
- The byte layout of the metadata image: LBA 0 holds the metadata or something without the magic. `FileSystem`
  assumes 4096-byte LBAs, which hold the image, as do all of 2583 bytes or more (`OneLbaExactly`).
- The file cursor, `Trim` and `ListFiles` add no state of their own.
- `AllocateBlock` clears a block's free flag again at its end; in the model the flag is cleared once, by the pop or
  the split.
- TempFileManager.TemporaryFileMetadataManager.DeleteFile: erases each entry as its block is freed, where the source
  drops the whole file after its loop; nothing can look in between, because the locks are held. `Clear` likewise.
- TempFileManager.TemporaryFileMetadataManager.GetLBA: requires the file to exist, because the source follows a null
  pointer otherwise; `TempConcurrency` says when that happens. `TruncateFile`, `DeleteFile` and the size queries
  likewise.
- TempConcurrency.CountedOnce: creates and lookups of a file that does not exist yet insert no null entry, unlike the
  source's map lookup, which ends in a fault anyway.
- AsyncEngine.NvmeAsyncIOEngine.Write: requires `Within32Bits`, outside of which `PlanExactly` shows the commands not
  to tile the transfer.
- What the device does with a speculative command comes into `PrefetchEngine` as parameters; the single command behind
  a miss is the synchronous engine's.
- PrefetchEngine.NvmeAsynPrefetchIOEngine.Read: requires a thread index below 256. The source takes it modulo the
  configured number of threads and indexes an array of 256 without a check; `SlotsExactly` says when that is enough.
- PrefetchEngine.NvmeAsynPrefetchIOEngine.Write: likewise.
- PrefetchEngine.NvmeAsynPrefetchIOEngine.DrainPrefetch: likewise.
- PositionalIO.NvmeFileSystem.Write: one call at a time, on non-empty buffers within the engine's 32-bit counters;
  `Watermarks` has the watermark loop among any number of threads. `Read` likewise.
- Runs (`TempFileLaws.TempRun`, `FileSystem.Run`) have no truncation that follows a null block, where the source has
  no defined behaviour; `TempFileSizes.TruncateExactly` covers the truncation itself.
- Contents of a temporary block right after its allocation are whatever the device holds there; reading an unmapped
  index allocates, as in the source.
