# Models of the compiler-rt allocator, Blocks runtime and fuzzing input decoder

This project models three parts of compiler-rt in Dafny and proves what holds in every reachable
state of each. `dafny verify dfyconfig.toml` checks everything.

**The ASan heap** (`lib/asan/asan_allocator.cpp`, `lib/asan/asan_activation.cpp`). Memory and shadow
are functions from addresses to bytes; the chunk header, the large header and the free context are the
bytes that the code stores. The underlying allocator is a map of disjoint, 16-aligned blocks. Its regions
are mapped piece by piece, zeroed and poisoned if poisoning is on, and blocks are carved from them; a
large block is mapped on its own. The quarantine is a bag that may give back any member at any time, and
takes blocks for batches of its own. The class `Allocator` runs Allocate, Deallocate, Recycle, Reallocate
and ReInitialize on this memory. Its ghost map `chunks` says which chunk lifetimes the bytes encode, and
its invariant ties the bytes, the shadow, the quarantine and the per-thread statistics to that map, and
says that no block without a chunk looks like one with a chunk. What the shadow promises depends on the
ghost field `mode`: poisoning has always been on, is on again after an activation, or is off. A failed
CHECK is a result (`CheckFailed`, `ok == false`, `None`), and the contracts say when it can happen: mostly
never. `HeapPrograms` runs any script of raw calls on the class, `ChunkRace` proves any interleaving of
the atomic steps of any number of threads, `Activation` deactivates and activates.

**The Blocks runtime** (`lib/BlocksRuntime/runtime.c`, without garbage collection). A memory of cells:
Blocks on the stack, on the heap or global, `__block` variables with their forwarding pointers, and
objects that are retained and released. The class `Runtime` copies and releases closures recursively,
as the compiler's copy and dispose helpers do: one call of `_Block_object_assign` or
`_Block_object_dispose` for each captured field. Its invariant says that every count that has not
latched at 0xffff is the number of owning edges plus the references the program holds. `BlockPrograms`
runs any script of program steps on it. `Latching` proves the count against any interleaving of loads and
compare-and-swaps.

**FuzzedDataProvider** (`include/fuzzer/FuzzedDataProvider.h`). What each call takes from the input is a
function of the remaining bytes; the class is proved against these functions, and an encoder inverts any
script of calls.

Words have 64 bits and a shadow granule has 8 bytes. Integers are unbounded, so every place where the
code wraps around, truncates or shifts says so.

Some things that hold of the code only under a condition, with the exact condition:

- The size guard of Allocate agrees with unbounded arithmetic unless the alignment is 2^63
  (`Layout.SizeGuardExact`); then the layout CHECK fails (`AsanAllocator.Allocator.Allocate`).
- On blocks that are only 8-aligned, which is all that Allocate asks for, the CHECK on the large header
  can fire; `Layout.LargeHeaderCheckFires` says exactly when.
- Lookup misses a chunk whose header is at the start of a secondary block (`ChunkSteps.LookupFindsChunk`).
  For malloc this is exactly a secondary block while the largest redzone is 16, which deactivation selects
  (`Lookup.MissedExactly`, `Lookup.MissedExample`). Activation poisons such a live chunk
  (`Repoison.ActivatedBlock`).
- A block carved after an activation from memory that was mapped before it is not poisoned as a whole, but
  then its first byte is clear (`AllocatorSteps.CarveSound`), and the one byte that Allocate tests is enough
  to repair it (`AllocatorSteps.OneByteIsEnough`).
- If the underlying allocator could write anything to its blocks, AllocationSize and RePoisonChunk would
  also fall for bytes that pass for a chunk (`Lookup.AllocationSizeExact`, `Repoison.RePoisonChunk`). What
  it does write never passes for one (`Lookup.AllocationSizeOfLive`, `FreeBlocks.BatchIsUnclaimed`).
- `_Block_object_dispose` undoes `_Block_object_assign` for the eight documented flag words, but not for
  two families of others (`BlockFlags.DisposeUndoesAssign`).

## Model

| member | source | states |
|---|---|---|
| `Redzones.RedzoneLogRoundTrip` | lib/asan/asan_allocator.cpp:38-50 | RZLog2Size and RZSize2Log undo each other on the logs below 8 and the powers of two from 16 to 2048, and the CHECKs in both hold there |
| `Redzones.RedzoneSize` | lib/asan/asan_allocator.cpp:401-414 | the chosen redzone is a power of two, and is the size-dependent redzone clamped to the two options |
| `Redzones.RedzoneMonotone` | lib/asan/asan_allocator.cpp:401-414 | a larger request never gets a smaller redzone |
| `Redzones.LargeRedzone` | lib/asan/asan_allocator.cpp:401-414 | requests above 64 KiB get the largest redzone |
| `Redzones.UserRequestedAlignmentLog` | lib/asan/asan_allocator.cpp:416-422 | the alignment log fits its three bits |
| `Redzones.AlignmentLogRoundTrip` | lib/asan/asan_allocator.cpp:416-428 | wherever the CHECK on the log passes (below 8, above 512, or a power of two) the stored log reads back as the requested alignment, 0 below 8 and at most 512 |
| `Layout.WrappedIsExact` | lib/asan/asan_allocator.cpp:500-508 | up to alignment 2^62 the 64-bit needed size is the exact one |
| `Layout.HalfWordAlignment` | lib/asan/asan_allocator.cpp:500-508 | with alignment 2^63 the sum wraps around to two redzones |
| `Layout.SizeGuardExact` | lib/asan/asan_allocator.cpp:487-511 | the guard rejects exactly the requests whose size or exact needed size is over a limit, if and only if the alignment is at most 2^62 or the size alone is over a limit |
| `Layout.NeededSizeFacts` | lib/asan/asan_allocator.cpp:501-508 | the exact needed size is granule-aligned and has room for redzone, user memory and alignment |
| `Layout.WrappedIsAligned` | lib/asan/asan_allocator.cpp:509 | the CHECK that the needed size is granule-aligned passes for every size and power-of-two alignment, also where the 64-bit sum wraps around |
| `Layout.UserBegFacts` | lib/asan/asan_allocator.cpp:548-552 | the user start is aligned as asked and moves by less than the alignment, and only if it must |
| `Layout.ChunkFits` | lib/asan/asan_allocator.cpp:548-556 | in any 16-aligned block of the needed size, user memory is aligned, header and granule-rounded user bytes stay inside, and the header is at the block start, exactly for a 16-byte redzone and a suitably aligned block, or leaves room for the large header |
| `Layout.LargeHeaderCheckFires` | lib/asan/asan_allocator.cpp:526-598 | on an 8-aligned block the CHECK on the large header fails if and only if the redzone is 16, the alignment above 8 and 24 bytes into the block is aligned |
| `Layout.LargeHeaderCheckExample` | lib/asan/asan_allocator.cpp:526-598 | an 8-aligned block on which it fails |
| `AllocatorSteps.WhenTheLayoutFails` | lib/asan/asan_allocator.cpp:548-554 | the CHECK that user memory ends inside the block fails if and only if the alignment is 2^63 |
| `Memory.ContextRoundTrip` | lib/asan/asan_allocator.cpp:54-68 | thread and stack read back from the context word |
| `Memory.SizeReadsBack` | lib/asan/asan_allocator.cpp:104-117 | the size reads back modulo 2^48, so the CHECK in SetUsedSize passes if and only if it is below 2^48 |
| `Memory.ContextReadsBack` | lib/asan/asan_allocator.cpp:119-125 | the allocation context reads back from the header bytes |
| `Memory.BitFieldsReadBack` | lib/asan/asan_allocator.cpp:90-97 | the bit fields that share a byte read back as stored |
| `Memory.CompactIsNotMagic` | lib/asan/asan_allocator.cpp:165-175 | a header at the block start is never taken for the magic word |
| `Memory.LargeReadsBack` | lib/asan/asan_allocator.cpp:171-182 | a large header leads to the chunk it was set to |
| `Memory.SetLargeHolds` | lib/asan/asan_allocator.cpp:177-182 | Set writes 16 bytes that hold the magic word and the chunk |
| `Shadow.FastPoisonShadowPartialRightRedzone` | lib/asan/asan_poisoning.h:76-92 | writes exactly its granules: full, partial or poisoned by their place |
| `Shadow.UserShadowMeaning` | lib/asan/asan_mapping.h:384-395 | the shadow bytes of a chunk make exactly its user bytes addressable, or whole granules without partial poisoning |
| `HeapState.ShadowIsExact` | lib/asan/asan_allocator.cpp:539-574 | with poisoning on, a byte of a block with a chunk is addressable exactly when it is user memory of an allocated, unpoisoned chunk, and user memory of a quarantined chunk carries its poison |
| `HeapState.AlwaysExact` | lib/asan/asan_allocator.cpp:539-574 | if poisoning has always been on, a byte of any block is addressable exactly when it is user memory of an allocated chunk, and user memory in quarantine carries the heap-free magic |
| `HeapState.FreeBlockPoisoned` | lib/asan/asan_allocator.cpp:539-546 | with poisoning on again, a block without a chunk is poisoned as a whole if its first byte is |
| `HeapState.AllFoundIsAllClear` | lib/asan/asan_allocator.cpp:346-373 | if lookup finds all chunks, no live chunk is poisoned |
| `HeapState.UserMemoryInside` | lib/asan/asan_allocator.cpp:548-556 | header and granule-rounded user memory of every chunk lie in its block |
| `HeapState.GetBlockBegin` | lib/asan/asan_allocator.cpp:780-783 | a block that contains the address, or none if there is none |
| `HeapState.BlockFound` | lib/asan/asan_allocator.cpp:780-783 | every byte of a block leads to that block |
| `ChunkSteps.AllocateMemory` | lib/asan/asan_allocator.cpp:555-599 | the stores of Allocate encode the new chunk, stay in the block and leave the fill |
| `ChunkSteps.AllocateShadow` | lib/asan/asan_allocator.cpp:566-574 | the shadow stores clear exactly the user bytes |
| `ChunkSteps.QuarantineMemory` | lib/asan/asan_allocator.cpp:606-641 | state, free context and fill stay in the block for every size from 1 on, and the fill spares the free context |
| `ChunkSteps.RecycleFinds` | lib/asan/asan_allocator.cpp:184-211 | both compare-and-swaps of Recycle find the value they expect |
| `ChunkSteps.LookupFindsChunk` | lib/asan/asan_allocator.cpp:763-778 | from the end of Allocate until Recycle the block start leads to exactly the published chunk if and only if the block is primary or the header is elsewhere |
| `ChunkSteps.LookupAfterRecycle` | lib/asan/asan_allocator.cpp:199-211 | after either compare-and-swap of Recycle the block start leads nowhere |
| `Accounting.BalancedMalloc` | lib/asan/asan_allocator.cpp:576-578 | a malloc keeps the counters equal to the number and bytes of allocated and of quarantined chunks |
| `Accounting.BalancedFree` | lib/asan/asan_allocator.cpp:646-648 | so does a free |
| `Accounting.BalancedRecycle` | lib/asan/asan_allocator.cpp:216-219 | so does the recycling of a chunk |
| `Accounting.QuarantineFree` | lib/asan/asan_allocator.cpp:650-661 | the quarantine holds every quarantined chunk once and nothing else, also after a free |
| `Accounting.QuarantineRecycle` | lib/asan/asan_allocator.cpp:199-222 | and after recycling one |
| `Accounting.HeldMember` | lib/asan/asan_allocator.cpp:199-200 | whatever the quarantine gives back is the header of a quarantined chunk |
| `AllocatorSteps.NewBlockSound` | lib/sanitizer_common/sanitizer_allocator_secondary.h:85-102 | setting aside a region, or mapping a large block, keeps memory and shadow in step |
| `AllocatorSteps.MapMoreSound` | lib/sanitizer_common/sanitizer_allocator_primary64.h:709-719 | so does mapping more of a region, zeroed and poisoned only if poisoning is on at that time |
| `AllocatorSteps.CarveSound` | lib/sanitizer_common/sanitizer_allocator_primary64.h:831-834 | so does carving a block: it is poisoned from end to end, or starts in memory mapped while poisoning was off and then its first granule is clear |
| `AllocatorSteps.CarvingEnds` | lib/sanitizer_common/sanitizer_allocator_primary64.h:842-843 | so does leaving a tail shorter than a block for the next mapping |
| `AllocatorSteps.FreeBlockKeeps` | lib/asan/asan_allocator.cpp:224-235 | so does a block without a chunk that changes hands or is written to, as long as its first byte does not look like a chunk |
| `AllocatorSteps.WriteKeeps` | lib/asan/asan_allocator.cpp:721-724 | so do writes to the user memory of a live chunk |
| `AllocatorSteps.OneByteIsEnough` | lib/asan/asan_allocator.cpp:539-546 | after the test of the first shadow byte and the repair the whole block is poisoned, whenever it was mapped |
| `AllocatorSteps.TakeKeeps` | lib/asan/asan_allocator.cpp:539-546 | taking a block that may be clear where it was mapped with poisoning off keeps everything in step and leaves it poisoned from end to end |
| `AllocatorSteps.PublishKeeps` | lib/asan/asan_allocator.cpp:555-599 | so does publishing a chunk in it |
| `AllocatorSteps.QuarantineKeeps` | lib/asan/asan_allocator.cpp:606-662 | so does putting a chunk in quarantine |
| `AllocatorSteps.RecycleKeeps` | lib/asan/asan_allocator.cpp:199-222 | so does recycling it, with the block kept or unmapped |
| `AllocatorSteps.UnmapSound` | lib/asan/asan_allocator.cpp:251-260 | unmapping a block without a chunk keeps memory and shadow in step |
| `AllocatorSteps.HeaderFields` | lib/asan/asan_allocator.cpp:687-699 | what Deallocate reads from the header is what Allocate stored |
| `AllocatorSteps.RecycleReads` | lib/asan/asan_allocator.cpp:199-213 | what Recycle reads is what the chunk says |
| `AllocatorSteps.SameChunk` | lib/asan/asan_allocator.cpp:548-556 | two chunks never share their user start |
| `AllocatorSteps.StillThere` | lib/asan/asan_allocator.cpp:705-718 | making the new chunk of a realloc does not disturb the state byte of the old one |
| `AllocatorSteps.ReallocateMemory` | lib/asan/asan_allocator.cpp:715-725 | after the copy and the free the new chunk holds the old bytes and no third block has changed |
| `FreeBlocks.MapsMore` | lib/sanitizer_common/sanitizer_allocator_primary64.h:776-796 | a region that has carved all it can maps more for any request, and then has room for what was requested |
| `FreeBlocks.CarveBlocks` | lib/sanitizer_common/sanitizer_allocator_primary64.h:831-843 | the loop carves all that is mapped, block by block, and keeps the heap sound |
| `FreeBlocks.CarvedRunBlocks` | lib/sanitizer_common/sanitizer_allocator_primary64.h:831-843 | carving keeps every other block; the new ones are free blocks of the class size inside the region, or its rest, of which less than a block is mapped |
| `FreeBlocks.CarvedRunCovers` | lib/sanitizer_common/sanitizer_allocator_primary64.h:805-843 | every mapped byte is in a carved block, but for a tail shorter than a block |
| `FreeBlocks.CarvedRunCount` | lib/sanitizer_common/sanitizer_allocator_primary64.h:805-806 | there are as many new blocks as fit into what is mapped |
| `FreeBlocks.MapAndCarve` | lib/sanitizer_common/sanitizer_allocator_primary64.h:793-843 | mapping and carving together |
| `FreeBlocks.BatchIsUnclaimed` | lib/sanitizer_common/sanitizer_quarantine.h:27-43 | a quarantine batch, which starts with a pointer to a block, does not look like a chunk |
| `AsanAllocator.Allocator.constructor` | lib/asan/asan_allocator.cpp:337-344 | an empty heap with the given options |
| `AsanAllocator.Allocator.SetCanPoisonMemory` | lib/asan/asan_poisoning.cpp:27-29 | switching poisoning leaves a heap that is sound without poisoning |
| `AsanAllocator.Allocator.ReInitialize` | lib/asan/asan_allocator.cpp:375-389 | succeeds exactly for options that pass the CHECKs, sets them all, and with poisoning on poisons the heap anew, every block without a chunk from end to end |
| `AsanAllocator.Allocator.SharedInitCode` | lib/asan/asan_allocator.cpp:318-334 | fails exactly for options that one of the CHECKs rejects, and sets the others |
| `AsanAllocator.Allocator.RepoisonHeap` | lib/asan/asan_allocator.cpp:380-388 | no CHECK fails; with poisoning back on the shadow is exact again for every chunk that lookup finds, and every block without a chunk is wholly poisoned |
| `AsanAllocator.Allocator.ReserveRegion` | lib/sanitizer_common/sanitizer_allocator_primary64.h:114-140 | a region joins the heap, with nothing mapped |
| `AsanAllocator.Allocator.PopulateFreeArray` | lib/sanitizer_common/sanitizer_allocator_primary64.h:770-853 | fails exactly when the region is exhausted or the kernel refuses, and then changes nothing; otherwise maps and poisons what is missing and carves at least the requested number of blocks |
| `AsanAllocator.Allocator.MapSecondary` | lib/sanitizer_common/sanitizer_allocator_secondary.h:85-102 | a large block joins the heap, zeroed, and poisoned if poisoning is on |
| `AsanAllocator.Allocator.ReleaseToOs` | lib/sanitizer_common/sanitizer_allocator_primary64.h:860-897 | memory of a free block may turn to zero at any time |
| `AsanAllocator.Allocator.TakeBatch` | lib/sanitizer_common/sanitizer_quarantine.h:222-232 | the quarantine takes and fills a block of its own |
| `AsanAllocator.Allocator.WriteBatch` | lib/sanitizer_common/sanitizer_quarantine.h:27-61 | it links and changes it |
| `AsanAllocator.Allocator.ReturnBatch` | lib/asan/asan_allocator.cpp:233-235 | it gives it back |
| `AsanAllocator.Allocator.ProgramWrite` | lib/asan/asan_allocator.cpp:566-574 | the program may write any byte of its live chunks |
| `AsanAllocator.Allocator.Screen` | lib/asan/asan_allocator.cpp:484-556 | when a request is turned down, when a CHECK fails, and otherwise an aligned place inside the block |
| `AsanAllocator.Allocator.CheckedNeededSize` | lib/asan/asan_allocator.cpp:500-509 | the 64-bit needed size, and that its CHECK passes |
| `AsanAllocator.Allocator.PlaceChunk` | lib/asan/asan_allocator.cpp:548-598 | the two layout CHECKs fail only for alignment 2^63 |
| `AsanAllocator.Allocator.TakeBlock` | lib/asan/asan_allocator.cpp:522-546 | the block is taken, and poisoned from end to end if poisoning is on, whatever its shadow was |
| `AsanAllocator.Allocator.Publish` | lib/asan/asan_allocator.cpp:555-599 | the new chunk, its statistics and its fill |
| `AsanAllocator.Allocator.TakeAndPublish` | lib/asan/asan_allocator.cpp:522-602 | both, on an unused block |
| `AsanAllocator.Allocator.Allocate` | lib/asan/asan_allocator.cpp:473-602 | null, a fatal report or a failed CHECK exactly in their cases and without any change, or a new chunk as asked, aligned, filled and counted, with every byte outside its block as before |
| `AsanAllocator.Allocator.Deallocate` | lib/asan/asan_allocator.cpp:664-703 | each report exactly in its case, for every delete size and alignment; double and wild frees change nothing, and otherwise the chunk goes to quarantine with the freeing thread's context |
| `AsanAllocator.Allocator.Inspect` | lib/asan/asan_allocator.cpp:687-699 | the mismatch to report, or the failed CHECK on the delete alignment, and the size, from the header |
| `AsanAllocator.Allocator.QuarantineChunk` | lib/asan/asan_allocator.cpp:606-662 | the chunk is quarantined, counted, filled, poisoned and put in the quarantine |
| `AsanAllocator.Allocator.Recycle` | lib/asan/asan_allocator.cpp:199-222 | for any member of the quarantine no CHECK fails, its chunk ends, its block goes back once and no longer leads to a chunk |
| `AsanAllocator.Allocator.ReturnBlock` | lib/asan/asan_allocator.cpp:206-222 | the new memory, shadow, blocks, quarantine and statistics |
| `AsanAllocator.Allocator.Malloc` | lib/asan/asan_allocator.cpp:952-954 | a chunk exactly when there is a block and the size is within the limits; no CHECK fails |
| `AsanAllocator.Allocator.CopyToUser` | lib/asan/asan_allocator.cpp:721-724 | the copy into the new chunk keeps the heap valid |
| `AsanAllocator.Allocator.BeginReallocate` | lib/asan/asan_allocator.cpp:705-718 | the new chunk, and the old state as it was before |
| `AsanAllocator.Allocator.Move` | lib/asan/asan_allocator.cpp:717-726 | the old bytes in the new chunk, the old chunk in quarantine, one malloc and one free counted |
| `AsanAllocator.Allocator.Reallocate` | lib/asan/asan_allocator.cpp:705-728 | without a new chunk nothing changes; otherwise a different chunk starts with the old bytes, the old one is in quarantine, blocks, quarantine and statistics are those of one malloc and one free, and no other chunk changes; a bad pointer is reported |
| `AsanAllocator.CopiedAndFreed` | lib/asan/asan_allocator.cpp:717-726 | copy and free after the new chunk are such a move |
| `AsanAllocator.Allocator.AsanRealloc` | lib/asan/asan_allocator.cpp:971-983 | the same through asan_realloc, where a null pointer allocates and size 0 frees or counts as 1 |
| `Lookup.AddressFindsChunk` | lib/asan/asan_allocator.cpp:763-783 | any byte of a block leads to its chunk, or to nothing if the block start does not lead to it |
| `Lookup.AllocationSizeExact` | lib/asan/asan_allocator.cpp:792-799 | whatever blocks without a chunk hold, it is non-zero exactly at the user starts of live chunks that lookup finds, and where such a block passes for a chunk; at a chunk it is the chunk's size |
| `Lookup.AllocationSizeOfLive` | lib/asan/asan_allocator.cpp:792-799 | in every state of the allocator it is non-zero exactly at live user starts that lookup finds |
| `Lookup.FreeContextReadsBack` | lib/asan/asan_allocator.cpp:886-913 | FreeTid and GetFreeStackId give the freeing thread and stack while the chunk is quarantined, and nothing otherwise |
| `Lookup.SearchLeft` | lib/asan/asan_allocator.cpp:808-813 | the result at the least distance below a page whose lookup differs, or the same result if there is none |
| `Lookup.FindHeapChunkByAddress` | lib/asan/asan_allocator.cpp:801-818 | the chunk itself, or the better of it and the left neighbour (allocated before quarantined, then the smaller gap, ties to the right); the CHECKs of ChooseChunk never fail |
| `Lookup.NeighbourState` | lib/asan/asan_allocator.cpp:772-777 | lookup results look allocated or quarantined |
| `Lookup.OwnerIsReported` | lib/asan/asan_allocator.cpp:801-804 | for an address in user memory that lookup finds, exactly its chunk is reported |
| `Lookup.NeighbourOfRedzone` | lib/asan/asan_allocator.cpp:804-813 | from a left redzone the search sees what the byte before the block leads to, if that is less than a page away |
| `Lookup.RedzoneReport` | lib/asan/asan_allocator.cpp:801-818 | for an address in a left redzone the chunk of the block to the left is reported if it is less than a page away and is better: allocated where the other is quarantined, or the nearer one of the same state; otherwise the chunk itself is |
| `Lookup.MissedExactly` | lib/asan/asan_allocator.cpp:763-771 | a chunk of malloc is missed if and only if it is in a secondary block and the largest redzone is 16 |
| `Lookup.MissedExample` | lib/asan/asan_allocator.cpp:763-771 | a family of live chunks with AllocationSize 0 |
| `Repoison.LooksLiveExactly` | lib/asan/asan_allocator.cpp:346-357 | of the blocks with a chunk, exactly those with a live one that lookup finds pass the test of RePoisonChunk |
| `Repoison.PoisonRedzones` | lib/asan/asan_allocator.cpp:357-365 | both poisoning calls together leave exactly the user bytes clear |
| `Repoison.RePoisonChunk` | lib/asan/asan_allocator.cpp:346-373 | on any bytes the block ends wholly poisoned if and only if it does not look like one with a live chunk, and otherwise with exactly that chunk's user bytes clear; nothing outside changes |
| `Repoison.RePoisonAll` | lib/asan/asan_allocator.cpp:380-388 | after visiting all blocks in any order the shadow of every chunk is exact and every block without a chunk is wholly poisoned; no CHECK fails |
| `Repoison.RePoisonBlock` | lib/asan/asan_allocator.cpp:346-373 | one block of it, with or without a chunk |
| `Repoison.PoisoningOff` | lib/asan/asan_activation.cpp:107-108 | a heap that is exact with poisoning is sound without |
| `Repoison.ActivatedBlock` | lib/asan/asan_activation.cpp:132-134 | after activation a block whose live chunk lookup finds has exactly its user bytes addressable, and every other block is poisoned from end to end |
| `Activation.OptionsRoundTrip` | lib/asan/asan_allocator.cpp:276-294 | CopyTo and SetFrom give the options back if and only if they fit their fields |
| `Activation.DisabledIsAccepted` | lib/asan/asan_activation.cpp:111-118 | the options of a deactivated runtime pass all CHECKs |
| `Activation.Activator.constructor` | lib/asan/asan_activation.cpp:94 | an active runtime |
| `Activation.Activator.AsanDeactivate` | lib/asan/asan_activation.cpp:96-122 | the CHECK fails only if already deactivated; chunks and memory stay, the original state is in the stash |
| `Activation.Activator.AsanActivate` | lib/asan/asan_activation.cpp:124-141 | never fails, and restores options, context size and poisoning exactly, over any alternation and whatever the heap did meanwhile |
| `HeapPrograms.EveryByte` | lib/asan/asan_allocator.cpp:199-728 | what the shadow says of every byte, in terms of the memory the program holds: exact if poisoning has always been on, exact for chunks that lookup finds if it is on again, and never against a whole held granule if it is off |
| `HeapPrograms.EveryPointer` | lib/asan/asan_allocator.cpp:792-799 | what AllocationSize says of every pointer: the size the program asked for if lookup finds its chunk, and else 0 |
| `HeapPrograms.TableCounts` | lib/asan/asan_allocator.cpp:576-648 | allocated chunks are as many, and as many bytes, as what the program holds |
| `HeapPrograms.TracksNew` | lib/asan/asan_allocator.cpp:473-602 | a new chunk is at a pointer that the program does not hold |
| `HeapPrograms.CanRealloc` | lib/asan/asan_allocator.cpp:705-718 | a pointer that may be passed to realloc |
| `HeapPrograms.RunMalloc` | lib/asan/asan_allocator.cpp:473-602 | any request for memory keeps what program and quarantine know of the heap true |
| `HeapPrograms.RunFree` | lib/asan/asan_allocator.cpp:664-703 | so does any free: valid, double or wild |
| `HeapPrograms.RunRealloc` | lib/asan/asan_allocator.cpp:971-983 | so does any realloc |
| `HeapPrograms.RunRecycle` | lib/asan/asan_allocator.cpp:199-222 | so does recycling any member of the quarantine |
| `HeapPrograms.RunPopulate` | lib/sanitizer_common/sanitizer_allocator_primary64.h:770-853 | so does a region that grows |
| `HeapPrograms.RunActivation` | lib/asan/asan_activation.cpp:96-141 | so does deactivating or activating |
| `HeapPrograms.Step` | lib/asan/asan_allocator.cpp:199-728 | so does every call |
| `HeapPrograms.RunProgram` | lib/asan/asan_allocator.cpp:199-728 | after every script of mallocs, writes, frees, reallocs, recycling, mapping, carving, batches, deactivation and activation: the shadow is right about every byte of every block, lookup about every pointer, the counters about the number and bytes of held allocations, the quarantine holds every freed chunk once, and poisoning has always been on unless the script deactivates |
| `ChunkRace.CountsOfLifetimes` | lib/asan/asan_allocator.cpp:146-155 | in an orderly history every event has happened once for each finished lifetime, and once more if the current one has come so far |
| `ChunkRace.AllocateKeeps` | lib/asan/asan_allocator.cpp:594-602 | the steps of Allocate keep the invariant of the race |
| `ChunkRace.FreeKeeps` | lib/asan/asan_allocator.cpp:606-622 | so does the compare-and-swap of a free, won or lost |
| `ChunkRace.DeallocateKeeps` | lib/asan/asan_allocator.cpp:619-662 | so do the winner's other steps, and the CHECK in QuarantineChunk holds |
| `ChunkRace.ClearKeeps` | lib/asan/asan_allocator.cpp:184-205 | so does clearing the large header, and its CHECK holds |
| `ChunkRace.InvalidateKeeps` | lib/asan/asan_allocator.cpp:207-211 | so does the swap to CHUNK_INVALID, and its CHECK holds |
| `ChunkRace.ReturnKeeps` | lib/asan/asan_allocator.cpp:221-222 | so does giving the block back |
| `ChunkRace.StepKeeps` | lib/asan/asan_allocator.cpp:178-222 | every atomic step of every thread keeps it |
| `ChunkRace.RacesAreSafe` | lib/asan/asan_allocator.cpp:178-685 | over every interleaving: no CHECK fails, each lifetime goes INVALID, ALLOCATED, QUARANTINE, INVALID, each lifetime of a block that has seen a free has exactly one winner, each chunk enters quarantine and goes back once, and each other free of the block is reported |
| `ChunkRace.LosersComeSecond` | lib/asan/asan_allocator.cpp:606-622 | a free is reported if and only if the lifetime of its block has a winner already |
| `Latching.NextWord` | lib/BlocksRuntime/runtime.c:116-126 | adding or subtracting one where it is allowed changes the count alone |
| `Latching.CopyKeeps` | lib/BlocksRuntime/runtime.c:116-126 | the steps of latching_incr_int keep the invariant |
| `Latching.ReleaseKeeps` | lib/BlocksRuntime/runtime.c:145-158 | so do those of latching_decr_int |
| `Latching.StepKeeps` | lib/BlocksRuntime/runtime.c:116-158 | so does every step, with the upper bits unchanged and a latched count staying latched |
| `Latching.CountIsReferences` | lib/BlocksRuntime/runtime.c:459-475 | over every interleaving the count is the number of references held or 0xffff, the upper bits never change, and dispose and free happen at most once, at zero references and never latched |
| `Latching.LatchedForever` | lib/BlocksRuntime/runtime.c:116-158 | a latched count stays latched and its Block is never freed |
| `BlockGraph.Retain` | lib/BlocksRuntime/runtime.c:295-299 | one more reference keeps all counts equal to owning edges plus outside references |
| `BlockGraph.Drop` | lib/BlocksRuntime/runtime.c:145-158 | so does one less |
| `BlockGraph.NewBlock` | lib/BlocksRuntime/runtime.c:314-320 | so does a new heap Block |
| `BlockGraph.Adopt` | lib/BlocksRuntime/runtime.c:560-588 | so does a Block taking over a reference |
| `BlockGraph.Disown` | lib/BlocksRuntime/runtime.c:593-609 | so does a Block giving one up |
| `BlockGraph.Free` | lib/BlocksRuntime/runtime.c:432-438 | so does freeing a cell that nothing owns |
| `BlockGraph.MoveToHeap` | lib/BlocksRuntime/runtime.c:377-404 | so does moving a variable to the heap with one reference for the frame and one for the caller, and the variable keeps a single home |
| `BlockGraph.OnlyHome` | lib/BlocksRuntime/runtime.c:377-388 | before it moves, a variable has no other cell |
| `BlockGraph.LeaveHome` | lib/BlocksRuntime/runtime.c:414-425 | the end of a frame hands over the frame's reference |
| `BlockCopies.KeptStore` | lib/BlocksRuntime/runtime.c:383-404 | moving a variable changes no variable's value |
| `BlockCopies.EquivalentKept` | lib/BlocksRuntime/runtime.c:285-326 | equivalent Blocks stay equivalent while others are copied |
| `BlockRuntime.Runtime.Acquire` | lib/BlocksRuntime/runtime.c:116-126 | the count goes up or stays latched |
| `BlockRuntime.Runtime.ByrefAssignCopy` | lib/BlocksRuntime/runtime.c:368-411 | assigns the one heap cell of the variable, with a new reference to it |
| `BlockRuntime.Runtime.CopyInternal` | lib/BlocksRuntime/runtime.c:285-326 | terminates, returns the Block itself or a heap copy equivalent to it, with one new reference, and changes nothing else but counts and moved variables |
| `BlockRuntime.Runtime.CopyStackBlock` | lib/BlocksRuntime/runtime.c:314-326 | a stack Block becomes an equivalent heap Block with one reference |
| `BlockRuntime.Runtime.CopyFields` | lib/BlocksRuntime/runtime.c:528-552 | the copy helper: the new Block owns an equivalent of every capture |
| `BlockRuntime.Runtime.CopyField` | lib/BlocksRuntime/runtime.c:528-552 | one field of it |
| `BlockRuntime.Runtime.ObjectAssign` | lib/BlocksRuntime/runtime.c:560-588 | an equivalent capture with exactly one reference for the new owner |
| `BlockRuntime.Runtime.ByrefRelease` | lib/BlocksRuntime/runtime.c:414-439 | drops one reference through the forwarding pointer and frees the cell exactly with the last one |
| `BlockRuntime.Runtime.Release` | lib/BlocksRuntime/runtime.c:459-496 | terminates, drops one reference, and frees the Block and what only it owned exactly with the last one |
| `BlockRuntime.Runtime.DisposeAndFree` | lib/BlocksRuntime/runtime.c:465-475 | the Block and what only it owned are gone, and the references held outside are as before |
| `BlockRuntime.Runtime.DisposeFields` | lib/BlocksRuntime/runtime.c:528-552 | the dispose helper: each owned reference is given up once |
| `BlockRuntime.Runtime.DisposeField` | lib/BlocksRuntime/runtime.c:528-552 | one field of it |
| `BlockRuntime.Runtime.ReleaseObject` | lib/BlocksRuntime/runtime.c:604-608 | one release of an object |
| `BlockRuntime.Runtime.ObjectDispose` | lib/BlocksRuntime/runtime.c:593-609 | gives up exactly the reference that assign took |
| `BlockRuntime.Runtime.BlockCopy` | lib/BlocksRuntime/runtime.c:453-455 | the invariant of the whole runtime after _Block_copy, an equivalent result and one reference more |
| `BlockRuntime.Runtime.BlockRelease` | lib/BlocksRuntime/runtime.c:459-483 | the same after _Block_release, one reference less |
| `BlockRuntime.Runtime.DeclareVariable` | lib/BlocksRuntime/runtime.c:358-366 | a variable on the stack, forwarding to itself |
| `BlockRuntime.Runtime.WriteVariable` | lib/BlocksRuntime/runtime.c:358-366 | a write through any alias is what every alias then reads |
| `BlockRuntime.Runtime.LeaveScope` | lib/BlocksRuntime/runtime.c:414-439 | the frame's reference goes, and the heap cell with it exactly if it was the last |
| `BlockRuntime.OneCellForEachVariable` | lib/BlocksRuntime/runtime.c:368-411 | forwarding is idempotent, all cells of a variable lead to one cell, there is one heap cell, and reads give the last value written |
| `BlockRuntime.CopiesReadTheSame` | lib/BlocksRuntime/runtime.c:368-411 | a copy reads the same values from its variables as its source |
| `BlockRuntime.NothingLeaks` | lib/BlocksRuntime/runtime.c:459-496 | with all references and frames gone, the heap is empty if and only if no count has latched, and if none has latched every object has as many releases as retains |
| `BlockPrograms.RunProgram` | lib/BlocksRuntime/runtime.c:285-496 | after every script of declaring, writing, copying, releasing and leaving scopes the invariant holds, a read through any alias gives the last value the script wrote, and once references and frames are gone the heap is empty if and only if no count has latched, and then every object has as many releases as retains |
| `BlockPrograms.Perform` | lib/BlocksRuntime/runtime.c:285-496 | one step of it |
| `BlockFlags.DisposeUndoesAssign` | lib/BlocksRuntime/runtime.c:560-609 | for all flag words dispose undoes assign, except exactly 8 with 128, and 3 with 16 without 4, 8 and 128 |
| `BlockFlags.DocumentedFlags` | lib/BlocksRuntime/runtime.c:536-550 | it does for the eight documented ones, which retain objects, Blocks and variables only outside __block helpers |
| `FuzzedData.ConvertUnsignedToSigned` | include/fuzzer/FuzzedDataProvider.h:377-395 | both branches give the two's complement value for 8, 16, 32 and 64 bits |
| `FuzzedData.CharIsConverted` | include/fuzzer/FuzzedDataProvider.h:163-168 | the characters of a string are the converted input bytes |
| `FuzzedData.TakeBytes` | include/fuzzer/FuzzedDataProvider.h:108-111 | the first bytes, at most as many as there are |
| `FuzzedData.TakeString` | include/fuzzer/FuzzedDataProvider.h:151-177 | never longer than asked, made of characters |
| `FuzzedData.StringRoundTrip` | include/fuzzer/FuzzedDataProvider.h:151-177 | every string can be encoded, whatever follows |
| `FuzzedData.StringLeavesEnd` | include/fuzzer/FuzzedDataProvider.h:151-177 | what a string leaves is the end of the input |
| `FuzzedData.TakeInt` | include/fuzzer/FuzzedDataProvider.h:204-234 | a value of the range, for exactly the byte length of the range or what is left |
| `FuzzedData.IntRoundTrip` | include/fuzzer/FuzzedDataProvider.h:204-234 | every value of the range can be encoded, whatever comes before |
| `FuzzedData.ByteLengthExact` | include/fuzzer/FuzzedDataProvider.h:216-217 | the loop pulls bytes while the range has more |
| `FuzzedData.CallRoundTrip` | include/fuzzer/FuzzedDataProvider.h:108-234 | one call returns what it was encoded for and leaves the middle |
| `FuzzedData.ScriptRoundTrip` | include/fuzzer/FuzzedDataProvider.h:108-234 | every script returns all the results it was encoded for and leaves the middle |
| `FuzzedData.ScriptLeavesMiddle` | include/fuzzer/FuzzedDataProvider.h:204-349 | the input is what the calls took from the front in their order, what is left, and what they took from the back in reverse order |
| `FuzzedData.CallReadsWhatItTakes` | include/fuzzer/FuzzedDataProvider.h:108-234 | the result of a call depends on the bytes it takes alone |
| `FuzzedDataProviders.FuzzedDataProvider.Advance` | include/fuzzer/FuzzedDataProvider.h:343-349 | aborts exactly when there is too little, and drops a prefix otherwise |
| `FuzzedDataProviders.FuzzedDataProvider.ConsumeBytes` | include/fuzzer/FuzzedDataProvider.h:108-111 | takes TakeBytes |
| `FuzzedDataProviders.FuzzedDataProvider.ConsumeRandomLengthString` | include/fuzzer/FuzzedDataProvider.h:151-177 | the loop takes TakeString |
| `FuzzedDataProviders.FuzzedDataProvider.PullBytes` | include/fuzzer/FuzzedDataProvider.h:216-227 | the loop pulls exactly the byte length of the range or what is left, most significant byte last, and never shifts by the word size |
| `FuzzedDataProviders.FuzzedDataProvider.ConsumeIntegralInRange` | include/fuzzer/FuzzedDataProvider.h:204-234 | aborts exactly for an empty range and takes TakeInt otherwise, for signed and unsigned types of 8 to 64 bits |
| `FuzzedDataProviders.FuzzedDataProvider.ConsumeAll` | include/fuzzer/FuzzedDataProvider.h:108-234 | any script of calls returns what Run says |
| `FuzzedDataProviders.RangeIsExact` | include/fuzzer/FuzzedDataProvider.h:211-212 | the unsigned subtraction gives the exact range for every type |
| `FuzzedDataProviders.ReducedResult` | include/fuzzer/FuzzedDataProvider.h:229-233 | reduction and cast give a value of the range, also where range + 1 would wrap around |
| `FuzzedDataProviders.AppendIsExact` | include/fuzzer/FuzzedDataProvider.h:225 | no bit is shifted out while fewer than eight bytes have been pulled |

## Left out

- Reports, stack traces, malloc hooks, resident-size limits, errno and printing; a fatal report ends the operation with a result.
- The free arrays and per-thread caches of the combined allocator, its choice of a size class, the quarantine's caches and limits, and the shadow mapping; a free block that fits, any member of the bag and the functions described above stand for them.
- Weak memory: atomic operations are sequentially consistent steps, and the operations of the class `Allocator` are atomic as a whole; interleavings are in `ChunkRace` and `Latching`.
- Calloc, the aligned allocation entry points, leak-checker accessors, and the statistics on mmap, reallocs, redzones and size classes: they only add easy members.
- The ASAN_ACTIVATION_OPTIONS override and the coverage flags of activation.
- AsanAllocator.Allocator.Deallocate: takes pointers whose state byte does not look allocated, or user starts of allocated chunks; a wild pointer at bytes that look allocated is undefined in the source too.
- AsanAllocator.Allocator.Reallocate: a wild pointer must not point into a block that the underlying allocator is about to hand out, because the state is read after the new chunk is made.
- AsanAllocator.Allocator.PopulateFreeArray: a region that has mapped memory and then cannot grow its free array, and premapped heaps.
- AsanAllocator.Allocator.ReserveRegion: regions are set aside before anything is mapped, as the primary allocator does at its start.
- ChunkRace.RacesAreSafe: the program frees only pointers that Allocate has returned and whose block has not gone back; a later free would hit the next lifetime.
- Garbage-collected Blocks, C++ objects in captures, and the contents of `__block` variables that are objects or Blocks, which the runtime without collection neither retains nor releases.
- BlockRuntime.Runtime.ByrefAssignCopy: the allocation of a heap variable succeeds, because the source does not check it; the allocation of a Block may fail.
- BlockRuntime.Runtime.CopyInternal: a stack Block must capture things that are still there; the runtime cannot know.
- Floating point, enums, arrays and terminators in FuzzedDataProvider.
