# Two allocators, a chat server and two small protocols

This project models and verifies the hardest parts of a systems-programming repository: the pool
allocator `kheap` with the segment `memlib` below it, the superblock allocator `a2alloc`, the
registry of a chat server, a reusable thread barrier, and the hand-off of input lines between the
two threads of the chat client.

## How it is built

Each part that changes data in place is a class with the source's fields, whose methods follow the
source's branches. Its state is mirrored by one value (`HeapState.Heap`, `ArenaState.Arena`,
`Registry.Reg`, `BarrierSteps.State`, `HandOffSteps.State`). Every step on that value is a
function; lemmas prove that the step keeps one invariant; and each method's contract says that the
records in memory afterwards are those of the step. The claims about whole runs are proved about
the values and so hold of the records.

| part | values, invariant, steps | theorems | methods |
|---|---|---|---|
| pool allocator | `HeapState`, `RefSteps`, `RefPageStep`, `PageSteps`, `BlockSteps`, `ChunkSteps`, `ClientStep` | `HeapSafety`, `BlockCount`, `ChunkCount`, `HeapPrivacy`, `BigSizes`, `PageLayout` | `Memlib`, `KHeap`, `HeapSession` |
| superblock allocator | `ArenaState`, `BinSteps`, `ArenaSteps`, `BlockMaps` | `ArenaSafety`, `ArenaCalls`, `ArenaReturns` | `A2Alloc`, `ArenaSession` |
| chat server | `Registry`, `RegistryRuns` | `RegistryHistory` | `ServerLists`, `ChatServer` |
| barrier | `BarrierSteps` | `BarrierSteps` | `Barrier` |
| input hand-off | `HandOffSteps` | `HandOffSteps` | `HandOff` |

`Sequences`, `Chains` and `SetSums` hold what several parts share: sequences without repetition,
lists in memory and sums over sets.

**Pool allocator.** Memory is one array of 8-byte words; free lists run through the free blocks
themselves and chunk headers lie in the chunks. A ledger says what every page, every pageref and
every live pointer is in use for, and the invariant ties the words to it. The main result is
`HeapSession.Session`: whatever a program requests, writes, reads and frees, every request that
there is room for is served, and each block it holds shows exactly what it last wrote there. Pages are 4096 bytes, pointers 8 bytes, and heap addresses lie
between 0 and 2^32, because `PAGE_FRAME` is a 32-bit mask. One promise is false of the program: the
size of a big request is truncated to an `int`. `KHeap.Allocator.MmMalloc` says that exactly the
requests up to `LARGEST_REQUEST` bytes get a block that holds them, and sessions make only those.

**Superblock allocator.** Requests are of at most 128 bytes, the classes for which the header's
blocks are marked in the map; calls come from arbitrary processors one after another. Maps,
counters and doubly linked bins are proved to agree, and the search for a superblock to give back
is proved never to fail. All divisors of the fullness are powers of two, so its floating-point
value is exactly the quotient of integers used here.

**Chat server.** A history is any sequence of registrations, room creations, messages, switches,
quits and sweeps, and `Server.Valid` says that the linked records are those of the registry that
the history leads to. The sweep's rules, the members' rooms and the receivers of a chat message are
stated in terms of the history alone. One property of the program is false: after a sweep that
unlinks the last of several rooms, `room_list_tail` is null, and the next room creation that is not
refused dereferences it. `RegistryHistory.TailLostExample` gives a run that leads there,
`RegistryHistory.TailAfter` says exactly when it happens, and `ChatServer.Server.CreateRoom`
exactly when the dereference does.

**Barrier.** The substitute for `pthread_barrier_wait()` (IEEE Std 1003.1, System Interfaces
volume, chapter 3) waits on its condition without a loop. It is proved under what it relies on:
exactly `needed` threads use it and a sleeping thread is woken by the broadcast only.

**Input hand-off.** The flag is sequentially consistent, and every order of the two threads' atomic
steps is covered.

## Model

| member | source | states |
|---|---|---|
| `Memlib.AlignUp` | A2/util/memlib.c:27 | the smallest page boundary not below the address |
| `Memlib.DataSegment.constructor` | A2/util/memlib.c:31-49 | the segment starts empty at the first page boundary of the slab |
| `Memlib.DataSegment.MemSbrk` | A2/util/memlib.c:52-67 | for any positive increment: exactly while the test allows it, the range that follows the last one, always inside the slab (the test admits one byte more than the segment has); for page multiples, served exactly while they fit, and page-aligned; null and no change otherwise |
| `PageLayout.PackRoundTrip` | A2/allocators/kheap/kheap.c:102-104 | packing a page address with a block type loses nothing exactly if the address is page-aligned and below 2^32 and the type below 4096 |
| `PageLayout.MasksAreRemainders` | A2/allocators/kheap/kheap.c:74-104 | on 64-bit words the two masks are the integer division and remainder that the model computes with |
| `PageLayout.PageOfPacked` | A2/allocators/kheap/kheap.c:393-404 | the address-range test over packed words finds the page that was packed |
| `PageLayout.BlockOnIsAlignment` | A2/allocators/kheap/kheap.c:412-417 | being one of the blocks of a page is the alignment test that free applies to an offset |
| `PageLayout.BlocksApart` | A2/allocators/kheap/kheap.c:358-368 | two different blocks of one page do not overlap |
| `HeapSafety.LiveBlocksDisjoint` | A2/allocators/kheap/kheap.c:284-378 | in every state of the invariant two live pointers share no word of what they may use |
| `HeapSafety.LiveWordOwner` | A2/allocators/kheap/kheap.c:284-503 | every word of a live block lies inside the heap, on a page owned by that block's pageref or chunk |
| `HeapSafety.LiveBlocksAvoidBookkeeping` | A2/allocators/kheap/kheap.c:130-171 | no word of a live block is in a pageref slot, a free block, a chunk header or a free chunk |
| `HeapSafety.PageHasOneOwner` | A2/allocators/kheap/kheap.c:108-122 | every page obtained from the segment has exactly one use: pageref storage, the page of exactly one in-use or recycled pageref, or part of exactly one chunk, free or live; none is lost |
| `BlockCount.FullIffNoneLive` | A2/allocators/kheap/kheap.c:435-442 | the free count of a page equals the number of its blocks exactly when none of them is live, so the recycling test of free is right |
| `BlockCount.InUsePageHasLiveBlock` | A2/allocators/kheap/kheap.c:435-442 | between calls every page on a size list holds a live block |
| `BigSizes.BigPagesHold` | A2/allocators/kheap/kheap.c:451-463 | the pages computed in `int` hold the request exactly if it is at most `LARGEST_REQUEST` bytes, and then they are the fewest that do |
| `BigSizes.BigPagesTruncated` | A2/allocators/kheap/kheap.c:451-463 | a 4 GiB request is given one page: the parameter is an `int` |
| `BigSizes.BigPagesPositive` | A2/allocators/kheap/kheap.c:451-463 | the page count is positive exactly for sizes that modulo 2^32 are at most `LARGEST_REQUEST` or at least 2^32 - 7 |
| `BigSizes.TailEscapes` | A2/allocators/kheap/kheap.c:469-475 | for any other size the header of the tail would be written outside the chunk, whatever free chunk is split |
| `BigSizes.TailEscapesExamples` | A2/allocators/kheap/kheap.c:469-475 | 2 GiB: the header goes 2 GiB before a chunk of two pages; 4 GiB less a page: right after it |
| `RefSteps.PopRecycledInv` | A2/allocators/kheap/kheap.c:138-142 | taking a recycled pageref keeps the whole invariant |
| `RefSteps.PopFreshInv` | A2/allocators/kheap/kheap.c:145-149 | taking a fresh pageref keeps the whole invariant |
| `RefSteps.RecycleInv` | A2/allocators/kheap/kheap.c:174-179 | putting a pageref back, with or without a page, keeps the whole invariant |
| `RefSteps.DetachInv` | A2/allocators/kheap/kheap.c:245-261 | unlinking a pageref with no live block from its size list keeps the whole invariant |
| `RefPageStep.NewRefPageInv` | A2/allocators/kheap/kheap.c:155-169 | turning a new page into 128 pagerefs, all but the first listed as fresh, keeps the whole invariant |
| `PageSteps.InstallInv` | A2/allocators/kheap/kheap.c:356-373 | cutting a page into a free list and listing its pageref keeps the whole invariant |
| `PageSteps.ThreadedPageIsList` | A2/allocators/kheap/kheap.c:358-369 | the words that the threading loop writes form the list of all blocks of the page, each once, last block first |
| `BlockSteps.TakeInv` | A2/allocators/kheap/kheap.c:309-331 | handing out the first free block keeps the whole invariant |
| `BlockSteps.PutInv` | A2/allocators/kheap/kheap.c:419-434 | overwriting a freed block and pushing it keeps the whole invariant |
| `ChunkSteps.CarveInv` | A2/allocators/kheap/kheap.c:469-475 | splitting a free chunk keeps the whole invariant |
| `ChunkSteps.UnlinkInv` | A2/allocators/kheap/kheap.c:476-486 | handing out a whole free chunk keeps the whole invariant |
| `ChunkSteps.NewChunkInv` | A2/allocators/kheap/kheap.c:493-500 | a chunk of new pages keeps the whole invariant |
| `ChunkSteps.ReleaseInv` | A2/allocators/kheap/kheap.c:505-519 | freeing a chunk keeps the whole invariant |
| `ClientStep.WriteInv` | A2/allocators/kheap/kheap.c:534-567 | a caller's write into its own block keeps the whole invariant |
| `HeapPrivacy.TakeAllocates` | A2/allocators/kheap/kheap.c:309-331 | handing out a small block adds one live pointer and changes no word of any other live block |
| `HeapPrivacy.PutOverwrites` | A2/allocators/kheap/kheap.c:419-431 | every word of a freed small block but its first holds the pattern that marks freed memory |
| `HeapPrivacy.BigKmallocCases` | A2/allocators/kheap/kheap.c:466-500 | either exactly one free chunk is the first that fits, or none fits |
| `HeapPrivacy.PagedHead` | A2/allocators/kheap/kheap.c:138-142 | recycled pagerefs that have a page come before those that have none, so the first has one if any has |
| `HeapPrivacy.RecyclePaged` | A2/allocators/kheap/kheap.c:345-353 | putting back a pageref for which no page could be had keeps that order |
| `ChunkCount.CountsMatchPages` | A2/allocators/kheap/kheap.c:451-519 | in every state the header counts of all chunks, free and live, add up to the number of pages that chunks own |
| `ChunkCount.CarvedCounts` | A2/allocators/kheap/kheap.c:471-473 | the counts of the two parts of a split chunk add up to the old one |
| `ChunkCount.UseChunkCounts` | A2/allocators/kheap/kheap.c:469-486 | handing out a free chunk, its tail or all of it, keeps the sum |
| `ChunkCount.ReleaseCounts` | A2/allocators/kheap/kheap.c:505-519 | freeing a chunk keeps the sum |
| `ChunkCount.NewChunkCounts` | A2/allocators/kheap/kheap.c:492-500 | new pages for a chunk raise the sum by exactly their number |
| `HeapPrivacy.CarveAllocates` | A2/allocators/kheap/kheap.c:469-475 | a carved tail is a new live block of the pages asked for; every other live block keeps its extent and contents |
| `HeapPrivacy.UnlinkAllocates` | A2/allocators/kheap/kheap.c:476-486 | the same for a chunk taken whole |
| `HeapPrivacy.NewChunkAllocates` | A2/allocators/kheap/kheap.c:493-500 | the same for a chunk of new pages |
| `HeapPrivacy.ReleaseFrees` | A2/allocators/kheap/kheap.c:505-519 | freeing a chunk removes one live pointer and changes no other live block |
| `HeapPrivacy.FoundPage` | A2/allocators/kheap/kheap.c:393-417 | for a live pointer, the search finds a page exactly if it is a small block; the page is its own and the alignment test passes, so the invalid-address exit is never reached |
| `KHeap.Allocator.constructor` | A2/allocators/kheap/kheap.c:526-532 | an allocator over an unused segment has no live block and satisfies the invariant |
| `KHeap.Allocator.InitRefPage` | A2/allocators/kheap/kheap.c:156-168 | the page's words become the linked list of pagerefs, and no other word changes |
| `KHeap.Allocator.AllocPageref` | A2/allocators/kheap/kheap.c:130-171 | recycled first, then fresh, then a new page of pagerefs; null exactly when the segment is exhausted |
| `KHeap.Allocator.FreePageref` | A2/allocators/kheap/kheap.c:173-179 | the new state is the recycling step |
| `KHeap.Allocator.RemoveLists` | A2/allocators/kheap/kheap.c:245-261 | the new state is the detaching step at the pageref's place |
| `KHeap.Allocator.BlockTypeFor` | A2/allocators/kheap/kheap.c:265-280 | the smallest size that holds the request |
| `KHeap.Allocator.FindFree` | A2/allocators/kheap/kheap.c:302-308 | a page of the size with a free block, or null exactly if there is none |
| `KHeap.Allocator.DoAlloc` | A2/allocators/kheap/kheap.c:310-331 | the new state is the taking step; its first free block is returned |
| `KHeap.Allocator.BuildFreelist` | A2/allocators/kheap/kheap.c:358-369 | the words of the page become its threaded free list, and no other word changes |
| `KHeap.Allocator.FillPage` | A2/allocators/kheap/kheap.c:356-373 | the new state is the installing step |
| `KHeap.Allocator.NewPage` | A2/allocators/kheap/kheap.c:345-373 | the pageref's own page or a new one is installed; if the segment is exhausted the pageref is recycled without a page and none is lost |
| `KHeap.Allocator.SubpageKmalloc` | A2/allocators/kheap/kheap.c:282-378 | a new small block of the smallest fitting size; no other live block changes; the request succeeds without growing the heap if a listed page has a free block or any recycled pageref has a page; null only when the segment is exhausted |
| `KHeap.Allocator.FindPage` | A2/allocators/kheap/kheap.c:393-408 | the in-use pageref whose page contains the pointer, or null exactly if there is none |
| `KHeap.Allocator.FillDeadbeef` | A2/allocators/kheap/kheap.c:28-38 | the block's words are overwritten, and no other word changes |
| `KHeap.Allocator.PushBlock` | A2/allocators/kheap/kheap.c:419-433 | the new state is the putting step |
| `KHeap.Allocator.RecycleIfFree` | A2/allocators/kheap/kheap.c:435-442 | afterwards no page on a size list is wholly free; live blocks are untouched |
| `KHeap.Allocator.SubpageKfree` | A2/allocators/kheap/kheap.c:380-449 | frees a live small block and returns 0; returns -1 and changes nothing exactly for a live big block |
| `KHeap.Allocator.FindChunk` | A2/allocators/kheap/kheap.c:464-490 | the first free chunk that is large enough, with its predecessor, or null exactly if there is none |
| `KHeap.Allocator.TakeFromChunk` | A2/allocators/kheap/kheap.c:469-486 | the tail of a larger chunk or the whole of a fitting one becomes live, with exactly the pages asked for |
| `KHeap.Allocator.GrowChunk` | A2/allocators/kheap/kheap.c:492-500 | new pages become a live chunk exactly if the segment has them; otherwise null and no change |
| `KHeap.Allocator.NoRequest` | A2/allocators/kheap/kheap.c:463-475 | what the code does with a page count that is not positive: with a free chunk it would write a header at the byte computed, without one it stops at the assertion of `mem_sbrk` |
| `KHeap.Allocator.BigKmalloc` | A2/allocators/kheap/kheap.c:451-503 | first fit: the first free chunk that is large enough is used, and only if there is none does the heap grow; null exactly if it cannot; a page count that is not positive is not served |
| `KHeap.Allocator.BigKfree` | A2/allocators/kheap/kheap.c:505-519 | the chunk becomes the first free chunk; every other live block is kept |
| `KHeap.Allocator.MmMalloc` | A2/allocators/kheap/kheap.c:534-550 | a new live block, all others kept word for word; below 2048 bytes a small block less than twice as large as need be, from 2048 up a chunk of the pages counted; the heap stays as large as it is whenever a page of the size has a free block, a recycled pageref has a page, or a free chunk has the pages, and otherwise a chunk takes exactly its pages; the block holds the request exactly if that is at most `LARGEST_REQUEST` bytes; null only when the segment is exhausted, and then every live block is kept; exactly the sizes with a positive page count are served |
| `KHeap.Allocator.MmFree` | A2/allocators/kheap/kheap.c:552-567 | null is ignored; any live pointer goes back to the allocator it came from, and all other live blocks are kept word for word; a small block is overwritten behind its first word, and a chunk is free again with the page count it had |
| `HeapSession.AllocateAgrees` | A2/allocators/kheap/kheap.c:534-550 | what every holder of a block may rely on is kept when another block is handed out, and the new block joins |
| `HeapSession.FreeAgrees` | A2/allocators/kheap/kheap.c:552-567 | the same when a block is freed |
| `HeapSession.WriteAgrees` | A2/allocators/kheap/kheap.c:534-567 | the same when a holder writes: its own block shows the new word, all others what they showed |
| `HeapSession.Session` | A2/allocators/kheap/kheap.c:282-567 | over any sequence of requests, frees, writes and reads, operation by operation: a request gets a new block that holds it, of the right kind and not wasteful, without growth of the heap where that can be avoided, or null when there is no room for its pages; a free gives up that block alone, a write changes that word alone; the live pointers are exactly the held blocks throughout, each holding exactly what its holder last wrote |
| `HeapSession.ReadsLastWrite` | A2/allocators/kheap/kheap.c:282-567 | in any such run a read returns what was last written there |
| `BlockMaps.SetBit` | A2/allocators/a2alloc/a2alloc.c:448 | adding a power of two to a byte whose bit is clear marks that block and no other |
| `BlockMaps.ClearBit` | A2/allocators/a2alloc/a2alloc.c:497 | subtracting a power of two from a byte whose bit is set unmarks that block and no other |
| `BlockMaps.HeaderMapShows` | A2/allocators/a2alloc/a2alloc.c:90-101 | the initial map marks exactly the blocks that the header covers |
| `BlockMaps.ShiftTest` | A2/allocators/a2alloc/a2alloc.c:169 | the shift-and-remainder test reads one bit of the map byte |
| `ArenaState.Reserved` | A2/allocators/a2alloc/a2alloc.c:91-92 | the fewest blocks that cover the 104-byte header; less than a quarter of the superblock |
| `ArenaSafety.AddressRoundTrip` | A2/allocators/a2alloc/a2alloc.c:443-508 | the page of a block's address is its superblock, and the offset divided by the block size its number |
| `ArenaSafety.LiveBlocksPrivate` | A2/allocators/a2alloc/a2alloc.c:434-449 | a live block lies inside its superblock past the header, and two live blocks share no byte |
| `ArenaSafety.UsedBounds` | A2/allocators/a2alloc/a2alloc.c:88-101 | `used_blocks` is between the header's blocks and the total, and equals the total exactly if every bit is set |
| `ArenaSafety.BinRange` | A2/allocators/a2alloc/a2alloc.c:452-454 | bins run from 1 to 5; 5 is exactly full and 1 exactly under a quarter full |
| `ArenaSafety.BinIsQuarter` | A2/allocators/a2alloc/a2alloc.c:452-454 | the bin is `b` exactly if the superblock is at least `b - 1` and less than `b` quarters full |
| `ArenaSafety.BinsBetweenCalls` | A2/allocators/a2alloc/a2alloc.c:328-363 | between calls bin 0 is empty in every heap, and bin 5, which the search skips, holds exactly the full superblocks; every listed superblock is of the bin's heap and class |
| `ArenaSafety.SpaceConserved` | A2/allocators/a2alloc/a2alloc.c:133-143 | the `allocated` counters of all heaps add up to 4096 bytes for every superblock |
| `ArenaSafety.UseConserved` | A2/allocators/a2alloc/a2alloc.c:133-143 | the `used` counters of all heaps add up to the bytes in use of all superblocks |
| `ArenaSafety.EmptinessHasTarget` | A2/allocators/a2alloc/a2alloc.c:526-557 | if a heap uses less than a quarter of its space, some superblock of it is under a quarter full and sits in bin 1 of its class |
| `BinSteps.UnlinkBins` | A2/allocators/a2alloc/a2alloc.c:116-125 | unlinking keeps every other list well formed in both directions |
| `BinSteps.PushBins` | A2/allocators/a2alloc/a2alloc.c:127-133 | so does linking at the front |
| `ArenaSteps.CreateInv` | A2/allocators/a2alloc/a2alloc.c:82-108 | a new superblock keeps the books of every heap |
| `ArenaSteps.RehomeInv` | A2/allocators/a2alloc/a2alloc.c:134-143 | moving a superblock's bytes and space to another heap keeps the books of every heap |
| `ArenaSteps.OccupyInv` | A2/allocators/a2alloc/a2alloc.c:446-450 | marking a clear block keeps maps, counts and the heap's byte sum in step |
| `ArenaSteps.VacateInv` | A2/allocators/a2alloc/a2alloc.c:497-509 | so does unmarking a live one |
| `ArenaCalls.TransferInv` | A2/allocators/a2alloc/a2alloc.c:112-146 | moving a superblock between any two bins of any two heaps keeps lists, maps and books |
| `ArenaCalls.PlaceSettles` | A2/allocators/a2alloc/a2alloc.c:452-459 | moving the superblock to the bin of its new fullness puts every superblock in its right bin again |
| `ArenaCalls.FetchSettles` | A2/allocators/a2alloc/a2alloc.c:365-428 | a superblock taken from heap 0 or made anew is in the right bin of the caller's heap |
| `ArenaCalls.SearchIsComplete` | A2/allocators/a2alloc/a2alloc.c:328-363 | if the search finds nothing, every superblock of the heap and class is full |
| `ArenaCalls.SearchFindsFullest` | A2/allocators/a2alloc/a2alloc.c:328-363 | what the search finds is in the fullest quarter of the heap's superblocks of the class that have space |
| `ArenaCalls.ReturnSettles` | A2/allocators/a2alloc/a2alloc.c:524-558 | the returned superblock keeps its bin, and all superblocks stay in their right bins |
| `ArenaReturns.FreeGivesBack` | A2/allocators/a2alloc/a2alloc.c:526-557 | a free moves exactly one superblock, of the block's heap and to heap 0, exactly if that is not heap 0 itself and its superblocks' bytes in use are then below a quarter of their space and below the space of all but eight of them; otherwise no superblock changes its heap |
| `ArenaReturns.EightStay` | A2/allocators/a2alloc/a2alloc.c:526-531 | in a heap of at most eight superblocks no free moves any |
| `A2Alloc.Allocator.constructor` | A2/allocators/a2alloc/a2alloc.c:563-583 | all bins of all heaps are empty and all counters zero |
| `A2Alloc.Allocator.SizeId` | A2/allocators/a2alloc/a2alloc.c:317-322 | the smallest class that holds the request |
| `A2Alloc.Allocator.FindBlock` | A2/allocators/a2alloc/a2alloc.c:149-178 | the first clear bit, or -1 exactly if all blocks are marked |
| `A2Alloc.Allocator.TransferBins` | A2/allocators/a2alloc/a2alloc.c:112-146 | the linked records and counters afterwards are those of the transfer step |
| `A2Alloc.Allocator.InitSuperblock` | A2/allocators/a2alloc/a2alloc.c:82-108 | the header on the page, its map and what heap 0 counts for it |
| `A2Alloc.Allocator.FindTarget` | A2/allocators/a2alloc/a2alloc.c:328-363 | a superblock with space from the fullest bin that has one; none exactly if every bin is exhausted |
| `A2Alloc.Allocator.CheckEmptyBins` | A2/allocators/a2alloc/a2alloc.c:371-390 | heap 0 has no superblock in bin 0 between calls, so the branch that resets one is never taken |
| `A2Alloc.Allocator.FetchSuperblock` | A2/allocators/a2alloc/a2alloc.c:365-428 | the first superblock of heap 0's bin 1 of the class, else a new page, moved to the caller's heap; null only when the segment is exhausted |
| `A2Alloc.Allocator.FetchNew` | A2/allocators/a2alloc/a2alloc.c:393-428 | a superblock on the next page of the segment, moved to the caller's heap; null, with nothing changed, only when the segment is exhausted |
| `A2Alloc.Allocator.TakeBlock` | A2/allocators/a2alloc/a2alloc.c:430-459 | one new live block past the header; every superblock in its right bin again |
| `A2Alloc.Allocator.MmMalloc` | A2/allocators/a2alloc/a2alloc.c:305-476 | for at most 128 bytes and any caller's processor: one new live block of the smallest fitting class in a superblock of that processor's heap; if that heap has one with space, one of its fullest quarter serves and no superblock changes its heap; else the first of heap 0's bin 1 of the class, else a new one; no other superblock is touched; null, with nothing changed, only when the segment is exhausted |
| `A2Alloc.Allocator.SuperblockFor` | A2/allocators/a2alloc/a2alloc.c:328-428 | the superblock to serve from: the processor's own first, then heap 0's, then a new one |
| `A2Alloc.Allocator.FindReturnable` | A2/allocators/a2alloc/a2alloc.c:531-553 | the search always succeeds, in bin 1 of the smallest class that has one |
| `A2Alloc.Allocator.ReturnSuperblock` | A2/allocators/a2alloc/a2alloc.c:526-557 | the superblock found moves to heap 0 and to nowhere else |
| `A2Alloc.Allocator.MmFree` | A2/allocators/a2alloc/a2alloc.c:478-561 | the superblock and block are recovered from the address alone; that block is no longer live; exactly when it is due by the bytes in use in the heap's superblocks, one superblock under a quarter full goes back to heap 0, and otherwise none changes its heap |
| `ArenaSession.HeldBlocksPrivate` | A2/allocators/a2alloc/a2alloc.c:305-561 | blocks of different holders share no byte and none touches a header |
| `ArenaSession.MallocAgrees` | A2/allocators/a2alloc/a2alloc.c:305-476 | the held blocks stay exactly the live blocks when one is handed out |
| `ArenaSession.FreeAgrees` | A2/allocators/a2alloc/a2alloc.c:478-561 | and when one is freed |
| `ArenaSession.Session` | A2/allocators/a2alloc/a2alloc.c:305-561 | over any sequence of requests and frees from any processors, operation by operation: a request gets a block that was not live, of the smallest fitting class, from its processor's own superblocks if one has space, or null when the segment is exhausted and no superblock has space; a free makes that block alone free, and one superblock goes back to heap 0 exactly when it is due; the live blocks are exactly those handed out and not freed, at their addresses and large enough |
| `Registry.RegisterInv` | A3/server_util.c:731-813 | a new member with an unused name and id keeps the registry's invariant: unique names and ids, every count within its cap, rosters equal to current rooms |
| `Registry.CreateInv` | A3/server_util.c:171-226 | so does a new room with an unused name |
| `Registry.HearInv` | A3/server_util.c:624-636 | so does marking a member as heard |
| `Registry.LeaveInv` | A3/server_util.c:951-976 | so does leaving a room |
| `Registry.JoinInv` | A3/server_util.c:978-995 | so does joining a room that is not full |
| `Registry.DropInv` | A3/server_util.c:384-431 | so does removing a member |
| `Registry.DropRoomInv` | A3/server_util.c:433-455 | so does removing an empty room: no member points to it |
| `RegistryRuns.SweepMembersEffect` | A3/server_main.c:145-176 | the walk over the members removes exactly those already marked quiet, marks the others, and changes no room's name or mark |
| `RegistryRuns.SweepRoomsEffect` | A3/server_main.c:178-211 | the walk over the rooms removes exactly those already marked and marks exactly the empty ones among the others |
| `RegistryRuns.SweepEffect` | A3/server_main.c:145-211 | what a whole sweep leaves, member by member and room by room |
| `RegistryRuns.SweepTail` | A3/server_util.c:436-451 | after a sweep the tail pointer is null exactly if some room was not marked before it and either the pointer was null already or the last room of the list was marked |
| `RegistryHistory.After` | A3/server_util.c:171-1102 | after every possible sequence of registrations, room creations, messages, switches, quits and sweeps the invariant holds |
| `RegistryHistory.QuietTrace` | A3/server_main.c:155-157 | between sweeps a member is not marked quiet exactly if it was not before or has been heard from |
| `RegistryHistory.SweepKeepsTheHeard` | A3/server_main.c:145-176 | of the members registered when a sweep starts, exactly those heard from since the sweep before stay |
| `RegistryHistory.MarkTrace` | A3/server_util.c:995 | between sweeps a room's mark is removed exactly by a join |
| `RegistryHistory.SweepDropsTheUnused` | A3/server_main.c:178-211 | a room goes exactly if it was empty after the sweep before and nobody has joined it since, and it is empty when it goes |
| `RegistryHistory.TailAfter` | A3/server_util.c:436-451 | only a sweep loses the tail pointer, exactly when before it the last room is marked and another is not |
| `RegistryHistory.TailLostExample` | A3/server_util.c:447-448 | a run of two rooms, one member and two sweeps after which no room can be created |
| `RegistryHistory.JoinOrder` | A3/server_util.c:982-992 | over every run a roster lists its members in the order of their latest joins |
| `RegistryHistory.RoomFromHistory` | A3/server_util.c:978-980 | over every run a member's current room is that of its latest join since it registered |
| `RegistryHistory.ChatReachesTheRoom` | A3/server_util.c:563-584 | after any history a chat message goes once to each registered member whose latest join was to the room of the sender's latest join, in join order, and to nobody else |
| `ChatServer.FreeIdExists` | A3/server_util.c:789-806 | some id from 1 to 65535 is unused in every registry, so the drawing loop can end |
| `ChatServer.Server.constructor` | A3/server_util.c:229-340 | an empty server; its room creations from the configuration are further events |
| `ChatServer.Server.CreateRoom` | A3/server_util.c:171-226 | which of the replies is given, in the code's order; the room is appended exactly if the name is short enough and new, there are fewer than 40 rooms and the tail pointer is there; a lost tail pointer is dereferenced (`NullTail`) |
| `ChatServer.Server.CheckCreate` | A3/server_util.c:174-218 | the refusals, in the code's order |
| `ChatServer.Server.FindMemberWithId` | A3/server_util.c:373-382 | the member with that id, or null exactly if there is none |
| `ServerLists.UnlinkFromRoom` | A3/server_util.c:388-411 | the room's list is the old one without the member, linked both ways, with head, tail and count right |
| `ServerLists.AppendToRoom` | A3/server_util.c:978-994 | the room's list is the old one with the member at its end, linked both ways, with head, tail and count right |
| `ChatServer.Server.UnlinkFromList` | A3/server_util.c:414-427 | the member list is the old one without the member, linked both ways, with head, tail and count right |
| `ChatServer.Server.RemoveMember` | A3/server_util.c:384-431 | the records afterwards are those of the registry without the member |
| `ChatServer.Server.UnlinkRoom` | A3/server_util.c:433-455 | the room list is the old one without the room; the tail pointer is cleared exactly if it was the last |
| `ChatServer.Server.DrawId` | A3/server_util.c:789-806 | the loop ends with a drawn number that no other member has, provided such a number is drawn |
| `ChatServer.Server.RegisterMember` | A3/server_util.c:719-829 | which reply is given; exactly if there is room and its name is new the member is appended, in no room, with a drawn id that nobody has, and nothing else changes |
| `ChatServer.Server.CheckSwitch` | A3/server_util.c:919-950 | no rooms, no such room, full, already there, or allowed, decided in this order |
| `ChatServer.Server.SwitchRoom` | A3/server_util.c:906-1016 | the reply, and exactly if it is a success the member leaves its room and joins the other at its end |
| `ChatServer.Server.MoveTo` | A3/server_util.c:951-998 | the records afterwards are those of the registry with the member moved |
| `ChatServer.Server.ChatMsg` | A3/server_util.c:507-592 | an unknown id changes nothing; otherwise the sender counts as heard and the message goes to exactly the members of its room by the history, in join order, up to the first send that fails |
| `ChatServer.Server.Distribute` | A3/server_util.c:563-584 | the walk visits exactly the roster of the sender's room, in order, and ends early exactly at a send that fails |
| `ChatServer.Server.Control` | A3/server_util.c:594-676 | an unknown id is refused and changes nothing; otherwise the sender counts as heard, and then: after a quit it is gone, its name and id free, on no roster; after a successful switch it is last in a room of that name; after a successful creation a new, empty room of that name is there; in each case nobody else is affected, and any other request changes nothing more; the history records it |
| `ChatServer.QuitGone` | A3/server_util.c:384-431 | what a quit leaves of the registry |
| `ChatServer.MovedIsIn` | A3/server_util.c:951-998 | what a switch leaves of it |
| `ChatServer.CreatedIsNew` | A3/server_util.c:196-216 | what a room's creation leaves of it |
| `ChatServer.CreatedExactly` | A3/server_util.c:171-226 | a creation succeeds exactly if the name is short enough and the event is possible: a new name, fewer than 40 rooms and no lost tail |
| `ChatServer.SwitchedExactly` | A3/server_util.c:919-998 | a switch succeeds exactly if there is a room of that name that is not full and not the member's own |
| `ChatServer.Server.QuitMember` | A3/server_util.c:1080-1102 | the member is removed |
| `ChatServer.Server.SweepOneMember` | A3/server_main.c:154-175 | marks or removes one member |
| `ChatServer.Server.SweepMemberList` | A3/server_main.c:148-176 | the walk that unlinks while it goes does what the sweep of the whole list is |
| `ChatServer.Server.SweepOneRoom` | A3/server_main.c:184-208 | marks, keeps or removes one room |
| `ChatServer.Server.SweepRoomList` | A3/server_main.c:178-211 | the same for the rooms |
| `ChatServer.Server.SweepAll` | A3/server_main.c:136-220 | a time-out is exactly one sweep |
| `BarrierSteps.StepInv` | A2/benchmarks/linux-scalability/ptbarrier.h:38-50 | every atomic step of any thread keeps the invariant |
| `BarrierSteps.NobodyLeavesEarly` | A2/benchmarks/linux-scalability/ptbarrier.h:38-50 | a thread has come back from a round only if every thread has been counted in for it |
| `BarrierSteps.RoundsStayClose` | A2/benchmarks/linux-scalability/ptbarrier.h:38-50 | the rounds that two threads have completed differ by at most one |
| `BarrierSteps.CalledCountsTheWaiting` | A2/benchmarks/linux-scalability/ptbarrier.h:41-47 | `called` is the number of sleeping threads, with the one just counted in; it is zero from its reset on, while the sleepers wait for the broadcast |
| `BarrierSteps.SomeoneCanStep` | A2/benchmarks/linux-scalability/ptbarrier.h:38-50 | unless every thread has completed all its rounds, some thread can take a step |
| `BarrierSteps.After` | A2/benchmarks/linux-scalability/ptbarrier.h:38-50 | every run keeps the invariant, and each of its steps is progress |
| `BarrierSteps.EveryRun` | A2/benchmarks/linux-scalability/ptbarrier.h:38-50 | for any number of threads and rounds: nobody leaves early, runs are of bounded length, and where a run cannot go on every thread has completed all rounds |
| `Barrier.PtBarrier.constructor` | A2/benchmarks/linux-scalability/ptbarrier.h:22-29 | nobody counted, nobody waiting |
| `Barrier.PtBarrier.Advance` | A2/benchmarks/linux-scalability/ptbarrier.h:38-50 | a thread's next atomic step on the record is a step of the system; it takes none exactly if none is enabled for it |
| `HandOffSteps.After` | A3/client_main.c:832-922 | in every interleaving the invariant holds |
| `HandOffSteps.EveryLineOnce` | A3/client_main.c:832-922 | the lines read are acted on in order, each once: a line that starts with an exclamation mark as the command behind it without the newline that ends it, any other as a chat message unchanged; at most one line is outstanding; when the reader has stopped at the end of the input, all of it has been acted on |
| `HandOffSteps.MeaningActs` | A3/client_main.c:889-908 | what the worker makes of a line is what the user is promised of it |
| `HandOffSteps.ActIsUnique` | A3/client_main.c:889-908 | and that promise leaves no choice |
| `HandOffSteps.BufferIsPrivate` | A3/client_main.c:886-911 | while the main thread works on the buffer the reader changes neither it nor the flag; outside that time the main thread changes neither |
| `HandOffSteps.NoDeadlock` | A3/client_main.c:832-922 | the threads find something to do a bounded number of times, and when neither can, every line has been acted on |
| `HandOff.Slot.AdvanceReader` | A3/client_main.c:837-859 | the reading thread's next step on the shared variables |
| `HandOff.Slot.AdvanceWorker` | A3/client_main.c:883-911 | the main thread's next step on the shared variables |

## Left out

- KHeap.Allocator.MmMalloc: what a program meets after a header has been written out of place (`Fate.Misplaces`); the model ends before that write. `BigSizes.BigPagesPositive` says for which sizes it comes to that.
- KHeap.Allocator.MmFree: frees of pointers that are not live (the exit for an invalid address, double frees) are undefined for the caller; only null and live pointers are covered.
- KHeap.Allocator.FillDeadbeef: the filling value is one word pattern; that a freed block is overwritten is what matters.
- KHeap.Allocator.constructor: addresses from 2^32 on, where a packed pageref cannot hold its page's address.
- Memlib.DataSegment.MemSbrk: an increment of zero or less, which stops at the assertion in the code.
- Memlib.DataSegment.constructor: the error return when the C library supplies no slab.
- A2Alloc.Allocator.MmMalloc: requests above 128 bytes. From class 256 on the header shares block 0, which `find_block` can return; `malloc_large` and `free_large` link a chunk into one heap and record another. For neither are blocks private. Calls are modelled one after another, so locks are left out, with the early returns that keep them when the segment is exhausted.
- A2Alloc.Allocator.MmFree: that a superblock moves to heap 0 without that heap's lock; only live pointers; the superblock and block number that the contract names are ghost parameters, the code recovers both from the address.
- A2Alloc.Allocator.constructor: the segment must have the pages for the table and the heaps, which the code does not test; bins start empty, although the length of the `memset` relies on new pages being zero.
- A2Alloc.Allocator.FindBlock: the byte-wise arithmetic on `char` and `pow` is arithmetic on 8-bit vectors; the guard `block_map[j] < 255` never excludes a byte that has a clear bit, and a full byte's scan finds nothing.
- ChatServer.Server.RegisterMember: names of 24 bytes or more, which `strncpy` leaves unterminated, and a failing `getpeername`; the draws are a parameter that contains an unused id, as `rand` does sooner or later.
- ChatServer.Server.CreateRoom: names of exactly 24 bytes, whose terminator falls outside the name's field.
- ChatServer.Server.ChatMsg: the header's rewriting and the counts of messages and bytes received are left out.
- ChatServer.Server.Control: the texts of room and member lists and of error replies; a list request counts as heard and changes nothing. The table of connections, `select`, sockets, byte order, logging and time are left out.
- Records that the server or an allocator frees are not reused by the model; a new record is always a new object.
- BarrierSteps.EveryRun: spurious wake-ups and a number of threads other than `needed`, for either of which the barrier gives no guarantee. The sequence of threads waiting for the mutex is left open.
- HandOffSteps.EveryLineOnce: a line is what one `fgets` call returns, so longer lines count as several; what the handlers of commands and chat messages do, reconnecting, the heartbeat and the sleeping between tests are left out.
- The rest of the chat client, its address lookup and windows, the benchmark drivers, the timing assignment, the wrapper of the C library's allocator, scripts and trace data: input and output, timing, or easy members.
