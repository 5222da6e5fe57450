# The memory system of KingdoMicroKernel, verified

A Dafny model of the kernel's memory system and of the small pieces it stands on. Each layer is given
twice: as functions on values, where the laws are proved, and as classes and methods that update
fields, arrays and linked lists the way the C code does, each proved equal to those functions.

`dafny verify dfyconfig.toml` checks everything.

| file | contents |
|---|---|
| Kernel, Dyadic, Bits | shared constants and optional results; powers of two, alignment and dyadic intervals; bitwise operators and the rounding macros |
| ListHeap | the circular intrusive lists, refining a sequence per list |
| BootSizing | where the page array and the managed region lie |
| BuddySpec, BuddyLaws, BuddyRuns, Buddy | the buddy system: a tiling of the region by chunks, its laws, whole runs; the page array with the linked free lists |
| SlabSpec, KmallocSpec, KmallocRuns, Slab | slabs, kmalloc and kfree: the states of a slab, live blocks, whole runs, conservation; headers and in-memory free chains |
| PageTableSpec, PageTableLaws, PageTableRange, PageTable | the walk, mapping one page, mapping a range; table allocator, walker and mapping loop |
| BootMap, Boot | the boot tables, and the boot sequence up to the kernel stack |
| MemorySystem | kmalloc, kfree and map_range together over one buddy system |
| SpinLock, LockOrder | the lock as exclusive-access steps over any number of cores; the order in which the allocators lock |
| Bitops, Printk | bitmap scanning; padding and integer output |

Pages are absolute page numbers (virtual address / 4096) in the allocators, because chunk alignment is
decided on addresses and not on indices into the page array, and physical page numbers in the tables.

## Conditions under which the results hold

- Callers free only chunks and blocks they hold, once. Orders passed to `buddy_get_pages` are 0 to 10.
- The image end meets `BootSizing.Bootable`, which is exactly what the code needs (`Buddy.BootableIff`): the
  managed region contains a 4 MB boundary (otherwise `populate_page` gets NULL from `virt_to_page` at
  mm/buddy.c:143 and uses it), and the page array fits below the region (first finding below).
  The region ends on a 4 MB boundary because PHYS_MEM_END does.
- Each public operation of an allocator is one atomic step; it runs under its lock (SpinLock, LockOrder).
- A range given to `map_range` is no longer than the address space, 2^48 bytes.
- `BUG_ON` stops the kernel; the model gives such a run no next state. The allocators' `BUG_ON`s are
  asserted in the methods and cannot fire. Those of `map_range` fire exactly when `Mappable` fails.

## What the proofs turned up

- `init_buddy` sizes the page array with one division for pages and descriptors together. The array
  reaches into the first allocatable page exactly when the number of available pages is 1 modulo 129
  (`BootSizing.ArrayFitsIff`); an image that ends at 0xB0000 is an example (`ArrayOverlapExample`).
- `map_range` drops the low 12 bits of the physical address and what does not fit the 48 bits of a descriptor: the range
  is translated to that address exactly when it is page-aligned and ends below 2^48 (`PageTableRange.FrameExactIff`).
  `cpu_stacks` is only 16-byte aligned; at 0x90010 the stack is found at 0x90000 (`Boot.StackShiftExample`).
- `__slab_alloc` returns NULL with free blocks left when the class lost its current slab to an earlier
  out-of-memory condition and its partial list has refilled since: the list is not looked at.
  `KmallocRuns.NullWithFreeIff` gives the exact condition, `NullWithFree` the calls that lead there, and
  `NullWithFreeExample` a state they start from.
- A mapping asked for without VMR_READ and VMR_WRITE gets access bits 0, which leave the page readable and writable for
  EL1 (`PageTable.PageBits`).
- Zero-padding on the right changes the printed number, exactly when there is something to pad and the number
  is not 0 (`Printk.RoundTripIff`). A negative value in base 2 needs 64 digits and does not fit
  `print_buf` with its terminator; every other value in bases 2, 10 and 16 fits (`Printk.FitsIff`).
- The comment at mm/buddy.c:136 speaks of 2 MB blocks; the code fills from the first 4 MB boundary, and the model follows it.

## Model

| member | source | states |
|---|---|---|
| Bits.RoundDownIsFloor | include/common/macro.h:19 | masking with ~(n-1) on 64-bit words is the largest multiple of a power of two not above x |
| Bits.RoundUpIsCeiling | include/common/macro.h:18 | the mask form of ROUND_UP is the least multiple not below x, while the sum fits a word |
| ListHeap.InsertRings | include/common/list.h:18-24 | splicing a node into one ring keeps every ring of the heap linked both ways, that ring with the node added at the place asked for |
| ListHeap.DeleteRings | include/common/list.h:32-36 | unlinking a node, wherever it lies, keeps every ring linked both ways, that ring without the node |
| ListHeap.Heap.constructor | include/common/list.h:12-16 | initialised heads are empty lists |
| ListHeap.Heap.AddAfter | include/common/list.h:18-24 | list_add behind any node inserts at that position and leaves all other lists alone |
| ListHeap.Heap.Add | include/common/list.h:18-24 | list_add behind the head prepends |
| ListHeap.Heap.Append | include/common/list.h:26-30 | list_append adds at the end |
| ListHeap.Heap.Del | include/common/list.h:32-36 | list_del removes exactly the given element, wherever it is |
| ListHeap.Heap.Empty | include/common/list.h:38-42 | list_empty holds exactly of the empty sequence |
| ListHeap.Heap.First | include/common/list.h:52 | list_first_entry is the first element |
| ListHeap.Heap.Contains | mm/buddy.c:20-32 | the scan page_in_list is membership in the list |
| BootSizing.SizingInPages | mm/buddy.c:184-192 | the byte arithmetic of init_buddy in whole pages: m available pages give the array ceil(floor(128m/129)/128) pages |
| BootSizing.ArrayFitsIff | mm/buddy.c:184-198 | the page array stays below the first allocatable page exactly when the number of available pages is not 1 modulo 129 |
| BootSizing.ArrayOverlapExample | mm/buddy.c:184-198 | an image end for which it does not |
| BootSizing.Layout | mm/buddy.c:184-198 | image, page array and managed region follow each other without overlap, up to the end of memory |
| BuddyLaws.TakeKeeps | mm/buddy.c:230-263 | a get keeps the tiling, the lists and the absence of mergeable pairs, hands out free pages only and changes hands of nothing else; it fails only when every list from that order up is empty |
| BuddyLaws.TakeLists | mm/buddy.c:49-88 | the exact effect of a get on all eleven lists: one chunk off the least non-empty order, its upper halves on the orders below |
| BuddyLaws.MergeKeeps | mm/buddy.c:94-134 | merging keeps the invariant, swallows free pages only and stops only at the top or at a buddy that is not free |
| BuddyLaws.FreeKeeps | mm/buddy.c:214-228 | a free keeps the invariant and is the inverse hand-over of a get |
| BuddyLaws.MergeLists | mm/buddy.c:94-134 | merging takes the buddy, and nothing else, off each list it passes, the rest in order, and stops at the first order whose buddy is not free |
| BuddyLaws.FreeLists | mm/buddy.c:214-228 | the exact effect of a free on all eleven lists: each order below the merged one loses the buddy, the merged chunk goes in front of its list, the others stay |
| BuddyLaws.MergeAfterTake | mm/buddy.c:94-134 | merging what a get handed out climbs back exactly to the order where splitting began |
| BuddyLaws.FreeUndoesTake | mm/buddy.c:214-263 | a get followed by the free of its result restores the whole state, order inside the lists included |
| BuddyLaws.NestRestores | mm/buddy.c:214-263 | any nest of gets freed in reverse order restores the whole state |
| BuddyLaws.FreeIntervalIsOneChunk | mm/buddy.c:94-134 | every aligned interval of free pages lies inside one free chunk |
| BuddyLaws.FreeChunksUnique | mm/buddy.c:94-134 | the free chunks are a function of the set of free pages |
| BuddyRuns.TotalIsFreePages | mm/buddy.c:283-291 | the sum over the counters is the number of free pages |
| BuddyRuns.TakeTotal | mm/buddy.c:230-263 | a get of order k fails exactly when no list from k up has a chunk, and otherwise lowers the free count by 2^k |
| BuddyRuns.RunKeeps | mm/buddy.c:214-263 | the invariant holds in every state a run of gets and legal frees reaches |
| BuddyRuns.TilingMeansPartition | mm/buddy.c:214-263 | chunks are pairwise disjoint, inside the region and cover it |
| BuddyRuns.AllFreedRestores | mm/buddy.c:214-228 | once everything is freed, in any order, the free chunks are those of the start |
| BuddyRuns.AllFreeTotal | mm/buddy.c:137-174 | with every page free the counters add up to the region |
| BuddyRuns.OneChunkPerOrder | mm/buddy.c:137-174 | an all-free region that ends on a 4 MB boundary has at most one chunk of every order below the top |
| Buddy.Region.RoundTrip | mm/buddy.c:265-281 | virt_to_page undoes page_to_virt |
| Buddy.Region.EnclosingBlock | mm/buddy.c:112-113 | virt_to_page of the rounded-down address is the start of the enclosing block, or NULL when that lies below the region |
| Buddy.BuddyAddress | mm/buddy.c:34-43 | the address arithmetic of merge_chunk finds the buddy and the lower end of the pair, or NULL when the buddy lies below the region; an upper buddy is never past the end |
| Buddy.MergeTest | mm/buddy.c:106-122 | the constant-time test (not allocated, same order) agrees with membership in the free list |
| Buddy.ReprMark | mm/buddy.c:249-257 | the error branch and both BUG_ONs of buddy_get_pages cannot be taken |
| Buddy.BootableIff | mm/buddy.c:140-147 | an image end is Bootable exactly when the first lookup of populate_page finds a page and the page array ends at or below the region |
| Buddy.Allocator.constructor | mm/buddy.c:176-212 | init_buddy leaves a valid, all-free allocator with at most one chunk of every order below the top, the 4 MB chunks in falling order, and counters that sum to page_num |
| Buddy.Allocator.FillUp | mm/buddy.c:150-160 | the forward loop tiles the region from the first aligned page to its end, each chunk in front of the ones before it |
| Buddy.Allocator.FillDown | mm/buddy.c:162-173 | the backward loop tiles the rest down to the start |
| Buddy.Allocator.SplitChunk | mm/buddy.c:49-88 | split_chunk computes Take of the order and halves the result; NULL exactly when Take has nothing or the order is out of range |
| Buddy.Allocator.GetPages | mm/buddy.c:230-263 | buddy_get_pages computes Take on the abstract state and leaves page->slab alone |
| Buddy.Allocator.FindBuddy | mm/buddy.c:111-119 | found exactly when the buddy is on its free list |
| Buddy.Allocator.JoinBuddy | mm/buddy.c:124-128 | unlinking the buddy and raising the order computes Join |
| Buddy.Allocator.MergeChunk | mm/buddy.c:94-134 | merge_chunk computes Merge and ends where no listed buddy is left |
| Buddy.Allocator.FreePages | mm/buddy.c:214-228 | buddy_free_pages computes Free |
| SlabSpec.ChainBound | mm/slab.c:181-186 | a free chain never exceeds total-1 blocks, and one that long holds them all |
| SlabSpec.GrowKeeps | mm/slab.c:20-56 | a fresh slab for a class without a current one keeps the slab invariant |
| SlabSpec.AllocKeeps | mm/slab.c:99-127 | every slab stays in exactly one of the states current, partial, full, also when memory runs out half-way |
| SlabSpec.FreeBlockKeeps | mm/slab.c:167-202 | the same for __slab_free of a block that is out |
| SlabSpec.AllocCurrent | mm/slab.c:84-127 | with a current slab: its first block goes out; only a last block touches more, and then the first partial slab becomes current, else a new slab with its whole chain in order, else none |
| SlabSpec.AllocNew | mm/slab.c:99-127 | without a current slab: block 1 of a new slab goes out; out of memory exactly when no 32 pages are free in one piece |
| SlabSpec.FreeExact | mm/slab.c:167-202 | the exact effect of a free: a full slab goes to the end of the partial list, a whole slab goes back and the first partial slab replaces it as current, the freed block heads its chain |
| KmallocSpec.AllocLive | mm/slab.c:99-127 | __slab_alloc makes exactly one block live, or changes nothing |
| KmallocSpec.FreeBlockLive | mm/slab.c:167-202 | __slab_free ends exactly the block it is given, also when its slab goes back |
| KmallocSpec.LiveDisjoint | mm/slab.c:20-70 | live blocks never overlap |
| KmallocSpec.LivePlaced | mm/slab.c:20-70 | live blocks lie in the region, aligned to their size, clear of every slab header |
| KmallocSpec.ClearOfFree | mm/slab.c:44-49 | live blocks never overlap blocks on a free chain |
| KmallocRuns.ClassFrom | include/mm/slab.h:18-29 | size_to_slab_order gives the least class that holds the size |
| KmallocRuns.OrderFrom | include/mm/buddy.h:14-25 | size_to_page_order gives the least order that holds the size |
| KmallocRuns.KmallocOk | mm/kmalloc.c:39-66 | a block returned was not live, is the only new one, is large enough and less than twice the request (or 64 bytes) |
| KmallocRuns.KmallocNull | mm/kmalloc.c:39-66 | the exact conditions under which kmalloc gives NULL |
| KmallocRuns.FreeLeftIff | mm/slab.c:99-127 | a class without a current slab has free blocks left exactly when its partial list is not empty |
| KmallocRuns.NullWithFreeIff | mm/slab.c:99-127 | a request is refused although a block of its class is free exactly when the class has no current slab, a non-empty partial list, and no 32 pages are free in one piece |
| KmallocRuns.NullWithFree | mm/slab.c:99-202 | the calls that lead there: take the last block of the current slab, free a block of a full one; the next request gets NULL with that block free |
| KmallocRuns.NullWithFreeExample | mm/slab.c:99-202 | a state from which they do |
| KmallocRuns.PagesOnlyForLast | mm/slab.c:84-127 | a kmalloc of a class with a current slab takes pages only when that slab gave its last block and no partial slab was left |
| KmallocRuns.KfreeOk | mm/kmalloc.c:79-100 | kfree of a live block's address reaches the allocator it came from and ends exactly that block |
| KmallocRuns.KfreeSlab | mm/kmalloc.c:93-94 | for the address of a slab block kfree is __slab_free of that block |
| KmallocRuns.KfreePages | mm/kmalloc.c:95-96 | for the address of a page allocation kfree is buddy_free_pages of that chunk |
| KmallocRuns.KfreeForeign | mm/kmalloc.c:83-91 | pointers outside the region and the zero-size pointer are ignored |
| KmallocRuns.RunHonest | mm/kmalloc.c:39-100 | in every state of a run the live blocks are exactly those clients hold |
| KmallocRuns.RunSafe | mm/kmalloc.c:39-100 | in every state of a run held blocks are disjoint, large enough, aligned, in the region, clear of headers and free blocks |
| KmallocRuns.BootedRunSafe | mm/mm.c:9-21 | the same after mm_init, and no held block touches the kernel image or the page array |
| KmallocRuns.Conservation | mm/buddy.c:283-291 | free pages + 32 x slabs + directly allocated pages = pages of the region |
| KmallocRuns.OthersInUse | mm/slab.c:84-97 | every slab that is not current has a block out |
| KmallocRuns.EmptiedClass | mm/slab.c:167-202 | once the blocks of one class are freed, that class holds at most its untouched current slab, whatever else is live |
| KmallocRuns.UnusedFew | mm/slab.c:84-97 | in every state at most 6 slabs have no block out |
| KmallocRuns.OnlyCurrentsLeft | mm/slab.c:185-192 | with nothing live this holds of every class: only untouched current slabs are left |
| KmallocRuns.Retention | mm/slab.c:84-97 | with nothing live the free count is short of the region by 32 pages per kept slab, at most 6 of them |
| Slab.ClientWriteFrame | include/mm/slab.h:46-48 | a write inside a live block changes no header and no free chain |
| Slab.KfreeDispatch | mm/kmalloc.c:86-99 | page->slab tells slab blocks from page blocks and names the slab; the block's index is recovered from its address |
| Slab.SizeToSlabOrder | include/mm/slab.h:18-29 | the loop computes the least class, -1 outside the range |
| Slab.SizeToPageOrder | include/mm/buddy.h:14-25 | the loop computes the least order, -1 outside the range |
| Slab.Pool.constructor | mm/mm.c:9-16 | init_buddy and init_slab give a valid pool without slabs, with empty lists and all pages free, on the region of the image |
| Slab.Pool.BuildChain | mm/slab.c:41-49 | the loop links blocks 1 to total-1 in order and ends in NULL |
| Slab.Pool.AllocSlab | mm/slab.c:20-56 | alloc_slab_from_buddy computes Grow: header, chain, current and the 32 slab pointers |
| Slab.Pool.GetFreeBlock | mm/slab.c:58-70 | takes the head of the chain; neither BUG_ON can fire |
| Slab.Pool.PromotePartial | mm/slab.c:72-82 | the first partial slab, or none, becomes current |
| Slab.Pool.SetNewCurrent | mm/slab.c:84-97 | set_new_current_slab computes NewCurrent |
| Slab.Pool.SlabAlloc | mm/slab.c:99-127 | __slab_alloc computes Alloc; its BUG_ON cannot fire |
| Slab.Pool.PutFreeBlock | mm/slab.c:152-165 | the freed block becomes the head of the chain |
| Slab.Pool.PutSlabToBuddy | mm/slab.c:129-150 | a whole slab goes back and its 32 slab pointers become NULL; neither error branch is taken |
| Slab.Pool.SlabFree | mm/slab.c:167-202 | __slab_free computes FreeBlock and returns 0; its BUG_ON cannot fire |
| Slab.Pool.SlabFreeAt | mm/slab.c:250-278 | slab_free of a live block frees it; NULL and misaligned addresses give -EINVAL, other foreign ones nothing |
| Slab.Pool.GetPages | mm/kmalloc.c:9-24 | get_pages computes Take; NULL exactly when Take has nothing |
| Slab.Pool.FreePages | mm/kmalloc.c:26-37 | free_pages computes Free for any address in the first page of a chunk, and ignores addresses outside the region |
| Slab.Pool.Kmalloc | mm/kmalloc.c:39-66 | kmalloc computes the specified result and real_size is the size of the block |
| Slab.Pool.Kfree | mm/kmalloc.c:79-100 | kfree computes the specified result for live blocks and foreign pointers |
| Slab.Pool.ClientWrite | include/mm/slab.h:46-48 | a client's write of a word inside a block it holds leaves the pool valid and its abstract state unchanged |
| PageTableSpec.TableFields | arch/aarch64/mm/page_table.c:165-171 | a table descriptor reads back as valid, a table, and its page number |
| PageTableSpec.TableBits | arch/aarch64/mm/page_table.c:165-171 | a new table descriptor has no attribute bits besides valid and table |
| PageTableSpec.LeafFields | arch/aarch64/mm/page_table.c:281-288 | a leaf reads back as valid with its page number, whatever the attribute bits |
| PageTableSpec.PrefixInjective | include/arch/aarch64/arch/mm/page_table.h:41-50 | the four indices determine the page within the 48-bit space |
| PageTableLaws.HungWalk | arch/aarch64/mm/page_table.c:151-172 | hanging an empty table under an empty entry changes no translation |
| PageTableLaws.DescendOk | arch/aarch64/mm/page_table.c:120-181 | get_next_ptp with alloc goes one level down the path, keeps the tree and every translation, and takes one free page per new table |
| PageTableLaws.MapOneOk | arch/aarch64/mm/page_table.c:267-288 | mapping a page translates it to its frame and changes no other translation |
| PageTableLaws.MapPagesOk | arch/aarch64/mm/page_table.c:267-299 | the same for a range across any table boundaries |
| PageTableRange.MapOneIff | arch/aarch64/mm/page_table.c:267-276 | mapping a page fails exactly at a block descriptor or when fewer pages are free than tables are missing on its path |
| PageTableRange.MissingTablesStep | arch/aarch64/mm/page_table.c:267-299 | mapping the first page of a range removes exactly its own tables from the missing ones |
| PageTableRange.MapPagesIff | arch/aarch64/mm/page_table.c:267-299 | a range can be mapped exactly when no page lies under a block descriptor and the free pages cover its missing tables; it then takes exactly those |
| PageTableRange.RangeQueries | arch/aarch64/mm/page_table.c:190-235 | what the mapping of pages means for the query of every address |
| PageTableRange.FrameExactIff | arch/aarch64/mm/page_table.c:285 | the range translates to pa itself exactly when pa is page-aligned and the range ends below 2^48 |
| PageTableRange.MapRangeExact | arch/aarch64/mm/page_table.c:247-306 | success exactly under the condition above; then query(va + j) is byte j from the frame of pa on (modulo 2^48) for every j of the range, every other address queries as before, and the tables grow by the missing ones |
| PageTable.LeafBits | arch/aarch64/mm/page_table.c:55-100 | every attribute bit of a leaf, from the flags: access, execute-never for both levels, memory type, shareability, access flag, not-global; no other bit is set |
| PageTable.AddressSpace.NextPtp | arch/aarch64/mm/page_table.c:146-180 | one step of the walk: -ENOMEM, table or block |
| PageTable.AddressSpace.NewTable | arch/aarch64/mm/page_table.c:151-172 | a page from the buddy system becomes a table of zeroes under the entry |
| PageTable.AddressSpace.NextPtpAlloc | arch/aarch64/mm/page_table.c:120-181 | get_next_ptp with alloc computes Descend, fails with -ENOMEM or at a block, and adds 4096 to *rss per new table |
| PageTable.AddressSpace.QueryPtp | arch/aarch64/mm/page_table.c:190-235 | query_in_pgtbl computes Query |
| PageTable.AddressSpace.FillTable | arch/aarch64/mm/page_table.c:278-298 | the inner loop maps pages until the table or the range ends |
| PageTable.AddressSpace.MapRange | arch/aarch64/mm/page_table.c:247-306 | map_range_in_pgtbl_common computes MapPages page by page and adds 4096 to *rss per page and table; a NULL rss stays NULL |
| PageTable.AddressSpace.MapRangeUser | arch/aarch64/mm/page_table.c:329-332 | succeeds exactly when Mappable; then the range is mapped with the requested protection bit by bit, no other page changed its descriptor, and *rss grew by 4096 x (pages + new tables) |
| PageTable.AddressSpace.MapRangeKernel | arch/aarch64/mm/page_table.c:316-319 | the same without a counter, never executable for EL0 |
| BootMap.BlockDescFields | arch/aarch64/boot/raspi3/init/mmu.c:91-96 | or-ing address and attributes gives a valid block with that address |
| BootMap.TableDescFields | arch/aarch64/boot/raspi3/init/mmu.c:85-88 | the same for table descriptors |
| BootMap.InitHigh | arch/aarch64/boot/raspi3/init/mmu.c:74-109 | the loops leave every entry of the three high tables as specified |
| BootMap.InitLow | arch/aarch64/boot/raspi3/init/mmu.c:115-126 | the same for the low tables |
| BootMap.HighDirectMap | arch/aarch64/boot/raspi3/init/mmu.c:82-109 | walking the high tables at phys_to_virt(p) gives p for every p below 4 GB |
| BootMap.LowIdentityMap | arch/aarch64/boot/raspi3/init/mmu.c:111-126 | the low tables map every p below 1 GB to itself |
| BootMap.HighOnly | arch/aarch64/boot/raspi3/init/mmu.c:74-109 | the high tables map nothing but those 4 GB |
| BootMap.LowOnly | arch/aarch64/boot/raspi3/init/mmu.c:111-126 | the low tables map nothing but that gigabyte |
| BootMap.HighMemoryTypes | arch/aarch64/boot/raspi3/init/mmu.c:89-109 | the block the walk ends at is normal shared memory below 0x3F000000, shared device memory up to 1 GB, device memory above, and has no bits but those asked for |
| BootMap.LowMemoryTypes | arch/aarch64/boot/raspi3/init/mmu.c:118-126 | normal memory in the first 2 MB, device memory in the rest of the gigabyte |
| BootMap.TableDescBits | arch/aarch64/boot/raspi3/init/mmu.c:85-88 | boot table descriptors are valid, table and not-global, nothing else |
| BootMap.HighTree | arch/aarch64/boot/raspi3/init/mmu.c:85-109 | the high tables are a well-formed tree |
| Boot.BootSpace | arch/aarch64/main.c:40-45 | boot tables below the region and any state of the buddy system satisfy the invariant of the mapping loop |
| Boot.StackKeepsDirectMap | arch/aarch64/main.c:43-45 | mapping a kernel stack, in any state of the tables, keeps the direct map |
| Boot.StackOverBoot | arch/aarch64/main.c:43-45 | over the boot tables the stack is mapped exactly when three pages are free; then the stack is found in its frame, the direct map is intact below 4 GB and nothing else changed |
| Boot.StackShiftExample | arch/aarch64/main.c:43-45 | for a stack array at 0x90010 the first address of the stack translates to 0x90000 |
| Boot.StackGuarded | arch/aarch64/main.c:43-45 | the page behind a mapped stack stays unmapped |
| Boot.SystemFromBoot | arch/aarch64/main.c:40-45 | after mm_init allocator and tables are a sound start for any run |
| Boot.BootedSystemSafe | arch/aarch64/main.c:40-45 | in every state of a run of kmalloc, kfree and map_range from there on, held blocks are disjoint and clear of image, page array and page tables |
| Boot.BootTables | arch/aarch64/boot/raspi3/init/mmu.c:72-109 | init_kernel_pt on zeroed arrays gives the high tables, with the memory types above |
| Boot.BootLowTables | arch/aarch64/boot/raspi3/init/mmu.c:111-126 | the same for the low half; they map every p below 1 GB to itself, with the memory types above |
| Boot.BootKernel | arch/aarch64/main.c:40-45 | init_kernel_pt then init_buddy give a valid address space with the direct map and all page_num pages free |
| Boot.MapKernelStack | arch/aarch64/main.c:44-45 | the call in main succeeds exactly when Mappable, keeps the direct map and maps the stack, writable and never executable |
| MemorySystem.MapPagesSound | arch/aarch64/mm/page_table.c:156-161 | mapping keeps the slab layer sound; the new tables are the only new blocks |
| MemorySystem.StepOk | mm/kmalloc.c:9-100 | every kmalloc, kfree and map_range keeps allocator, blocks and tables sound together |
| MemorySystem.SystemSafe | mm/kmalloc.c:9-100 | in every state of a run of the three, held blocks are disjoint and well placed and none overlaps a page table; the tables stay a tree on taken pages |
| SpinLock.StepKeeps | include/arch/aarch64/arch/sync.h:110-132 | every step of every core keeps the lock invariant |
| SpinLock.MutualExclusion | include/arch/aarch64/arch/sync.h:105-132 | over every interleaving at most one core holds the lock, and the word is 1 exactly when one does |
| SpinLock.NoLostWakeup | include/arch/aarch64/arch/sync.h:118-128 | whenever the lock is free every sleeping core has its wake-up event pending |
| SpinLock.Progress | include/arch/aarch64/arch/sync.h:110-124 | while nobody holds the lock any core that wants it gets it by its own next steps |
| SpinLock.ForeignUnlockBreaks | include/arch/aarch64/arch/sync.h:126-132 | an unlock by a core that does not hold the lock lets two cores in |
| LockOrder.NoDeadlock | mm/slab.c:99-127 | in every reachable state the wait-for relation between cores has no cycle |
| LockOrder.SomeoneMoves | mm/slab.c:167-202 | whenever a core waits, some core that is not idle can take its next step |
| Bitops.SetBit | include/common/bitops.h:17-22 | bit nr becomes 1 and no other bit of the map changes |
| Bitops.ClearBit | include/common/bitops.h:33-38 | bit nr becomes 0 and no other bit of the map changes |
| Bitops.FindNext | include/common/bitops.h:52-75 | the least matching position in [start, size), or size |
| Bitops.SetBitsExact | include/common/bitops.h:95-97 | the list of set positions is increasing and holds each of them |
| Bitops.ForEachSetBit | include/common/bitops.h:95-97 | for_each_set_bit visits exactly that list |
| Printk.Prints | lib/printk.c:19-51 | puts out the string padded to the width and returns the number of characters |
| Printk.FillDigits | lib/printk.c:71-80 | the loop leaves the digits before the terminator, inside print_buf |
| Printk.OutputI | lib/printk.c:53-93 | puts out the rendered integer and returns the number of characters |
| Printk.RenderedLength | lib/printk.c:53-93 | exactly max(width, natural length) characters |
| Printk.RenderedAligned | lib/printk.c:19-51 | the padding is behind the number when left-aligned and before it otherwise, zeros behind the minus sign, and consists of the padding character only |
| Printk.RenderedText | lib/printk.c:58-90 | the number is a minus sign exactly for negative signed decimals, then digits of the case asked for |
| Printk.FitsIff | lib/printk.c:5-80 | digits, sign and terminator fit print_buf exactly when the base is not 2 or the value is not negative |
| Printk.RoundTripIff | lib/printk.c:53-93 | reading the output back gives the number printed, or for unsigned bases its value modulo 2^64, exactly when it is 0 or zero-padding on the right adds nothing |

## Left out

- kzalloc: its guard at mm/kmalloc.c:73 clears only when the pointer is not valid, so no zeroing property holds of the code as written.
- Buddy.Allocator.constructor: image ends outside `Bootable` are excluded; populate_page then uses a NULL page or the page array overlaps the region (`Buddy.BootableIff`).
- Slab.Pool.constructor: the same.
- Boot.BootKernel: the same; and the tables are values of a map from page numbers, so that the arrays are the memory at those pages is not modelled.
- Slab.Pool.SlabFreeAt: says nothing about aligned addresses on slab pages that are no live block.
- Slab.Pool.Kfree: says nothing about pointers into the region that are no live block; the code then corrupts its lists.
- Bitops.FindNext: positions are naturals; the C functions return int, so sizes from 2^31 on are not covered, and size 0 is excluded: its last word wraps to 2^58 - 1 and the scan leaves the bitmap.
- Bitops.ForEachSetBit: the same.
- Printk.OutputI: LONG_MIN in signed base 10 is negated without overflow (undefined in C), widths are unbounded, and bases whose digits do not fit print_buf are excluded.
- PageTable.AddressSpace.MapRangeUser: ranges longer than 2^48 bytes, which would map pages of the range over each other, are excluded.
- PageTable.AddressSpace.MapRangeKernel: the same.
- PageTable.AddressSpace.MapRange: the state after a BUG_ON is not described; barriers and TLB maintenance are not modelled.
- The class for the slab pool and the class for the address space each own their allocator; runs over a shared one are proved on values (MemorySystem).
- The contents of a table page and of a free block are separate maps; that they are one memory is expressed by the disjointness results, not by aliasing.
- Whether a client reads what it wrote, and the memory ordering of acquire and release.
- The format-string scanner of simple_vsprintf and the `%h` variants, which read another union member.
- The test drivers, the print_*_info functions, hlist, string helpers, errno and the syscall table.
- UART, interrupt controller, timers, mailbox and performance counters: memory-mapped registers.
- Permission bits beyond what set_pte_flags puts into a leaf.
