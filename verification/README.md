# A verified model of the bloodmoon kernel

bloodmoon is an x86-64 kernel written in C. This project models its hardest
parts in Dafny 4.11 and proves what they keep, over every input and every run.
`dafny verify dfyconfig.toml` checks all of it.

The parts and their modules, beside `Basics` with what they share:

* **Kernel heap** (`heap.c`). `HeapSpec` is the allocator on a list of segments;
  `HeapLaws` proves the invariant over every run, the exact counters, that a
  call expands at most twice and that free undoes malloc; `HeapMemory` is the
  allocator on linked headers in memory, each operation proved equal to the one
  on the list and shown to leave live payloads alone; `HeapClients` adds clients
  that write into their blocks, and shows over whole runs that they read it back.
* **Physical pages, page tables and ELF segments** (`memory.c`, `paging.c`,
  `loader.c`). `PageBitmap` is the bitmap with its search; `PageTree` says when
  tables form a forest and what a walk means; `Paging` maps, unmaps, protects
  and duplicates, with the rights of a page over all four levels; `Loader` reads a loaded segment back through the new table.
* **Scheduler, timed sleep, timer and locks** (`scheduler.c`, `sline.c`, `pit.c`,
  `interrupts.c`, `concurrency.c`). `SchedSpec` is one step machine, `SchedLaws`
  its invariants, who can run, bounded waiting and sleep times, `Scheduler` the loops and the
  linked queue that refine it; `Locks` has semaphores over all interleavings and
  the interrupt flag of spinlocks.
* **JSON** (`json.c`). `JsonSpec` is the loop body, run twice; `JsonFirst` shows
  the first pass safe; `JsonPasses`, `JsonSecond` and `JsonAgree` that the second
  pass follows it inside the counted sizes; `JsonTree` that the result is a tree.
  `JsonGrammar` is the language by recursive descent; `JsonValues` has its lexemes,
  `JsonReads` and `JsonBuilds` prove that either pass reads it, no more and no less,
  and builds its tree. `JsonRfc` writes the texts of RFC 8259 with every choice that
  a writer has, and proves each of them read as the value it writes. `JsonMemory` is the memory of the values, `JsonParser` the
  loop with its flags, records and memory in place, `JsonFree` the iterative
  freeing walk, `JsonParse` the driver.
* **MD5** (`md5.c`). `Md5Spec` follows sections 3.1 to 3.5 of RFC 1321; `Md5` is the
  streaming form; `Md5Known` has the digest of "abc" from its appendix A.5.
* **Circular byte buffer** (`lists.c`): `CircularBuffer`.
* **Numbers as text** (`printf.c`, `string.c`). `NumberSpec` has digits and the
  meaning of a parse, `NumberText` the printed text and the round trips,
  `NumberPrinter` and `NumberParser` the loops.

What is modelled imperatively in C is a class or a method with loops here, proved
against functions; the laws are lemmas about those functions. Word sizes are
written out where they matter: 64-bit request sizes, 32-bit MD5 words and
counters, 64-bit numbers, the 32-bit length limits of JSON. The supply of pages,
the clock and the addresses of new queue entries are parameters. A panic is an
outcome.

Some promises turned out not to hold without a condition. Each has its exact
condition, and where it helps a concrete case: page search from cursor 0
(`PageBitmap.FullSearchFromZeroNeverEnds`), request sizes near 2^64
(`HeapSpec.RequestArithmeticIsExact`, `HeapSpec.RequestArithmeticWraps`,
`HeapLaws.MallocAddsOneBlock`), freeing the main segment
(`HeapLaws.FreeRemovesOneBlock`), resizing a dangling address
(`HeapClients.ResizedIsLiveIff`), a copied address space that is not separate from
its father (`Paging.MappingReachesFather`), buried tasks that are paused or resumed
(`SchedLaws.StepKeepsBuried`), spinlocks released out of order
(`Locks.UnlockKeepsFlagIff`), digits beyond the conversion buffer
(`NumberText.RoundTrip`), surrogate pairs (`JsonRfc.PairsExactIff`), fractions of
long numbers (`JsonRfc.LongFractionFails`), a minus sign without room (`NumberText.SignedRoundTrip`)
and digits lost to the alternative form (`NumberText.HashRoundTrip`).

The code is followed where it departs from its evident intent: a merging
expansion loses one header and every expansion counts one header too many
(`src/memory/heap.c:274-275`, `src/memory/heap.c:294-295`), and both are part of the
ledger.

## Model

| member | source | states |
|---|---|---|
| `HeapSpec.RequestArithmeticIsExact` | src/memory/heap.c:141-147 | the rounding to 16, the added header and the rounding to pages stay within 64 bits if and only if the request is at most 2^64 - 4096 - 48 |
| `HeapSpec.RequestArithmeticWraps` | src/memory/heap.c:141-147 | the larger sizes: up to 2^64 - 48 the expansion maps nothing, above 2^64 - 64 the sum with the header wraps below a header, and exactly above 2^64 - 16 the request becomes 0 |
| `HeapSpec.WrappedSplitOverruns` | src/memory/heap.c:107-117 | a segment that passes the wrapped test would get its new header across its own end |
| `HeapLaws.LiveBlocksAreApart` | src/memory/heap.c:137-172 | in a state of the invariant live blocks are 16-aligned, lie between the lowest header and the main segment, and two of them are at least a header apart |
| `HeapLaws.LivePayloadHoldsNoHeader` | src/memory/heap.c:107-125 | no segment header lies inside a live payload |
| `HeapLaws.InitKeepsInv` | src/memory/heap.c:45-62 | a fresh heap satisfies the invariant, has no live block, and its two segments fill the page from end to end |
| `HeapLaws.TakeKeepsInv` | src/memory/heap.c:151-163 | cutting a block from a free segment, or taking it whole, keeps list, counters and alignment and adds exactly one live block |
| `HeapLaws.ExpandKeepsInv` | src/memory/heap.c:271-295 | growing downwards keeps the invariant, reaches exactly that many bytes further, changes no live block, and loses 48 bytes if and only if the last segment was free |
| `HeapLaws.AllocateKeepsInv` | src/memory/heap.c:146-171 | search, expand and retry: the outcome is a panic or one new live block |
| `HeapLaws.MallocAddsOneBlock` | src/memory/heap.c:137-172 | for every size outside that band malloc panics or adds one new 16-aligned block; the block is at least as long as asked for, and by fewer than 16 bytes, if and only if the size did not wrap; a wrapped size gets a block of 0 bytes or, when nothing is free, one more page and null; a zero request changes nothing |
| `HeapLaws.ReleaseKeepsInv` | src/memory/heap.c:204-227 | freeing with three-way coalescing keeps the invariant (no two free neighbours) and removes exactly that block |
| `HeapLaws.FreeOfMain` | src/memory/heap.c:197-228 | the address behind the main segment is freed if and only if the segment below is in use, no live block has it, and the invariant is lost |
| `HeapLaws.FreeRemovesOneBlock` | src/memory/heap.c:197-228 | for every address: free succeeds if and only if it is null, a live block, or the main segment with the segment below in use; a live block and nothing else is removed; the invariant is kept if and only if it was not the main segment |
| `HeapLaws.SecondExtensionFits` | src/memory/heap.c:151-163 | after two extensions the last segment fits the request, although one may land in the range (size, size + H] that no request can use |
| `HeapLaws.AllocateExpandsTwice` | src/memory/heap.c:146-172 | search, expand and retry ends after at most two expansions |
| `HeapLaws.AtMostTwoExpansions` | src/memory/heap.c:137-172 | a malloc of any served size maps none, one or two rounds of pages, counts 48 bytes too many for each, maps none if and only if a free segment is usable (of the very size, or more than 48 bytes longer), and succeeds whenever pages and addresses for two rounds are left |
| `HeapLaws.MallocPlaces` | src/memory/heap.c:146-165 | the block is the upper end of the usable free segment with the highest address, and nothing is mapped |
| `HeapLaws.ReallocTradesBlocks` | src/memory/heap.c:230-242 | realloc gives up exactly the old block and adds one of the rounded size; for a null pointer it is malloc, for size 0 it does nothing, and for an address that nobody holds it panics, unless its own malloc hands that address out |
| `HeapLaws.FreeUndoesTake` | src/memory/heap.c:197-228 | freeing a block that was just cut gives back the same heap |
| `HeapLaws.FreeUndoesAllocate` | src/memory/heap.c:146-228 | the same for search, expand and retry |
| `HeapLaws.FreeUndoesMalloc` | src/memory/heap.c:137-228 | free(malloc(n)) leaves the heap as malloc had grown it: same segments, same counters |
| `HeapLaws.WrappedReallocOverruns` | src/memory/heap.c:230-242 | a realloc to a size that wraps copies all bytes of the old block to a block of none |
| `HeapLaws.StepKeepsInv` | src/memory/heap.c:137-242 | malloc, free and realloc each keep the invariant if and only if they do not release the main segment |
| `HeapLaws.EveryRunKeepsInv` | src/memory/heap.c:28-296 | every run from a fresh heap that never passes the main segment keeps it: strictly descending, no overlap, the main segment first and never free, no two free neighbours, 16-aligned, on whole pages, counters exact |
| `HeapLaws.RunKeepsInv` | src/memory/heap.c:137-242 | the same from any state of the invariant |
| `HeapLaws.Ledger` | src/memory/heap.c:61-62 | used + free = total, used is the sum of length + H over live blocks, and the free counter exceeds the free bytes by H for each expansion and each merge, and once for the main segment |
| `HeapMemory.KernelHeap.constructor` | src/memory/heap.c:45-68 | two linked headers on one page stand for the fresh heap |
| `HeapMemory.KernelHeap.SplitSegment` | src/memory/heap.c:107-125 | the list with the segment in two halves is doubly linked; exactly three headers were written; nothing happens when the segment is too short |
| `HeapMemory.KernelHeap.TakeSegment` | src/memory/heap.c:151-163 | on linked headers it does what Take does on the list, and keeps the bytes of every live block |
| `HeapMemory.KernelHeap.MergeThisToNext` | src/memory/heap.c:174-181 | the list with the two segments joined is doubly linked, the absorbed header is gone, and only three headers were touched |
| `HeapMemory.KernelHeap.MergeLastToThis` | src/memory/heap.c:183-190 | the same towards the other neighbour |
| `HeapMemory.KernelHeap.MergeLastAndThisToNext` | src/memory/heap.c:192-195 | three segments become one, both absorbed headers are gone |
| `HeapMemory.KernelHeap.Coalesce` | src/memory/heap.c:208-227 | whichever neighbours are free, the linked headers become the released list |
| `HeapMemory.KernelHeap.Release` | src/memory/heap.c:204-227 | free on linked headers is Free on the list, and no live payload changes |
| `HeapMemory.KernelHeap.ReleaseMain` | src/memory/heap.c:204-227 | on linked headers the main segment is marked free, or the kernel stops, as Free on the list has it |
| `HeapMemory.KernelHeap.FindHeader` | src/memory/heap.c:201-203 | a header in use stands in front of the address if and only if it is that of a segment in use; otherwise Free on the list panics |
| `HeapMemory.KernelHeap.Free` | src/memory/heap.c:197-228 | for every address free on linked headers is Free on the list, with its panics, and no live payload changes; the invariant is kept if and only if it was not the main segment |
| `HeapMemory.KernelHeap.MapPages` | src/memory/heap.c:260-269 | pages are taken one by one until they or the addresses run out |
| `HeapMemory.KernelHeap.AddLastSegment` | src/memory/heap.c:271-292 | the new lowest segment is linked in or replaces a free last one, and live payloads are kept |
| `HeapMemory.KernelHeap.ExpandHeap` | src/memory/heap.c:244-296 | expand_heap is Expand on the list; it fails exactly when pages or addresses run out |
| `HeapMemory.KernelHeap.Malloc` | src/memory/heap.c:137-172 | malloc on linked headers is Malloc on the list, for sizes that wrap to 0 too, and no live payload changes |
| `HeapMemory.KernelHeap.CopyBytes` | src/memory/heap.c:238 | memcpy of disjoint ranges copies those bytes and changes no other |
| `HeapMemory.KernelHeap.MoveBlock` | src/memory/heap.c:235-239 | copies the common prefix of a block to the new one and frees it, whatever block or segment it is |
| `HeapMemory.KernelHeap.Realloc` | src/memory/heap.c:230-242 | for every buffer the outcome, the pointer and the list are those of the step Realloc_; a live buffer is moved: its first bytes stand in the new block and every other live payload is kept; its block is given up and the new one, of the rounded size, is in use |
| `HeapMemory.KernelHeap.Write` | src/memory/heap.c:151-172 | a client writes anywhere inside a block in use: those bytes change, the list, its headers and counters stay valid, and no other block changes |
| `HeapClients.ResizedIsLiveIff` | src/memory/heap.c:230-242 | the block that realloc returns is in use, with room for the size, if and only if the address was not a dangling one that its own malloc hands out again; every other block stays |
| `HeapClients.BlocksAfter` | src/memory/heap.c:137-242 | a call keeps the invariant and every block but the one it is given |
| `HeapClients.OwnedAfter` | src/memory/heap.c:137-242 | what clients know lies inside blocks in use after every call and write |
| `HeapClients.ServeOne` | src/memory/heap.c:137-242 | one call or write: the bytes that clients wrote and still own are in memory afterwards, moved along by a realloc |
| `HeapClients.Serve` | src/memory/heap.c:137-242 | over every run of mallocs, frees, reallocs and writes into own blocks: the heap stays valid, stops exactly where the list does, and memory holds every byte that clients wrote and still own |
| `HeapClients.StepRemembers` | src/memory/heap.c:137-242 | a request that neither writes a byte nor gives up its block leaves it known, also when a realloc copies elsewhere |
| `HeapClients.WrittenStays` | src/memory/heap.c:137-242 | a byte stays as written over every run until it is written again or its block goes |
| `HeapClients.ReadsBack` | src/memory/heap.c:137-242 | a client reads back what it wrote |
| `HeapClients.PrefixMoves` | src/memory/heap.c:230-242 | what a client wrote into a block is known at the same offset of the resized one |
| `PageBitmap.ByteBits` | src/memory/memory.c:14-16 | the bit macros set and clear their own bit and no other, for every byte |
| `PageBitmap.BitIsDigit` | src/memory/memory.c:14-16 | page x is binary digit x % 8 of byte x / 8, counted from the lowest |
| `PageBitmap.SetPage` | src/memory/memory.c:20-44 | setting or clearing the bit of a page adds or removes that page and no other |
| `PageBitmap.ProbesCover` | src/memory/memory.c:113-135 | from a cursor of at least 1 the first `total` probes visit every index 1..total exactly once |
| `PageBitmap.FullSearchFromZeroNeverEnds` | src/memory/memory.c:113-135 | from cursor 0 with every page locked the search never reaches its panic |
| `PageBitmap.Bitmap.constructor` | src/memory/memory.c:258-288 | no page is locked at first |
| `PageBitmap.Bitmap.GetPageBit` | src/memory/memory.c:38-44 | the bit of a page says whether it is locked |
| `PageBitmap.Bitmap.LockPage` | src/memory/memory.c:65-73 | locks exactly that page; fails exactly for a locked page or one out of range |
| `PageBitmap.Bitmap.UnlockPage` | src/memory/memory.c:75-83 | the same for unlocking |
| `PageBitmap.Bitmap.RequestPage` | src/memory/memory.c:113-135 | locks the first free page of the probe order and returns its address; panics if and only if every index 1..total is locked; whether it succeeds or panics it looks at no index twice, at most `total` of them from a cursor of 1 on and `total` + 1 from 0; every page passed on the way up from the cursor is locked |
| `PageBitmap.Bitmap.FreePage` | src/memory/memory.c:137-152 | unlocks the page of the address, or panics |
| `PageBitmap.Bitmap.ReservePages` | src/memory/memory.c:85-93 | locks exactly the pages of the range; panics if one of them is taken |
| `PageBitmap.NeverHandedOutTwice` | src/memory/memory.c:113-152 | in every sequence in which requests get unlocked pages and frees return locked ones, a page is handed out again only after a free of it |
| `PageBitmap.StaysLocked` | src/memory/memory.c:113-152 | a locked page is not handed out before a free of it |
| `PageBitmap.Bitmap.Serve` | src/memory/memory.c:113-152 | driven by any list of requests and frees, the bitmap answers each or stops at the first that must panic, and no page is handed out twice without a free of it in between |
| `PageTree.PathIsPage` | src/memory/paging.c:19-28 | two addresses take the same path if and only if they lie in the same page of the 48-bit space (section 4.5 of the Intel SDM volume 3A) |
| `PageTree.WalkSlots` | src/memory/paging.c:30-65 | in a forest of tables every frame that a walk reaches is the one owned by that slot: walks never meet |
| `PageTree.AttachKeepsTrees` | src/memory/paging.c:252-305 | hanging a blank frame into an empty slot keeps the tables a forest |
| `PageTree.AttachKeepsLookup` | src/memory/paging.c:252-305 | and changes no translation in any address space |
| `PageTree.AttachKeepsRights` | src/memory/paging.c:252-305 | nor does it take a right (write, user, execute) away on the way to any page of any address space |
| `PageTree.PutKeepsTrees` | src/memory/paging.c:307-315 | writing a leaf entry keeps the forest |
| `PageTree.PutLookup` | src/memory/paging.c:307-315 | writing a leaf entry changes the translation of that page in the address spaces that share the leaf table, and nothing else |
| `PageTree.StepAdds` | src/memory/paging.c:252-305 | one step down adds exactly the table of that place, in that address space |
| `PageTree.MissingSplits` | src/memory/paging.c:241-315 | frames for tables are counted once: what earlier pages added is not missing for later ones |
| `PageTree.DuplicateTranslates` | src/memory/paging.c:77-121 | a copied top translates the slots [start, end) as the father does, with the same rights on all four levels, and nothing else |
| `Paging.PermsRoundTrip` | src/memory/paging.c:485-553 | bits 0 to 3 of the flags set write, user, no-execute and cache-disable and nothing else, and read back as they were written, whatever the entry held |
| `Paging.PageCountIsOverlap` | src/memory/paging.c:575-580 | the pages that mprotect counts are those with a byte of the range |
| `Paging.PutRemaps` | src/memory/paging.c:241-315 | a path made complete and a leaf written amount to one changed page |
| `Paging.CopyShowsFather` | src/memory/paging.c:77-121 | after the copy every address below [start, end) translates in the copy as in the father before, no other address translates there, and no existing address space changed |
| `Paging.SharingStaysForever` | src/memory/paging.c:77-121 | no run of changes makes two address spaces share a leaf table or ends that they do |
| `Paging.AboveStaysForever` | src/memory/paging.c:252-305 | no run of changes alters what the three upper levels allow on the way to a page |
| `Paging.MappedWithRights` | src/memory/paging.c:241-315 | after any run of changes a page has, over all four levels, exactly the rights that it is mapped with, if nothing above took one away at the start |
| `Paging.MappingReachesFather` | src/memory/paging.c:77-121 | after any run of mappings, unmappings, protections and further copies, a mapping in the copy changes the father only at that same page, and if and only if the father had a leaf table for it when the copy was made |
| `Paging.AddressSpaces.constructor` | src/memory/paging.c:160-170 | an existing forest of locked frames is a valid state |
| `Paging.AddressSpaces.RequestFrame` | src/memory/memory.c:113-135 | succeeds if and only if a page is left, takes exactly one, and the frame was not in use by any table and is locked from then on |
| `Paging.AddressSpaces.NextTable` | src/memory/paging.c:252-305 | the table below a slot, made from a fresh locked frame when there is none; fails if and only if one is needed and none is left; no other slot changes; a new entry takes no right away from any page |
| `Paging.AddressSpaces.LeafFor` | src/memory/paging.c:252-305 | the leaf table of a path; an existing one is kept, and no translation changes; fails if and only if more tables are missing than frames are left, and uses exactly as many |
| `Paging.AddressSpaces.MapMemory` | src/memory/paging.c:241-315 | succeeds if and only if both addresses are aligned and the frames left cover the missing tables; then the page translates to the frame with those permissions, every other page is unchanged, the tables stay a forest of locked frames, and exactly the missing tables were added; over all four levels the page then has the rights asked for, as far as the tables already there allow |
| `Paging.AddressSpaces.VirtualToPhysical` | src/memory/paging.c:30-65 | the walk returns what the map from pages to entries says |
| `Paging.AddressSpaces.UnmapMemory` | src/memory/paging.c:428-461 | removes the translation of that page and of no other |
| `Paging.AddressSpaces.FindLeaf` | src/memory/paging.c:485-500 | the walk that only reads |
| `Paging.AddressSpaces.SetPagePerms` | src/memory/paging.c:485-505 | changes the permissions of a mapped page and nothing else; reports whether all tables on the way are there; a mapped page then has the rights asked for, as far as the levels above allow |
| `Paging.AddressSpaces.GetPagePerms` | src/memory/paging.c:531-553 | returns the permissions of a mapped page; none if and only if a table on the way is absent |
| `Paging.AddressSpaces.Mprotect` | src/memory/paging.c:575-584 | the pages of the range, each once, get the permissions up to the first one without tables; every other page is unchanged; other address spaces see it exactly where they share the leaf table |
| `Paging.AddressSpaces.MapDirect` | src/memory/paging.c:208-214 | succeeds if and only if the frames left cover all missing tables, counted once; then every page below the limit is mapped at the direct map to itself, nothing outside it changed, and other address spaces see it exactly where they share the leaf table |
| `Paging.AddressSpaces.CopyBelow` | src/memory/paging.c:98-117 | copies every second-level table below one third-level table into a fresh frame, entry by entry, and shares the leaf tables; fails if and only if there are more of them than frames left |
| `Paging.AddressSpaces.CopySlot` | src/memory/paging.c:85-97 | copies one slot of the top; all existing address spaces keep their tables; fails if and only if the frames do not suffice, and uses exactly the counted ones |
| `Paging.AddressSpaces.DuplicatePd` | src/memory/paging.c:77-121 | returns a new top that is a duplicate of the slots [start, end), if and only if the frames left cover it and the upper tables below those slots; uses exactly those |
| `Loader.MemszCoversFilesz` | src/proc/loader.c:216-230 | p_filesz <= p_memsz (chapter 5 of the System V gABI, Program Header) keeps the copy inside the buffer |
| `Loader.SegmentPagesOverlap` | src/proc/loader.c:216-221 | the pages of a segment are those with a byte of it, the first one being that of p_vaddr + base |
| `Loader.SegmentReadsAsFile` | src/proc/loader.c:213-252 | reading any byte of a loaded segment through the new page table gives the byte of the file below p_filesz and zero everywhere else on its pages |
| `Loader.SegmentAtItsAddress` | src/proc/loader.c:213-252 | byte i of the segment is read at p_vaddr + base + i: byte p_offset + i of the file below p_filesz, zero from there to p_memsz |
| `Loader.LoadedHasRights` | src/proc/loader.c:223-225 | the pages of a loaded segment have exactly the rights of its header over all four levels |
| `Loader.SegmentStaysLoaded` | src/proc/loader.c:213-252 | loading a segment on other pages leaves a loaded one as it is |
| `Loader.Memory.constructor` | src/proc/loader.c:298-302 | no frame holds data yet |
| `Loader.Memory.MapFresh` | src/proc/loader.c:234-236 | a fresh frame, found through the direct map, is mapped at the page; succeeds if and only if there is a frame for it and for each table missing above it |
| `Loader.Memory.Prepare` | src/proc/loader.c:216-229 | the page count, the permissions and the contents of all pages |
| `Loader.Memory.LoadPage` | src/proc/loader.c:233-243 | succeeds if and only if there is a frame for the page and for each table missing above it; then a fresh frame holds the page of the image and is mapped with the right permissions |
| `Loader.Memory.AllocateSegment` | src/proc/loader.c:213-252 | succeeds if and only if the frames cover its pages and the missing tables; then all pages of the segment are loaded: user, writable iff PF_W, no-execute iff not PF_X; nothing else is remapped; other segment types change nothing; where no upper level takes a right away the pages are user pages, writable by bit 1 and executable by bit 0 of p_flags |
| `Loader.Memory.LoadSegments` | src/proc/loader.c:303-320 | succeeds if and only if the frames cover all pages of all segments and all missing tables, counted once; then segments on disjoint pages are all loaded; with the same rights for every segment |
| `SchedLaws.PickIsNearest` | src/sched/scheduler.c:35-83 | the search around the ring returns the runnable task at the least distance |
| `SchedLaws.ScheduleChoice` | src/sched/scheduler.c:35-83 | idle is chosen if and only if no task is READY or EXECUTING; otherwise the nearest runnable task; a panic only without an idle task; every task skipped on the way down the list and on from its head is not runnable |
| `SchedLaws.SwitchStates` | src/sched/scheduler.c:70-80 | the task that gets the processor is EXECUTING if it was runnable, the one that loses it READY if it was EXECUTING, and no other task or field changes |
| `SchedLaws.YieldEffect` | src/sched/scheduler.c:101-117 | yield does nothing if and only if the scheduler is locked or not running; otherwise it schedules, and the new current task gets its oldest signal |
| `SchedLaws.TickEffect` | src/io/interrupts.c:245-254 | the timer counts; at a multiple of 100 it only runs the wakeup handler, at any other multiple of the preemption period it yields, otherwise nothing more happens |
| `SchedLaws.StepInv` | src/sched/scheduler.c:35-130 | every step of the machine keeps the invariant |
| `SchedLaws.RunInv` | src/sched/scheduler.c:35-130 | so does every run |
| `SchedLaws.EveryRunFromBoot` | src/sched/scheduler.c:35-130 | in every state reached from boot any EXECUTING task is the current one, posted signals are delivered or still queued, and no sleeper with a positive delay is late by the period or more |
| `SchedLaws.RunnableIff` | src/sched/scheduler.c:35-130 | a runnable task stops being one exactly when it sleeps, exits, is killed or paused; another becomes one exactly when it is resumed or, at a multiple of 100 ticks, an expired entry wakes it |
| `SchedLaws.StaysRunnable` | src/sched/scheduler.c:35-130 | over every run a runnable task that no step puts away stays runnable |
| `SchedLaws.NeverPanics` | src/sched/scheduler.c:58-64 | no sequence of steps makes the scheduler panic as long as none touches the idle task |
| `SchedLaws.BootNeverPanics` | src/sched/scheduler.c:58-64 | the same from boot |
| `SchedLaws.FirstTaskRuns` | src/sched/scheduler.c:35-130 | the first task added after boot runs at the next yield |
| `SchedLaws.SignalsArrive` | src/sched/scheduler.c:344-376 | over every run a task gets exactly the signals sent to its pid: delivered in the order of sending, or queued in that order behind them |
| `SchedLaws.EndedIsZombie` | src/sched/scheduler.c:313-338 | exit and kill make that task a zombie and change nothing else |
| `SchedLaws.AddedIsReady` | src/sched/scheduler.c:153-173 | a new task comes last in the list and is READY |
| `SchedLaws.KeptIsFilter` | src/sched/sline.c:30-60 | a pass of the handler keeps exactly the entries that have not expired |
| `SchedLaws.WokenTask` | src/sched/sline.c:36-40 | a task becomes READY if and only if it was UNINTERRUPTIBLE and has an expired entry |
| `SchedLaws.StepKeepsBuried` | src/sched/scheduler.c:322-336 | a ZOMBIE that is not current stays so under a step if and only if the step does not pause or resume that task |
| `SchedLaws.ZombiesStayBuried` | src/sched/scheduler.c:35-130 | hence it never becomes current again in any such run |
| `SchedLaws.PausedZombieComesBack` | src/sched/scheduler.c:607-612 | the exception is real: from a state of the invariant, pausing a ZOMBIE with an expired sleep entry, a tick and a yield make it the current task |
| `SchedLaws.ResumedZombieRuns` | src/sched/scheduler.c:613-618 | so do resuming it and a yield |
| `SchedLaws.LockedRun` | src/sched/scheduler.c:101-130 | over every run the lock counter is its start plus locks minus unlocks, and the current task stays the same as long as fewer unlocks came than were held |
| `SchedLaws.SwitchGetsCloser` | src/sched/scheduler.c:35-83 | a switch that does not choose a READY task brings the current one closer to it |
| `SchedLaws.BoundedWaiting` | src/sched/scheduler.c:35-83 | over every run in which a task stays READY and is not chosen, the number of switches plus its final distance is at most its first distance plus the number of tasks added: fewer than n - 1 switches plus added tasks |
| `SchedLaws.TickRemovesOnTime` | src/io/interrupts.c:245-254 | a tick removes an entry if and only if it is the 100th and the entry has expired, and then at most 99 ticks late |
| `SchedLaws.ZeroDelayStays` | src/sched/sline.c:36 | an entry with delay zero is never removed |
| `SchedLaws.NeverWokenEarly` | src/sched/sline.c:25-96 | after a timed sleep, in every run, that task is runnable only if its delay is positive and has passed |
| `SchedLaws.WokenOnTime` | src/sched/sline.c:25-96 | after a timed sleep with a positive delay, in every run that leaves the task alone and lasts to 99 ticks after the delay, there is a state in which the task is READY, the delay is over, and by at most 99 ticks |
| `Scheduler.Machine.constructor` | src/sched/scheduler.c:270-298 | the machine after boot |
| `Scheduler.Machine.Schedule` | src/sched/scheduler.c:35-83 | the loop round the ring switches to the task that ScheduleChoice characterises, and panics exactly when it does |
| `Scheduler.Machine.DeliverSignal` | src/sched/scheduler.c:667-684 | at most one signal, the oldest, goes from the queue of the current task to the delivered ones; delivered and queued together stay as they were, and no other task changes |
| `Scheduler.Machine.Yield` | src/sched/scheduler.c:101-130 | switches to the nearest runnable task and delivers one of its signals; nothing happens while the lock counter is not zero |
| `Scheduler.Machine.GetTask` | src/sched/scheduler.c:191-214 | the first task with the pid |
| `Scheduler.Machine.KillTask` | src/sched/scheduler.c:322-336 | makes the first task with the pid a ZOMBIE and changes nothing else; nothing happens without one |
| `Scheduler.Machine.AddSignal` | src/sched/scheduler.c:344-372 | queues the signal behind those of the first task with the pid |
| `Scheduler.Machine.TSleep` | src/sched/sline.c:68-96 | links a new entry at the head of the doubly linked queue: TimedSleep of the machine |
| `Scheduler.Machine.Unlink` | src/sched/sline.c:42-50 | removes one entry from the doubly linked queue, wherever it is |
| `Scheduler.Machine.WakeupHandler` | src/sched/sline.c:25-62 | the walk with removal is WakeupHandler of the machine: the rest stays linked in order |
| `Scheduler.Machine.TimerInterrupt` | src/io/interrupts.c:245-254 | one tick: a wakeup pass every 100 ticks, else a yield on preemption, as the step machine has it |
| `Locks.ActKeepsInv` | src/sched/concurrency.c:6-26 | every move of every thread keeps the semaphore invariant |
| `Locks.EveryInterleaving` | src/sched/concurrency.c:6-17 | over all interleavings the value is never negative, equals initial + signals - takes, and at most one thread is between the spin test and the decrement |
| `Locks.GetsThrough` | src/sched/concurrency.c:6-17 | a thread that finds the lock open and the value positive goes all the way through, and only the value is one lower |
| `Locks.SpinsIff` | src/sched/concurrency.c:6-17 | a thread spins on the lock if and only if it is taken, and on the value if and only if it is not positive |
| `Locks.WaitsForSignal` | src/sched/concurrency.c:6-17 | while a thread spins on zero, no move of the others lets anybody take; the first signal lets it pass |
| `Locks.RunKeepsInv` | src/sched/concurrency.c:6-26 | the same from any state of the invariant |
| `Locks.LockKeepsFlag` | src/sched/concurrency.c:19-26 | taking a spinlock turns interrupts off and remembers the flag |
| `Locks.UnlockKeepsFlagIff` | src/sched/concurrency.c:36-39 | releasing keeps "off while any is held" if and only if it is not the outermost of several, or interrupts were off at first |
| `Locks.CrossedReleaseEnablesInterrupts` | src/sched/concurrency.c:19-39 | releasing the outer lock first turns interrupts on with a lock held, and the release of that lock leaves them on |
| `Locks.NestedLocksRestoreInterrupts` | src/sched/concurrency.c:19-39 | over every well-nested run interrupts are off while a lock is held, and the original flag is back at the end |
| `JsonSpec.StepForward` | src/util/json.c:300-947 | every turn of the loop reads on or comes closer to reading: no turn repeats |
| `JsonSpec.Run` | src/util/json.c:300-947 | a pass ends on every text |
| `JsonFirst.FinishGood` | src/util/json.c:894-946 | handing a value to its parent keeps the invariant |
| `JsonFirst.NewGood` | src/util/json.c:194-224 | a new value under the top keeps it |
| `JsonFirst.StepGood` | src/util/json.c:300-947 | every turn of the first pass keeps the invariant and touches no memory it does not have |
| `JsonFirst.FirstPassIsSafe` | src/util/json.c:288-950 | for every text the first pass accepts or fails without a fault; when it accepts, every object has as many names as values |
| `JsonPasses.StepExt` | src/util/json.c:300-947 | counts, names and parents only grow |
| `JsonPasses.RunBound` | src/util/json.c:300-947 | the final counts leave room for what is being read at any time |
| `JsonPasses.StepAdds` | src/util/json.c:560-738 | a turn makes one value where one begins and is expected, and none otherwise |
| `JsonPasses.MadeIsNodes` | src/util/json.c:288-950 | all values that an accepting first pass makes are in its result |
| `JsonSecond.FinishFollows` | src/util/json.c:894-946 | the second pass fills the slot that the first counted |
| `JsonSecond.NewFollows` | src/util/json.c:137-193 | the second pass takes the next value of the first, in the same order |
| `JsonSecond.StringFollows` | src/util/json.c:304-461 | the bytes written to a string or name, and the closing zero, stay inside the counted buffer |
| `JsonAgree.StepFollows` | src/util/json.c:300-947 | outside numbers the passes go turn by turn, with the same flags, cursor and top |
| `JsonAgree.NumberCannotStop` | src/util/json.c:762-887 | a number that stops before another number character is an error one turn later |
| `JsonAgree.NumberEnds` | src/util/json.c:674-692 | where the first pass ends a number, the skipping loop of the second ends too |
| `JsonAgree.Simulate` | src/util/json.c:288-950 | from related states an accepting first pass is followed by an accepting second pass |
| `JsonAgree.NextTogether` | src/util/json.c:288-950 | at every turn of the second pass there is a state of the accepting first pass that it corresponds to |
| `JsonAgree.PassesAgree` | src/util/json.c:288-952 | every text that pass 1 accepts pass 2 accepts, without an access outside an allocation; value by value the strings, names, name bytes and slots have exactly the counted sizes |
| `JsonTree.FinishTree` | src/util/json.c:915-943 | handing over keeps: complete values lie in one slot, open ones in none |
| `JsonTree.NewTree` | src/util/json.c:137-193 | a new value keeps it |
| `JsonTree.ParsedIsTree` | src/util/json.c:288-952 | what comes out is a tree: parent links and slots agree, and every value but the root lies in exactly one slot |
| `JsonValues.OverflowIsExact` | src/util/json.c:87-90 | would_overflow holds if and only if value * 10 + digit exceeds 2^63 - 1 |
| `JsonValues.Utf8RoundTrip` | src/util/json.c:361-399 | the bytes written for a code point decode to it, and are as many as the first pass counts |
| `JsonFree.Descend` | src/util/json.c:1017-1036 | going down to the last slot keeps the walk invariant |
| `JsonFree.Climb` | src/util/json.c:1014-1048 | freeing a value without open slots and going up keeps it |
| `JsonFree.AllFreed` | src/util/json.c:1001-1049 | when the walk is over no value is left |
| `JsonFree.CursorAlive` | src/util/json.c:1011-1048 | the walk never stands on freed memory |
| `JsonFree.FreeWalk` | src/util/json.c:1001-1049 | on every tree the walk ends; every value, string buffer and non-empty slot array is freed exactly once; value k is freed if there is one, its characters if it is a string, its slots if it is a container that is not empty |
| `JsonMemory.Store.Allocate` | src/util/json.c:145-196 | a new block of the asked number of slots and bytes; the others keep their contents |
| `JsonMemory.Store.Write` | src/util/json.c:230-231 | one byte of one block changes, at an index inside it |
| `JsonMemory.StringMemory` | src/util/json.c:230-231 | more bytes of a string or name fit its block, leave earlier names alone, and the block then holds them |
| `JsonMemory.ClosedMemory` | src/util/json.c:415-448 | the closing zero and the place of a name fit the block, and it then holds the text or the name |
| `JsonMemory.SlotMemory` | src/util/json.c:915-938 | the next slot of the parent exists and then holds the value, beside its name |
| `JsonParser.Parser.MakeValue` | src/util/json.c:194-224 | the first pass appends the value to the chain, and the chain stays the order of making |
| `JsonParser.Parser.TakeValue` | src/util/json.c:137-193 | the second pass follows the chain: it takes the values in the order in which they were made |
| `JsonParser.Parser.NewValue` | src/util/json.c:130-224 | the first pass adds a value under the top; the second takes the next counted one and allocates exactly its counted slots and bytes, or length + 1 bytes for a string |
| `JsonParser.Parser.StringAdd` | src/util/json.c:230-231 | adds the count, or writes the bytes into the block of the string or name, behind those read so far and inside it |
| `JsonParser.Parser.ReadPoint` | src/util/json.c:325-359 | the code point of one escape or of a pair, with the cursor behind it; fails exactly on bad digits, a lone half or the end of the text |
| `JsonParser.Parser.WriteEnd` | src/util/json.c:417-418 | the zero behind the bytes and the place of a name are written inside the block, which then holds the closed text or name |
| `JsonParser.Parser.CloseText` | src/util/json.c:425-430 | the closed string has the length that was read, and its text in memory |
| `JsonParser.Parser.CloseName` | src/util/json.c:432-450 | the name bytes grow by the name and its zero, and a colon is expected |
| `JsonParser.Parser.SkipNumber` | src/util/json.c:674-690 | the skipping loop ends behind the last number character |
| `JsonParser.Parser.HandOver` | src/util/json.c:900-946 | a complete value goes into the next slot of its parent, inside the slots that were counted |
| `JsonParser.Parser.Turn` | src/util/json.c:300-947 | one turn is Step of the machine, with its errors, and in the second pass the memory holds what the machine has; every write is inside its block |
| `JsonParser.Parser.FirstPass` | src/util/json.c:288-950 | the loop ends on every text, and computes Run; accepted or not, the chain links exactly the values that it made |
| `JsonParser.Parser.Discard` | src/util/json.c:979-987 | the walk along the chain from the root frees every value made, in order, each once, and reads each link before its value goes |
| `JsonParser.Parser.SecondPass` | src/util/json.c:288-950 | after an accepting first pass it ends without an error and without a write outside a block; records and memory hold the result of the machine |
| `JsonParser.Parser.Collect` | src/util/json.c:949-952 | the values read back from records, slots, name bytes and texts are those of the machine |
| `JsonGrammar.LoneMinus` | src/util/json.c:670-712 | a minus alone is accepted as 0 |
| `JsonGrammar.TrailingComma` | src/util/json.c:542-580 | a comma before the closing bracket is accepted behind an element, and rejected without one |
| `JsonGrammar.CommentBehindNumber` | src/util/json.c:463-521 | a comment directly behind a number is rejected, behind a space it is not |
| `JsonReads.SkipRuns` | src/util/json.c:463-548 | where values or members may stand, the turns skip exactly the spaces and comments of the grammar, and fail on an unfinished comment |
| `JsonReads.StringRuns` | src/util/json.c:304-461 | either pass reads a string up to its closing quote, with its decoded content or the count of it; without one, or beyond 2^32 - 9 bytes, the first rejects |
| `JsonReads.MagnitudeRuns` | src/util/json.c:762-887 | the first pass reads exactly the numbers of the grammar: the decimal value under its sign within 63 bits, a double otherwise; no leading zero, digits on both sides of a point, an exponent with digits |
| `JsonBuilds.MagnitudeSpan` | src/util/json.c:674-690 | the second pass skips exactly the characters of such a number |
| `JsonBuilds.ItemsRun` | src/util/json.c:542-738 | the elements of an array, by induction over the grammar: either pass fills the array with the values of the text, or the first rejects |
| `JsonBuilds.MembersRun` | src/util/json.c:721-760 | the members of an object likewise, with their names |
| `JsonBuilds.ValueRuns` | src/util/json.c:300-947 | any value: the turns of either pass over it build its nodes, each before its parts, and hand it to its parent; where the grammar fails, the first pass does |
| `JsonBuilds.LaidDenotes` | src/util/json.c:915-938 | nodes laid out so give, through slots, names and texts, that value |
| `JsonBuilds.ParserIsGrammar` | src/util/json.c:254-952 | the first pass accepts a text if and only if the grammar does, and what the second leaves is the tree of the text and nothing besides |
| `JsonRfc.DocumentReads` | src/util/json.c:254-952 | every text of sections 2 to 7 of RFC 8259, with any spaces, escapes, hexadecimal case and number form, is accepted and read as the value that it writes (strings, elements and members up to 2^32 - 9) |
| `JsonRfc.ValueReads` | src/util/json.c:300-947 | the same for a value inside a text |
| `JsonRfc.CommentedReads` | src/util/json.c:463-521 | with comments enabled, line and block comments may stand around a value, but not directly behind a number |
| `JsonRfc.StringReads` | src/util/json.c:304-461 | a string in quotes gives its characters: themselves, the eight short escapes, code points in UTF-8 (section 3 of RFC 3629) |
| `JsonRfc.PairsExactIff` | src/util/json.c:341-359 | a surrogate pair is combined as section 7 of RFC 8259 has it if and only if bit 6 of the high half is clear |
| `JsonRfc.MagnitudeReads` | src/util/json.c:762-887 | a number gives its value when it is whole and has at most 63 bits, a double otherwise |
| `JsonRfc.LongFractionFails` | src/util/json.c:786-850 | a point behind digits that exceed 63 bits is rejected |
| `JsonRfc.LeadingZeroFails` | src/util/json.c:771-780 | a zero in front of other digits is rejected |
| `JsonRfc.EmptyPartFails` | src/util/json.c:825-873 | so is a point without digits behind it, or an exponent without any |
| `JsonRfc.LoneHalfFails` | src/util/json.c:341-353 | either half of a surrogate pair alone is rejected |
| `JsonRfc.OpenStringFails` | src/util/json.c:306-309 | so is a string without its closing quote |
| `JsonRfc.TooManyFail` | src/util/json.c:311-312 | more than 2^32 - 9 bytes, elements or members are rejected |
| `JsonRfc.WordsAreWhole` | src/util/json.c:542-668 | cut words, a plus sign, the empty text and a lone bracket are rejected |
| `JsonRfc.OneValueOnly` | src/util/json.c:523-572 | so are two values, with or without brackets around them |
| `JsonRfc.NamesAreNeeded` | src/util/json.c:721-760 | and members without a name or a colon |
| `JsonParse.Parse` | src/util/json.c:254-991 | a text is accepted if and only if the grammar accepts it, and the values read back from memory are its tree, node for node; parent links and slots agree and the counted memory is filled exactly; for a rejected text the error exit frees every value that the first pass made, once, and nothing else |
| `JsonParse.MarkIsSkipped` | src/util/json.c:266-273 | exactly a byte order mark in front is left out |
| `JsonParse.ParseAndFree` | src/util/json.c:254-1049 | whatever the text, every value allocated for it is freed exactly once, by the error exit or by the walk; strings and slot arrays of a tree are too, and nothing else is freed |
| `Md5Spec.FoldConcat` | src/util/md5.c:115-220 | folding blocks may stop and go on at any block boundary |
| `Md5Spec.PadIsWholeBlocks` | src/util/md5.c:273-297 | the padding of sections 3.1 and 3.2 of RFC 1321: whole blocks, as few as will do, with the message, the byte 0x80, zeros and the bit count modulo 2^64 in the last eight bytes |
| `Md5Spec.WordOfBytes` | src/util/md5.c:78-91 | a word is its four bytes to the base 256, the first one lowest; writing it gives the bytes back |
| `Md5Spec.BytesOfWord` | src/util/md5.c:267-271 | and reading back what was written gives the word |
| `Md5Spec.LengthOfBytes` | src/util/md5.c:267-271 | a length is written as its digits to the base 256, the first one lowest |
| `Md5.FunIsAux` | src/util/md5.c:48-52 | the optimised F and G, and both forms of H, equal the functions of section 3.4 of RFC 1321 on every word |
| `Md5.StepIsOp` | src/util/md5.c:57-60 | STEP is one operation of section 3.4 of RFC 1321, for each of the 64 steps |
| `Md5.Round1` | src/util/md5.c:134-150 | the sixteen lines compute steps 1 to 16 |
| `Md5.Round2` | src/util/md5.c:152-168 | steps 17 to 32 |
| `Md5.Round3` | src/util/md5.c:170-186 | steps 33 to 48 |
| `Md5.Round4` | src/util/md5.c:188-204 | steps 49 to 64 |
| `Md5.CarryKeepsCount` | src/util/md5.c:238-241 | lo + 2^29 hi stays the byte count modulo 2^61, through carry and 32-bit wrap-around |
| `Md5.LengthWords` | src/util/md5.c:292-294 | the two words written at the end are the bit count modulo 2^64 |
| `Md5.Context.constructor` | src/util/md5.c:222-231 | the empty message |
| `Md5.Context.Body` | src/util/md5.c:115-220 | the block loop folds any number of whole blocks |
| `Md5.Context.Count` | src/util/md5.c:238-241 | the counters after any number of bytes |
| `Md5.Context.Absorb` | src/util/md5.c:243-264 | the four words fold all whole blocks so far and the buffer holds the rest |
| `Md5.Context.Update` | src/util/md5.c:233-265 | the context then stands for the old message followed by the data |
| `Md5.Context.Finish` | src/util/md5.c:277-296 | folds the one or two blocks of padding |
| `Md5.Context.Final` | src/util/md5.c:273-304 | returns the digest of RFC 1321 of everything taken in, and wipes the context |
| `Md5.DigestOfChunks` | src/util/md5.c:222-304 | however the message is cut into updates, the digest is that of the whole |
| `Md5.DigestOf` | src/util/md5.c:103-108 | MD5_Digest is the digest of its argument |
| `Md5Known.DigestOfAbc` | src/util/md5.c:103-220 | the digest of "abc" is the one in appendix A.5 of RFC 1321 |
| `CircularBuffer.PushesAddUp` | src/util/lists.c:214-279 | two pushes equal one push of both |
| `CircularBuffer.LastOfAll` | src/util/lists.c:214-279 | after any run of pushes the contents are the last `size` bytes of everything pushed |
| `CircularBuffer.PopsWhatWasPushed` | src/util/lists.c:281-347 | what was pushed with room for it comes out again, behind what was there |
| `CircularBuffer.LastAndFirst` | src/util/lists.c:214-347 | what stays without room is the end of the bytes, what comes out first their beginning |
| `CircularBuffer.RingAfterWrite` | src/util/lists.c:229-279 | writing round the end and moving the head leaves the last `size` bytes of old and new |
| `CircularBuffer.Buffer.constructor` | src/util/lists.c:172-181 | empty, for every capacity including 0 |
| `CircularBuffer.Buffer.Reset` | src/util/lists.c:192-197 | empties the buffer |
| `CircularBuffer.Buffer.Place` | src/util/lists.c:229-259 | the two copies write the bytes round the ring, and the head is reported overrun if and only if old and new do not fit |
| `CircularBuffer.Buffer.Push` | src/util/lists.c:214-279 | the contents become the last `size` bytes of the old contents followed by the input |
| `CircularBuffer.Buffer.CopyOut` | src/util/lists.c:292-330 | the one or two copies give the first n bytes of the contents |
| `CircularBuffer.Buffer.Advance` | src/util/lists.c:297-344 | moves the head past n bytes; an emptied buffer starts afresh |
| `CircularBuffer.Buffer.Take` | src/util/lists.c:281-348 | returns the oldest min(length, dataSize) bytes; a pop removes exactly those, a read nothing |
| `CircularBuffer.Buffer.Pop` | src/util/lists.c:350-353 | returns and removes the oldest min(length, dataSize) bytes |
| `CircularBuffer.Buffer.Read` | src/util/lists.c:355-358 | returns the same bytes and leaves the contents as they are |
| `NumberSpec.ValueOfDigits` | src/util/printf.c:309-315 | the digits of a number, read as a number, are that number |
| `NumberSpec.DigitCount` | src/util/printf.c:309-315 | n digits suffice if and only if the number is below base^n |
| `NumberText.KeptValue` | src/util/printf.c:309-315 | the 32-byte buffer keeps the number modulo base^32: the number itself if and only if it is below base^32 |
| `NumberText.DigitAt` | src/util/printf.c:309-315 | the digit i places from the right is that of base^i, in the letter case asked for |
| `NumberText.TextLayout` | src/util/printf.c:216-294 | without # the text is spaces, sign, zeros, figures, spaces: which sign and when it has room, how many zeros, and on which side the spaces stand |
| `NumberText.ParseShape` | src/util/string.c:143-196 | spaces, sign, digits and spaces parse as the signed value of the digits, and parsing stops behind them |
| `NumberText.ParseValue` | src/util/string.c:188-194 | the value is 2^64 - 1 when the digits exceed it, and the two's complement behind a minus |
| `NumberText.BaseFromText` | src/util/string.c:162-169 | base 0 is 16 behind 0x or 0X, 8 behind any other zero and 10 otherwise |
| `NumberText.BlanksAndTabs` | src/util/string.c:154-156 | blanks and tabs are skipped, and nothing else |
| `NumberText.ParsesBack` | src/util/printf.c:216-318 | without #, under all padding, precision and sign options, zero included, the text parses to what the buffer kept, under the sign that had room; the parser stops behind the digits, or at the start when a zero left none |
| `NumberText.RoundTrip` | src/util/printf.c:298-318 | the plain text of a 64-bit number in base 2 to 36 parses back and is consumed whole if and only if the number is below base^32, hence always from base 4 up (8, 10 and 16) |
| `NumberText.BaseTwoTruncates` | src/util/printf.c:56 | 2^32 in base 2 prints as zeros |
| `NumberText.SignFits` | src/util/printf.c:281-291 | the sign has room if and only if digits and zeros take fewer than 32 places |
| `NumberText.TextFillsWidth` | src/util/printf.c:216-294 | without # the text is at least as wide as asked for if and only if it is padded with spaces or the width is at most 32 |
| `NumberText.SignedRoundTrip` | src/util/printf.c:244-294 | without # a negative 64-bit number comes back as its two's complement if and only if fewer than 32 digits were asked for or it is -2^63; otherwise its minus is dropped |
| `NumberText.HashParsesBack` | src/util/printf.c:260-279 | the alternative form (#) parses to the digits that its marks did not take away, under the sign that had room; to zero in base 16 when 31 digits leave no room for 0x, and in base 2 unless 32 digits leave no room for 0b |
| `NumberText.HashRoundTrip` | src/util/printf.c:260-279 | with # a number comes back if and only if the characters taken away were padding zeros and, in base 16, 0x had room or, in base 2, 0b had none |
| `NumberText.HashLosesDigits` | src/util/printf.c:262-267 | the four places of 0x1234 with # print as another number |
| `NumberText.HashMarks` | src/util/printf.c:260-279 | with # and no width the text is 0x, 0X, 0b or 0 in front of the digits, and just 0 for zero |
| `NumberText.HashTakesDigits` | src/util/printf.c:260-267 | where the digits fill the width the mark takes the place of the first two of them in base 16, of the first one otherwise |
| `NumberPrinter.AddHash` | src/util/printf.c:260-279 | the marks in the buffer are those of the layout |
| `NumberPrinter.OutRev` | src/util/printf.c:216-239 | writes the buffer backwards with its padding, cut off at maxlen |
| `NumberPrinter.PouredAt` | src/util/printf.c:140-145 | a cell of the output changes if and only if it belongs to the text and lies below maxlen |
| `NumberPrinter.NtoaFormat` | src/util/printf.c:244-294 | the cells hold zeros, marks, sign, digits and padding in the layout whose parse is known, cut off at maxlen |
| `NumberPrinter.Convert` | src/util/printf.c:308-315 | the digit loop leaves the last 32 digits, least significant first |
| `NumberPrinter.NtoaLong` | src/util/printf.c:298-318 | the output cells hold the text, cut off at maxlen, and no other cell changes |
| `NumberParser.CutOff` | src/util/string.c:170-187 | the cut-off test holds if and only if acc * base + digit exceeds 2^64 - 1 |
| `NumberParser.Accumulate` | src/util/string.c:170-188 | the run of digits is consumed whole; its exact value below 2^64, the sticky mark otherwise |
| `NumberParser.Strtoull` | src/util/string.c:143-196 | spaces, sign, prefix, the longest run of digits: exact below 2^64, ULLONG_MAX otherwise; nothing consumed without digits |

## Left out

- HeapMemory.KernelHeap.Free: merging the main segment writes through the null `last` of its header; this stops the model like a panic, and what lies at address 0 is not modelled.
- HeapMemory.KernelHeap.Malloc: does not take sizes from 2^64 - 4143 to 2^64 - 16, because the expansion then maps too little or nothing and the headers are overwritten (`HeapSpec.RequestArithmeticWraps`, `HeapSpec.WrappedSplitOverruns`).
- HeapMemory.KernelHeap.Realloc: takes sizes up to 2^64 - 4096 - 48, because above them the copy runs over the new block (`HeapLaws.WrappedReallocOverruns`); for a buffer without a header in use the copy before the panic is not modelled.
- PageBitmap.Bitmap.constructor: gives the map one bit more than `total`, because the range checks admit that index.
- PageBitmap.Bitmap.UnlockPage: does not model the free and locked counters, which carry the signs of `lock_page`.
- PageBitmap.Bitmap.RequestPage: does not take a full map with cursor 0, because the search does not end there.
- Paging.AddressSpaces.SetPagePerms: where a table is absent the source goes on through the frame number of the absent entry; the model stops there and reports it.
- Paging.AddressSpaces.GetPagePerms: the same.
- Paging.AddressSpaces.Mprotect: the same.
- Paging.AddressSpaces.DuplicatePd: the innermost loop copies entries that the page copy has already copied, so it has no effect of its own here.
- Loader.Memory.AllocateSegment: requires p_filesz <= p_memsz, the file range inside the file, user addresses and a direct map of every frame; the frames that the heap may take for `kmalloc(page_no * 0x1000)` are not counted, and the debug output is not modelled.
- Loader.Memory.LoadSegments: does not model PT_INTERP, so the frame taken for the interpreter path is not counted.
- Scheduler.Machine.TSleep: the address of the new queue entry is a parameter, because the sleep heap is not part of this module.
- Scheduler.Machine.DeliverSignal: takes the fields of a signal before freeing it.
- Scheduler.Machine.AddTask: the list of tasks is a sequence, so the walk to its end is an append.
- JsonParse.Parse: values live in a sequence in allocation order, and neither the union of lengths with numbers nor that of the chain with name memory is modelled; floating point values, error texts and allocation failure are left out, and with it the error exit of the second pass, which is not reached otherwise.
- JsonParser.Parser.BeginNumber: the running value of doubles and exponents is not kept, only their digits are followed.
- CircularBuffer.Buffer.Push: lengths are naturals, so the `int` overflow of offset plus length for capacities above 2^30 is not modelled.
- `request_contiguous_pages`, page counters, memory map parsing.
- Huge pages, access bits, the TLB and all inline assembly; the context switch, GDT, TSS, APIC and interrupt controllers.
- `_ksleep` and `_kwakeup` with their reason queue, `block_task`, `remove_task`, `get_free_pid`, stacks and contexts of new tasks.
- 64-bit wrap-around of the tick counter and 32-bit wrap-around of semaphore values.
- `_calloc`, `_stackalloc`, heaps whose counters do not start at zero, and client bytes that imitate a header signature.
- JsonRfc.DocumentReads: leaves out the surrogate pairs and the fractions that the parser does not read as RFC 8259 has them (`JsonRfc.PairsExactIff`, `JsonRfc.LongFractionFails`); what the parser accepts beyond the standard, such as trailing commas and a lone minus, is in `JsonGrammar`.
- Floating point printing, `atou64`, `strtok`, path normalisation.
- The linked list of `lists.c`, hash maps and checksums, which would only add easy members.
- Devices, file systems, ACPI, terminals, the debugger and the network.
