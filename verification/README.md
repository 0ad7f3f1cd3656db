# Verified model of the Condor kernel's core

Condor is a small i386 kernel written in C and assembly. This project models, in Dafny 4.11, the parts of
it whose correctness rests on more than one function, and proves what callers rely on.

* **Kernel heap** (`Sums`, `HeapLayout`, `HeapSpec`, `HeapTheorems`, `HeapMemory`, `HeapHint`,
  `HeapCopy`, `HeapContents`, `HeapHistory`, `KernelHeap`). kmalloc, kfree and krealloc over page runs ("majors") and
  allocations ("minors") linked through headers in memory. The class `KernelHeap.Heap` follows the C code
  branch by branch on the header words; its ghost field `runs` is the heap as a value, and `Valid` ties
  the two together: every header word, link, counter and alignment byte. Each method is proved to do to
  `runs` what a pointer-free function (`Malloc`, `Free`, `Resize`) says, and the theorems are about those
  functions over every heap and every history of calls.
* **Physical frames** (`FrameBitmap`, `FrameSearch`, `FrameStretch`, `FrameMap`, `FrameStack`,
  `FrameAllocator`, `FrameHistory`). The bitmap with its summary, the search that skips by the summary, and the stack of
  free frames kept inside free frames.
* **Interrupt entry and exit** (`InterruptFrame`), instruction by instruction over registers and words.
* **Scheduler** (`Scheduler`), the queue linked through the processes, refining a rotation of a sequence.
* **Page tables** (`PageTables`), written through the self-map, refining a partial map of pages.
* **Number formatting** (`NumberFormat`) and **keyboard scancodes** (`Keyboard`).

`dafny verify dfyconfig.toml` checks all of it.

## Assumptions

* Each call is atomic. The heap's lock and the scheduler's interrupt masking are not modelled.
* The heap's page hook keeps its documented contract (kernel/include/kernel/liballoc.h:47-64). Its answer
  is the parameter `grant`: 0, or a run of pages that touches no run still linked. It may differ at every
  call.
* Integers are unbounded unless the width matters. Where it does, it is written out: the gap arithmetic
  of kmalloc, the page computation of `allocate_new_page`, the end of a physical region, the negation in
  itoa, the signed comparison in kfree.

## Where the code and its documentation differ

The model follows the code. The lemma named with a case says exactly when the documented behaviour holds, or
what happens instead.

* A contiguous request to `kpmalloc` without `align_64kb` can return a run with a taken frame in it,
  because the count of free frames survives a skipped superblock. kernel/kernel/kernel.c:174-177 makes such
  a request, for 128 frames. `UnalignedSearchIsFirstStretch` says which frames are answered,
  `UnalignedSearchExactly` on which bitmaps they are all free, and `UnalignedSearchCanFail` is a bitmap on
  which they are not.
* A contiguous request that finds no run is not refused: kernel/kernel/mm/pmm.c:265 hands out one frame of the
  frame stack instead, however many were asked for. `RequestExactly` says on which bitmaps the search finds n
  free frames, aligned or not, `Kpmalloc` that the caller gets them exactly then, and `OneFrameForMany` is an
  allocator that answers one frame to any such request.
* `low_mem` gives up only behind frame 271, and not at all when the first 512 frames are marked full
  (`LowMemExactly`, `LowMemKeepsPromiseExactly`, `LowMemCanFail`).
* `check_super_region` looks at 16 words, not at the 16 bits of one superblock. It therefore marks less
  often than it could (`MarkedAfterSet`), which is harmless (`SetKeepsSummary`).
* Popping the frame stack at index 0 hands out the link word, or one of the two frames pushed first
  (`PopTakesLastExactly`, `PopUndoesPushExactly`, `PopThroughPageStart`). `PopAfterPushes` and
  `PopDoesNotUndoPush` show it after 1026 frames. A push at index -1, where such a pop leaves the index, writes
  over the link (`PushOverwritesLink`).
* `pfree` never takes frame 3 back although `pmalloc` may hand it out (`FramesKeptExactly`,
  `FrameThreeIsLost`), and above 16 MiB it takes frames back one at a time only: the high frames of a longer run
  are lost (`HighFramesKeptExactly`, `HighPairIsLost`).
* `krealloc` copies to the result of its inner kmalloc unchecked and then frees the old block. When that result
  is NULL the caller is left without either, while section 7.22.3.5 of ISO C promises that the old object
  stays (`GrowthKeepsBlockExactly`, `GrowthCanLoseBlock`).
* A region that ends within the last 4095 bytes of the address space wraps (`RegionEndExactly`).
* The first slice of a process is not saved when it is switched out (`SavedExactly`).
* A key release after repeats puts the key from HELD back to DOWN, not UP (`ReleaseExactly`), and the
  comment in `keyboard_getKeyState` about releasing Pause describes a branch that is never taken
  (`GetKeyState`).
* `itoa` of the smallest int indexes outside its digit string (`ItoaIsDefinedExactly`).
* `l_bestBet` is described as the major with the most free memory, but kmalloc compares only the runs it visits,
  and before the block is taken out. `HintIsMostFreeExactly` says from which heaps a kmalloc leaves it right,
  `HintCanBeWrong` is three calls from boot that leave it wrong. What kmalloc returns is right for every hint.
* `vmm_unmap_address` is documented to return the address but returns nothing.

## Model

| member | source | states |
|---|---|---|
| HeapLayout.AlignUp | kernel/kernel/mm/liballoc.c:20-33 | ALIGN gives a 16-byte aligned address at least 16 and less than 32 bytes up |
| HeapLayout.GapsSumToFree | kernel/kernel/mm/liballoc.c:328-339 | the front, middle and tail gaps of a run add up to exactly `size - usage` |
| HeapLayout.TotalFreeBoundsGaps | kernel/kernel/mm/liballoc.c:341-356 | Case 1's shortcut is sound: too little free in total means no gap is big enough |
| HeapLayout.UsageWithinSize | kernel/kernel/mm/liballoc.c:319-330 | `usage <= size` in every laid-out run, so the unsigned difference cannot wrap |
| HeapLayout.InUseWithinAllocated | kernel/kernel/mm/liballoc.c:93-94 | `l_inuse` never exceeds `l_allocated` |
| HeapSpec.PagesFor | kernel/kernel/mm/liballoc.c:185-205 | pages asked for: enough for the block and both headers, at least 16, and not one more |
| HeapSpec.FirstGap | kernel/kernel/mm/liballoc.c:376-536 | Cases 2 to 4 pick the lowest gap of a run that is big enough, or there is none |
| HeapSpec.Choose | kernel/kernel/mm/liballoc.c:313-372 | the search from the hint and once more from the root ends at a run that fits, or no run of the heap does |
| HeapSpec.MallocKeepsSound | kernel/kernel/mm/liballoc.c:241-584 | kmalloc keeps runs disjoint and their blocks inside, ordered and apart |
| HeapSpec.GrowsExactlyWhenNothingFits | kernel/kernel/mm/liballoc.c:328-568 | the heap gets a new run if and only if no gap of any run holds size + 24 bytes and the hook grants one, whatever the hint; NULL if and only if nothing fits and the hook refuses |
| HeapSpec.BlocksDisjoint | kernel/kernel/mm/liballoc.c:376-536 | two live blocks, of one run or of two, never overlap |
| HeapSpec.FreeIsFreeAt | kernel/kernel/mm/liballoc.c:671-697 | dropping a block by its address is the same as the positional surgery: one minor out, and its major too if that was the last |
| HeapSpec.FreeKeepsSound | kernel/kernel/mm/liballoc.c:671-697 | kfree keeps the heap sound and leaves no run without a block |
| HeapSpec.FreeMergesGaps | kernel/kernel/mm/liballoc.c:671-683 | freeing merges the gap before, the block and the gap behind into one, every other gap unchanged, with no coalescing step |
| HeapSpec.ResizeKeepsSound | kernel/kernel/mm/liballoc.c:811-818 | shrinking in place keeps the heap sound |
| HeapTheorems.Isolation | kernel/kernel/mm/liballoc.c:376-536 | a payload is aligned, behind its alignment byte and inside its block; blocks are disjoint from each other and from every run header |
| HeapTheorems.UnalignInvertsAlign | kernel/kernel/mm/liballoc.c:20-44 | the byte ALIGN stores is below 32 and leads UNALIGN back to the header |
| HeapTheorems.PlaceTotals | kernel/kernel/mm/liballoc.c:390-393 | placing a block raises that run's usage by size + 24 and `l_inuse` by size, and nothing else |
| HeapTheorems.FreeAtTotals | kernel/kernel/mm/liballoc.c:671-694 | freeing lowers usage, `l_inuse` and, with the last block of a run, `l_allocated` by exactly what was counted |
| HeapTheorems.FreeUndoesMalloc | kernel/kernel/mm/liballoc.c:671-697 | freeing the block just returned restores exactly the earlier runs, whether it went into a gap or into a run obtained for it |
| HeapTheorems.FreeCommutes | kernel/kernel/mm/liballoc.c:671-697 | the order of two frees does not matter |
| HeapTheorems.FreeKeepsRest | kernel/kernel/mm/liballoc.c:671-697 | after a free exactly the blocks at other addresses are live |
| HeapTheorems.FreeingAllEmptiesTheHeap | kernel/kernel/mm/liballoc.c:685-697 | freeing every block, in any order, leaves no run and both totals at 0 |
| HeapTheorems.MallocAddsOneBlock | kernel/kernel/mm/liballoc.c:376-536 | a successful kmalloc adds one block that was not live and keeps every other one as it was |
| HeapTheorems.MallocPages | kernel/kernel/mm/liballoc.c:556-568 | kmalloc links exactly what it got from the page hook |
| HeapTheorems.FreePages | kernel/kernel/mm/liballoc.c:685-697 | the runs a free gives back are exactly those that leave the list |
| HeapMemory.PlacedShows | kernel/kernel/mm/liballoc.c:420-433 | after the link writes of Cases 2 to 4 every major, minor and alignment byte in memory again shows the runs |
| HeapMemory.DroppedShows | kernel/kernel/mm/liballoc.c:675-681 | the same after kfree unlinks a minor |
| HeapMemory.RemovedShows | kernel/kernel/mm/liballoc.c:688-694 | the same after kfree unlinks an empty major |
| HeapMemory.AppendedShows | kernel/kernel/mm/liballoc.c:559-561 | the same after a new major is linked behind the last one |
| HeapMemory.PlacingWrites | kernel/kernel/mm/liballoc.c:379-536 | the writes of Cases 2 to 4 change only headers at the start of a run and headers of blocks live afterwards |
| HeapMemory.DroppingWrites | kernel/kernel/mm/liballoc.c:671-683 | the writes of kfree to minors change only headers at the start of a run and headers of blocks live before |
| HeapMemory.RunLinkingWrites | kernel/kernel/mm/liballoc.c:559-561 | linking a new run and unlinking an empty one change headers of runs only |
| HeapMemory.HeadersMissPayloads | kernel/kernel/mm/liballoc.c:376-536 | the 24 bytes of every such header meet no payload and no alignment byte |
| HeapHint.BetFromIsBest | kernel/kernel/mm/liballoc.c:313-338 | the hint kmalloc leaves is the best of the old one and the runs it looked at: those up to the one that takes the block, from the hint and once more from the root, and a new run only when Case 5 leads to it |
| HeapHint.HintIsMostFreeExactly | kernel/kernel/mm/liballoc.c:313-338 | after a kmalloc the hint is the run with the most free memory if and only if, before it, no run not looked at had more to spare than the hint left behind and, where that run takes the block, no other run more than is left there |
| HeapHint.HintCanBeWrong | kernel/kernel/mm/liballoc.c:313-338 | after kmalloc of 1, 100000 and 65000 bytes from boot the hint has 399 bytes free, another run 2320 |
| HeapCopy.WordsEqualBytesExactly | kernel/kernel/mm/liballoc.c:115-138 | `liballoc_memcpy` equals a plain byte copy on all memories if and only if the destination is not 1 to 3 bytes above the source or fewer than 4 bytes are copied |
| HeapCopy.CopiedAt | kernel/kernel/mm/liballoc.c:131-135 | with disjoint ranges the destination holds the source and every other byte is untouched |
| HeapCopy.Memcpy | kernel/kernel/mm/liballoc.c:115-138 | the two loops copy words, then the remaining bytes |
| HeapContents.PayloadWritesAreSafe | kernel/kernel/mm/liballoc.c:396-398 | a client that writes inside its payload changes no other payload and no alignment byte |
| HeapContents.MoveKeepsContents | kernel/kernel/mm/liballoc.c:822-825 | the copy of krealloc leaves every block but the new one unchanged, and the new one starts with the old contents |
| HeapContents.MoveToNewBlock | kernel/kernel/mm/liballoc.c:822-825 | the same from the heap before kmalloc placed the new block, its alignment byte included |
| HeapContents.MoveToNull | kernel/kernel/mm/liballoc.c:822-825 | with no new block the copy goes to address 0, and changes no payload and no alignment byte when every run lies above it |
| HeapHistory.CallKeepsGood | kernel/kernel/mm/liballoc.c:241-828 | every kmalloc, kfree and krealloc, on live and on stray pointers, and every client write keeps the heap invariant, and keeps every block it does not concern live with the same contents |
| HeapHistory.ContentsSurvive | kernel/kernel/mm/liballoc.c:241-828 | over any history a block that no call concerns stays live with its payload byte for byte |
| HeapHistory.EveryHistoryIsSafe | kernel/kernel/mm/liballoc.c:241-828 | after any history from boot, with any hook answers and hints, no live payload meets another block or its header, `l_inuse` is within `l_allocated`, the runs obtained from the page hook are those linked and those given back, each once and with its own page count, and with nothing live all of them were given back |
| HeapHistory.GrowthKeepsBlockExactly | kernel/kernel/mm/liballoc.c:822-827 | a growing krealloc returns NULL without losing the old block, or does not return NULL, if and only if some gap holds the new size or the page hook grants a run |
| HeapHistory.GrowthCanLoseBlock | kernel/kernel/mm/liballoc.c:822-827 | two calls from boot after which krealloc has returned NULL and the only block is gone |
| HeapHistory.Perform | kernel/kernel/mm/liballoc.c:241-828 | every call of the allocator over headers in memory, stray pointers included, is exactly a step of those histories, and so is what it asks the page hook for and passes back |
| KernelHeap.NewRunHoldsRequestExactly | kernel/kernel/mm/liballoc.c:185-220 | in 32-bit arithmetic the new run can hold the request if and only if it is at most 0xFFFFF000 - 80 bytes |
| KernelHeap.TailGap32 | kernel/kernel/mm/liballoc.c:459-462 | the wrapping tail-gap computation is exact, even for a run that ends at 2^32 |
| KernelHeap.MiddleGap32 | kernel/kernel/mm/liballoc.c:498-501 | the wrapping middle-gap computation is exact |
| KernelHeap.FitsHere | kernel/kernel/mm/liballoc.c:328-372 | the run where the loop stops is the one the two-pass search chooses |
| KernelHeap.FitsNowhere | kernel/kernel/mm/liballoc.c:351-367 | once every run was passed over the search has chosen none |
| KernelHeap.Heap.constructor | kernel/kernel/mm/liballoc.c:88-99 | null root, null hint and zero totals are a valid empty heap over any memory |
| KernelHeap.Heap.Align | kernel/kernel/mm/liballoc.c:20-33 | the pointer moved up, and the one byte written |
| KernelHeap.Heap.AllocateNewPage | kernel/kernel/mm/liballoc.c:185-235 | the header of the new run and `l_allocated`, or one more warning and nothing else |
| KernelHeap.Heap.PlaceFirst | kernel/kernel/mm/liballoc.c:379-405 | Case 2: the first block of a run |
| KernelHeap.Heap.PlaceFront | kernel/kernel/mm/liballoc.c:417-442 | Case 3: a block linked in front of the first |
| KernelHeap.Heap.PlaceTail | kernel/kernel/mm/liballoc.c:455-490 | Case 4.1: a block linked behind the last |
| KernelHeap.Heap.PlaceBetween | kernel/kernel/mm/liballoc.c:494-533 | Case 4.2: a block linked between two others |
| KernelHeap.Heap.PlaceIn | kernel/kernel/mm/liballoc.c:379-536 | Cases 2 to 4 on one run: the block goes into the first gap that holds it, or nothing changes and no gap does |
| KernelHeap.Heap.StartAt | kernel/kernel/mm/liballoc.c:313-326 | the search starts at the hint when more than the need is free there, else at the root |
| KernelHeap.Heap.Look | kernel/kernel/mm/liballoc.c:330-338 | free bytes of the run, and the hint moved to it when it beats the best so far |
| KernelHeap.Heap.Hop | kernel/kernel/mm/liballoc.c:351-369 | next run, one restart from the root, or a new run; giving up only when nothing in the heap fits and the hook refused |
| KernelHeap.Heap.Search | kernel/kernel/mm/liballoc.c:328-568 | the loop ends (new run pending, restart allowed, runs left), at most one restart and one new run, in the outcome and with the hint of the specification |
| KernelHeap.Heap.Kmalloc | kernel/kernel/mm/liballoc.c:241-584 | keeps `Valid`, does what `Malloc` says to runs, bytes and pointer, leaves the hint `HintAfterMalloc` says, asks the page hook once if nothing fits and never otherwise, and counts one warning exactly when it returns NULL |
| KernelHeap.Heap.HeaderOfPayload | kernel/kernel/mm/liballoc.c:610-615 | kfree finds the right header again from the pointer of any live block |
| KernelHeap.Heap.DropMinor | kernel/kernel/mm/liballoc.c:671-683 | the block leaves its run, counters and links, its neighbours untouched otherwise, its magic dead |
| KernelHeap.Heap.UnlinkMajor | kernel/kernel/mm/liballoc.c:688-694 | an empty run leaves the list, the root and the totals; a hint to it becomes null |
| KernelHeap.Heap.FreedHint | kernel/kernel/mm/liballoc.c:698-706 | the hint moves to the run freed from exactly when that has more to spare, compared as C ints |
| KernelHeap.Heap.CountBadHeader | kernel/kernel/mm/liballoc.c:618-637 | one more error, and one possible overrun exactly when the low byte of the magic is intact |
| KernelHeap.Heap.Kfree | kernel/kernel/mm/liballoc.c:594-717 | NULL and dead pointers change only a counter; a live block is freed as `Free` says, and its run, if that was the last block there, given back with its own address and page count, a hint to it dropped |
| KernelHeap.Heap.Move | kernel/kernel/mm/liballoc.c:822-827 | growing: a new block with the old contents, the old block freed, all other payloads as they were; when kmalloc gives NULL, the copy goes to address 0 and the old block is freed all the same |
| KernelHeap.Heap.ShrinkInPlace | kernel/kernel/mm/liballoc.c:811-818 | only the requested size on record changes |
| KernelHeap.Heap.Krealloc | kernel/kernel/mm/liballoc.c:739-828 | all five branches: size 0, NULL, bad header with its counters, in place with pointer and accounting kept, and moved with contents kept, or with the block lost when kmalloc gives NULL; in each what the page hook gave and got back |
| FrameBitmap.SetKeepsSummary | kernel/kernel/mm/pmm.c:124-139 | setting a bit never marks a superblock that has a free frame, although 16 words are looked at |
| FrameBitmap.MarkedAfterSet | kernel/kernel/mm/pmm.c:124-139 | a superblock is newly marked if and only if the bit set is in it and the 16 words from that bit on are then all full |
| FrameBitmap.ClearKeepsSummary | kernel/kernel/mm/pmm.c:141-147 | clearing a bit unmarks its superblock, so a marked superblock stays full |
| FrameBitmap.SetTakesOne | kernel/kernel/mm/pmm.c:132-139 | setting a bit takes exactly that frame |
| FrameBitmap.ClearFreesOne | kernel/kernel/mm/pmm.c:141-147 | clearing a bit frees exactly that frame, and none at 4096 or above |
| FrameBitmap.Reserve3Takes | kernel/kernel/mm/pmm.c:242-242 | frames 0 to 2 are taken and the summary stays sound |
| FrameSearch.SearchInRange | kernel/kernel/mm/pmm.c:156-192 | for any flags the answer is -1 or a free frame below 4096 |
| FrameSearch.SearchIsLowest | kernel/kernel/mm/pmm.c:156-192 | for one frame the skipping search returns exactly the lowest free frame of a plain scan of all 4096, and -1 if and only if none is free |
| FrameSearch.LowMemExactly | kernel/kernel/mm/pmm.c:185-185 | what `low_mem` answers, for one frame, in every bitmap |
| FrameSearch.LowMemKeepsPromiseExactly | kernel/kernel/mm/pmm.c:185-185 | when that answer is a frame below 1 MiB, or none because none is free |
| FrameSearch.LowMemCanFail | kernel/kernel/mm/pmm.c:185-185 | the bitmap after boot with frame 256 freed: asked for a frame below 1 MiB the search answers 256 |
| FrameSearch.AlignedSearchIsFirstRun | kernel/kernel/mm/pmm.c:164-183 | with `align_64kb`, with or without `low_mem`, the answer is the first run of n free frames inside one superblock, and -1 if and only if there is none below the point where the search gives up; none for n above 16 |
| FrameStretch.ScanFromScans | kernel/kernel/mm/pmm.c:156-192 | the nested loops over words, superblocks and bits are one pass over the frames that ignores those of skipped superblocks |
| FrameStretch.UnalignedSearchIsFirstStretch | kernel/kernel/mm/pmm.c:156-192 | without `align_64kb`, with or without `low_mem`, for any n from 1 on and any bitmap: the answer is the start of the first stretch in which n free frames and no taken one are seen, and -1 if and only if there is no stretch |
| FrameStretch.UnalignedSearchExactly | kernel/kernel/mm/pmm.c:164-178 | on every sound bitmap: n free frames in a row are answered if and only if there are such with no stretch in front of them; -1 if and only if there is no stretch, and then no such run either |
| FrameStretch.RequestExactly | kernel/kernel/mm/pmm.c:156-192 | a contiguous request for n frames, aligned or not, is answered n free frames in a row if and only if the bitmap has them where stated; else an aligned one -1, an unaligned one -1 exactly when there is no stretch |
| FrameStretch.UnalignedSearchCanFail | kernel/kernel/mm/pmm.c:164-178 | a bitmap in which two frames in a row are asked for and the second one answered is taken |
| FrameMap.Bitmap.constructor | kernel/kernel/mm/pmm.c:206-207 | after the initial fill every frame is taken and the summary is sound |
| FrameMap.Bitmap.CheckSuperRegion | kernel/kernel/mm/pmm.c:124-130 | true exactly when the 16 words from the frame's word on are all full |
| FrameMap.Bitmap.Set | kernel/kernel/mm/pmm.c:132-139 | the page after setting, its free frames less that one, the summary still sound |
| FrameMap.Bitmap.Clear | kernel/kernel/mm/pmm.c:141-147 | the page after clearing, its free frames and that one, the summary still sound |
| FrameMap.Bitmap.Get | kernel/kernel/mm/pmm.c:149-154 | taken, or outside the bitmap |
| FrameMap.Bitmap.FirstClearBits | kernel/kernel/mm/pmm.c:156-192 | the three nested loops with their running count return what the search function says |
| FrameStack.PushAppends | kernel/kernel/mm/pmm.c:45-68 | a push adds its frame at the end of what the stack holds, whether it becomes a page, an entry, or overflows into a new page |
| FrameStack.PushAllLosesNothing | kernel/kernel/mm/pmm.c:45-68 | any number of distinct frames pushed on the empty stack are exactly what it holds, in order, and how many pages and entries they fill: stack32 page, stack64 page, then entries and chained pages |
| FrameStack.PopTakesLast | kernel/kernel/mm/pmm.c:113-113 | with an entry below the index a pop takes the last frame and leaves the rest |
| FrameStack.PopTakesLastExactly | kernel/kernel/mm/pmm.c:104-113 | a pop of a stack that is not empty hands out the last frame pushed if and only if the index is above 0 |
| FrameStack.PopAfterPushes | kernel/kernel/mm/pmm.c:104-113 | after n distinct pushes from boot that is so if and only if n - 2 is no multiple of 1024; after 1026 the first frame, a page in use, is handed out |
| FrameStack.PopUndoesPushExactly | kernel/kernel/mm/pmm.c:100-116 | a pop gives back the frame just pushed, and the earlier stack, if and only if the push did not overflow a page |
| FrameStack.PopDoesNotUndoPush | kernel/kernel/mm/pmm.c:54-61 | 1025 distinct frames reach index 1023, and the pop after the next push hands out the page before it instead |
| FrameStack.PopThroughPageStart | kernel/kernel/mm/pmm.c:104-113 | at index 0 the link word is handed out, then the page itself, and then entry 1021 of the page before |
| FrameStack.PushOverwritesLink | kernel/kernel/mm/pmm.c:67-67 | a push at index -1 makes the frame pushed the link: the next pop hands it out, and the one after goes on in it as a stack page |
| FrameStack.FreeStack.Push | kernel/kernel/mm/pmm.c:45-68 | the updates in place are one push of the specification, at every index; a frame the stack does not hold is added at its end and nothing is lost |
| FrameStack.FreeStack.Pop | kernel/kernel/mm/pmm.c:100-116 | the updates in place are one pop of the specification, on any stack whose links lead to pages; above index 0 the last frame goes and the stack stays whole |
| FrameAllocator.RegionEndExactly | kernel/kernel/mm/pmm.c:236-236 | the block count of a region rounds up to its last byte if and only if the 32-bit sum does not wrap |
| FrameAllocator.Pmm.Kpmalloc | kernel/kernel/mm/pmm.c:262-272 | the frame found is taken, with the rest of a contiguous request; with none one frame is popped off the stack, the last one pushed when the index is above 0; n frames are got, free before and taken since, if and only if the bitmap has the run asked for |
| FrameAllocator.Pmm.Pmalloc | kernel/kernel/mm/pmm.c:256-260 | the lowest free frame below 16 MiB, taken, whenever there is one; else a frame popped off the stack, the last one pushed when the index is above 0 |
| FrameAllocator.Pmm.Pfree | kernel/kernel/mm/pmm.c:274-288 | null and frames 0 to 3 change nothing, a single frame from 16 MiB on is pushed, other frames below 16 MiB become free, and a run from 16 MiB on changes nothing |
| FrameAllocator.Pmm.ClearRegion | kernel/kernel/mm/pmm.c:232-244 | low frames of the region become free except 0 to 2, high ones are pushed in order, whatever the stack holds, the last block of the address space never |
| FrameAllocator.Pmm.SetRegion | kernel/kernel/mm/pmm.c:246-254 | exactly the low frames of the region are taken |
| FrameHistory.GrantsAreFree | kernel/kernel/mm/pmm.c:262-272 | every frame granted from the bitmap was free; a contiguous request gets n frames in a row, with `align_64kb` inside one superblock, if and only if the bitmap has them, and one frame of the stack otherwise |
| FrameHistory.Allocate | kernel/kernel/mm/pmm.c:262-272 | the frames that leave the bitmap are exactly the frames granted, and the pointer returned is the first of them, or the frame popped off the stack |
| FrameHistory.Perform | kernel/kernel/mm/pmm.c:232-288 | every call of the allocator (pmalloc, kpmalloc, pfree, region calls) is a step of the history, returns the first frame granted or the frame popped, and leaves a state of the history again, the frames on the stack included |
| FrameHistory.FramesKeptExactly | kernel/kernel/mm/pmm.c:284-287 | below 16 MiB a call loses no frame between free and held, except exactly a pfree that begins with frame 3 |
| FrameHistory.HighFramesKeptExactly | kernel/kernel/mm/pmm.c:274-288 | above 16 MiB a call that keeps the stack in order loses no frame between stack and held, except exactly a pfree of more than one frame that reaches above |
| FrameHistory.HighPairIsLost | kernel/kernel/mm/pmm.c:274-288 | four calls from boot after which two frames handed out and given back as one run are gone |
| FrameHistory.StaysWholeExactly | kernel/kernel/mm/pmm.c:100-116 | the stack keeps its order if and only if no pop happens without an entry below the index and no region is declared free that has a frame on the stack |
| FrameHistory.FrameThreeIsLost | kernel/kernel/mm/pmm.c:284-287 | with frame 3 free, pmalloc hands it out and the pfree of it leaves it neither free nor held |
| FrameHistory.NeverHandedOutTwice | kernel/kernel/mm/pmm.c:232-288 | over any run from boot that frees only held frames, a frame handed out is held by nobody and is never 0, 1 or 2; above 16 MiB as long as the run is orderly |
| FrameHistory.NothingLostOverRuns | kernel/kernel/mm/pmm.c:256-288 | without such a pfree the free and held frames below 16 MiB together stay the same over any run |
| FrameHistory.NoHighFrameLostOverRuns | kernel/kernel/mm/pmm.c:256-288 | the frames on the stack and held above 16 MiB together stay the same over any orderly run that gives them back one at a time |
| FrameHistory.Boot | kernel/kernel/mm/pmm.c:206-207 | a new allocator starts the history: no frame free, none held, none on the stack, the state safe |
| FrameHistory.OneFrameForMany | kernel/kernel/mm/pmm.c:262-272 | with nothing free in the bitmap and three frames on the stack any request for two or more frames in a row gets one |
| InterruptFrame.Cpu.Deliver | kernel/arch/i386/idt_stubs.S:127-133 | what lies on the stack at the check, with and without a privilege change |
| InterruptFrame.Cpu.ChangeStack | kernel/arch/i386/idt_stubs.S:182-241 | five words slid down by eight bytes through overlapping moves, SS:ESP put behind them, EAX kept |
| InterruptFrame.Cpu.Enter | kernel/arch/i386/idt_stubs.S:127-156 | the handler sees one full frame of the interrupted program, whichever ring it ran in, and the stack from the interrupted stack pointer up is untouched |
| InterruptFrame.Cpu.RevertChangeStack | kernel/arch/i386/idt_stubs.S:243-306 | what arrives on the stack to resume with, for every distance between the two stacks |
| InterruptFrame.LandsIntactExactly | kernel/arch/i386/idt_stubs.S:251-303 | every frame arrives intact if and only if the distance is none of nine; a return to the interrupted stack is none of them |
| InterruptFrame.Cpu.Leave | kernel/arch/i386/idt_stubs.S:157-177 | the program resumed is the one the frame describes, and its memory from its stack pointer up is as the handler left it, three scratch words of the old frame apart |
| InterruptFrame.Cpu.Interrupt | kernel/arch/i386/idt_stubs.S:127-306 | a frame left alone resumes the program with every register, EIP, CS, EFLAGS and ESP as it was and its stack untouched; a frame installed by the handler is resumed with its values |
| Scheduler.MovesUpOnePlaceATick | kernel/arch/i386/scheduler.c:57-74 | with two or more processes the one at position i moves up one place a tick, untouched, whatever is scheduled meanwhile |
| Scheduler.ResumesWhereItStopped | kernel/arch/i386/scheduler.c:61-78 | a process switched out after its first slice gets back the saved frame, interrupt number aside, when its turn comes again |
| Scheduler.SavedExactly | kernel/arch/i386/scheduler.c:66-68 | a note on a departure: the frame is saved if and only if the slice was not the first, or the saved one was already equal |
| Scheduler.KeepsEveryProcess | kernel/arch/i386/scheduler.c:36-74 | over any run the queue holds every process exactly as often as it was scheduled |
| Scheduler.Scheduler.ScheduleProcess | kernel/arch/i386/scheduler.c:36-55 | the pointer writes append one process and keep chain, head and tail |
| Scheduler.Scheduler.SwitchOut | kernel/arch/i386/scheduler.c:66-68 | registers saved or the first slice marked, as the specification says |
| Scheduler.Scheduler.Relink | kernel/arch/i386/scheduler.c:69-73 | the pointer surgery moves the first process behind the last and keeps chain, head and tail |
| Scheduler.Scheduler.Rotate | kernel/arch/i386/scheduler.c:66-73 | the pointer surgery moves the head to the tail, its registers saved, all others untouched |
| Scheduler.Scheduler.Preempt | kernel/arch/i386/scheduler.c:57-78 | a tick is the rotation of the specification and hands back the new head's registers; with fewer than two processes, or while one is being queued, the queue stays as it is |
| PageTables.DirectoryIsSelfMapped | kernel/arch/i386/vmm.c:34-34 | PAGE_DIRECTORY[k] walks to word k of the directory |
| PageTables.TablesAreSelfMapped | kernel/arch/i386/vmm.c:35-35 | PAGE_TABLE_BASE[p] walks to the entry of page p, wherever its table lies |
| PageTables.PteWritten | kernel/arch/i386/vmm.c:68-68 | one entry written changes that page of the map and no other, and keeps the directory well formed |
| PageTables.TableAdded | kernel/arch/i386/vmm.c:47-64 | a new zeroed table makes no page appear or disappear |
| PageTables.Mmu.AddTable | kernel/arch/i386/vmm.c:47-64 | the slot is present afterwards and every page maps as before |
| PageTables.Mmu.SmapPage | kernel/arch/i386/vmm.c:42-72 | maps exactly the page asked for, also when a table is added; a present page is refused, and kept, unless PAGE_REMAP is given |
| PageTables.Mmu.SumapPage | kernel/arch/i386/vmm.c:74-89 | removes exactly that page and returns its frame address, or 0 |
| PageTables.Mmu.MapAddress | kernel/arch/i386/vmm.c:127-135 | the two poison addresses, and otherwise the map update |
| PageTables.Mmu.UnmapAddress | kernel/arch/i386/vmm.c:137-141 | that page goes, its frame goes to pfree, every other page stays |
| PageTables.Mmu.GetPhysicalAddr | kernel/arch/i386/vmm.c:143-154 | agrees with the processor's walk on every address; 0 if and only if unmapped or at physical address 0 |
| NumberFormat.NumeralRoundTrip | libc/stdlib/ultoa.c:3-30 | reading the numeral gives the value back in every base; no leading zero; at most 33 characters with the terminator for 32 bits |
| NumberFormat.WriteDigits | libc/stdlib/ultoa.c:15-18 | the digit loop writes the numeral backwards and nothing else |
| NumberFormat.ReverseRange | libc/stdlib/ultoa.c:22-27 | the swap loop turns that part round in place and nothing else |
| NumberFormat.Ultoa | libc/stdlib/ultoa.c:3-30 | the buffer holds the numeral and a terminator, the rest unchanged; a bad base writes nothing |
| NumberFormat.SignedRoundTrip | libc/stdlib/itoa.c:3-35 | reading the signed numeral gives the int back, in at most 33 characters with the terminator |
| NumberFormat.ItoaIsDefinedExactly | libc/stdlib/itoa.c:13-22 | the digit loop stays inside its alphabet for every int but the smallest, in every base, and for that one in none |
| NumberFormat.Itoa | libc/stdlib/itoa.c:3-35 | the buffer holds sign, numeral and terminator, the rest unchanged; a bad base writes nothing |
| Keyboard.StepAgrees | kernel/kernel/keyboard.c:102-191 | one interrupt keeps status bits and key states in agreement, and flips caps exactly on a press of its key |
| Keyboard.RunAgrees | kernel/kernel/keyboard.c:102-191 | the same over every run of scancodes, prefixes and Pause sequences included; caps is the parity of the presses |
| Keyboard.RunFromReset | kernel/kernel/keyboard.c:202-210 | the same since reset |
| Keyboard.ReleaseExactly | kernel/kernel/keyboard.c:142-155 | a note on a departure: a release leaves the key UP if and only if it had not repeated |
| Keyboard.PauseSequence | kernel/kernel/keyboard.c:115-137 | the eight-byte Pause sequence clears every prefix and changes only its own key |
| Keyboard.Driver.ResetState | kernel/kernel/keyboard.c:202-210 | everything back to the reset state |
| Keyboard.Driver.GetKeyState | kernel/kernel/keyboard.c:88-100 | the stored state; the Pause branch cannot be reached |
| Keyboard.Driver.UpdateStatus | kernel/kernel/keyboard.c:161-187 | all seven status bits and the remembered caps state from the key states |
| Keyboard.Driver.Isr | kernel/kernel/keyboard.c:102-191 | the updates in place are one step of the specification |

## Left out

- KernelHeap.Heap.Kmalloc: requests above 0xFFFFF000 - 80 bytes are excluded (`NewRunHoldsRequestExactly` shows the code fails for each of them), and the branch for a padded size of 0 belongs to those.
- KernelHeap.Heap.Krealloc: when the inner kmalloc gives NULL, the copy to address 0 is followed only if it ends below every run of the heap.
- KernelHeap.Heap.Move: the same.
- HeapHistory.GrowthKeepsBlockExactly: the same.
- KernelHeap.Heap.Kfree: a pointer is null, live, or leads to a header without the magic; headers overwritten by clients, and client data that looks like a header, are excluded.
- Memory is typed: major headers, minor headers and bytes are separate maps. That linked headers, payloads and alignment bytes never share an address is proved (`Isolation`, `HeadersMissPayloads`, and the lemmas that say which headers a call writes); a dead header whose memory is used again is not followed.
- psbrk and the page hooks behind the heap: represented by their documented contract.
- kcalloc: does not check for NULL before clearing.
- Locking, warnings printed, and the heap's debug output.
- Flags `low_4gb` and `big_page`: the first changes nothing while the 64-bit stack answers 0xFFFFFFFF, the second is never read.
- FrameStack.FreeStack.Push: the page-table work behind mapping a new stack page is a field update here, and the stack64 part beyond its first page (PAE) is not modelled.
- FrameAllocator.Pmm.Kpmalloc: requires the current stack page to be mapped when no low frame is left; before any frame was pushed the code reads unmapped memory.
- FrameAllocator.Pmm.Pmalloc: the same.
- FrameStack.FreeStack.Pop: not modelled once a link was written over, when the stack goes on in a frame whose contents are unknown.
- FrameHistory.Perform: a contiguous request that the search answers with taken frames among those free is no step of a history (`RequestExactly` says when that is); after a pop or a push that costs the stack its order, frames above 16 MiB are no longer followed.
- The walk over the boot loader's memory map in pmm_init.
- InterruptFrame.Cpu.Interrupt: as Leave.
- InterruptFrame.Cpu.Leave: stacks are assumed word-aligned to each other and addresses do not wrap; the spurious-IRQ stubs and the dispatch in isr_handler are not modelled, and the handler is any change of memory that leaves a frame in place.
- Processes other than their queue link, state and registers; process creation; the status line printed at each tick.
- PageTables.Mmu.SmapPage: the state before the frame allocator is initialised, a failing pmalloc, TLB flushes, 4-MByte pages and the self-map slot 1023 are excluded; pmalloc is required to give a frame that is no table in use.
- PageTables.Mmu.SumapPage, MapAddress and UnmapAddress: addresses of the self-map slot 1023 are excluded, but for 0xFFFFFFFF in MapAddress.
- The virtual address bitmap in vmm.c and the page-fault handler.
- NumberFormat.Itoa: excludes the smallest int in the bases it accepts, on which the code reads outside its digit string (`ItoaIsDefinedExactly`).
- Keyboard.Driver.Isr: scancodes outside the translation tables, and the one key number (125) outside the state array, are excluded; the tables are parameters. The key buffer and the character maps are not modelled.
- vprintf, vsprintf and the string routines of libc; the ATA, PS/2, PIC, PIT, serial and VGA drivers; boot code.
