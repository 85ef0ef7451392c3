# A verified model of the kernel's memory, threads and messages

The kernel hands out physical pages, edits the page tables it runs on through themselves, gives every
process a heap that grows by mapping pages, rotates threads by the timer and passes messages through one
shared list. This project models those parts in Dafny, in the form the code has (classes whose methods
change fields, arrays and linked nodes in place, loops with invariants), and proves what they are for.

`dafny verify dfyconfig.toml` checks all of it.

## How the model is laid out

- `Pmm.dfy` is the page allocator: a bump pointer, then a bitmap of bytes with a cached lowest index. It
  refines a set of free pages.
- `Paging.dfy` is physical memory as an array of 2^30 words and the walk of section 4.3 of the Intel SDM,
  volume 3A (32-bit paging). An `Owners` map gives every frame in use one role (directory, table number
  `i` of a directory, heap page `p` of a directory), which is how "pairwise distinct frames" is said once
  for all directories.
- `Mmu.dfy` is the processor: every `page_directory[i]` and `page_tables[k]` access goes through a
  translation that may come from a TLB entry. `Speculate` may cache any present entry at any time
  (section 4.10 of the same volume); `stale` is the set of pages remapped without `invlpg` since, and a
  cached entry has to be right only outside it. `TableClearing.dfy` is the `memset` of `vmm.c:155` as written,
  byte by byte.
- `AddressSpaces.dfy` and `Boot.dfy` are the two branches of `create_page_directory` and start-up.
- `HeapLists.dfy`, `HeapTiling.dfy`, `HeapRuns.dfy` are the heap's lists as values, the blocks of memory
  they stand for, and whole runs. `HeapGrowth.dfy` maps the pages, `Accounting.dfy` keeps count of the pages and
  tables a run takes and of where they lie, `HeapObjects.dfy` is the heap header by header.
- `Budgets.dfy` is the system as numbers (the pool, and each process's heap, page tables and heap pages), which
  decide whether an operation goes well, and `Kernel.dfy` puts machine and heaps together: runs of process
  creation, allocation and switching, which keep those books exactly.
- `Scheduling.dfy` has one atomic step per timer tick, creation, exit, send and receive, on values;
  `TaskManager.dfy` and `Ipc.dfy` are the linked queue and the linked message list that refine it.
  `Switching.dfy` is the context switch over registers, bytes of memory and the pages mapped in each directory;
  `Turns.dfy` joins it with `Scheduling.dfy`, and `TaskManager.Tasks.Run` performs its runs. `Stacks.dfy` finds
  what the switch takes for granted of memory in the processes of `Kernel.dfy`.
- `Console.dfy` refines the 4000 bytes of video memory to a window on an endless page; `Keyboard.dfy` is
  the scancode decoder, the table of pressed keys and the line buffer.

`AsWritten` and `Repaired` (in `Basics.dfy`) name the two readings of code that departs from its intent; members
without either word need no repair.

## Where the code departs from its intent

- `vmm.c:155` passes a table entry's value to `memset`: it clears the 4096 bytes from the address that the new
  table's first word happens to be, and not the table. `TableClearing.CreateTableIff` says exactly when the table
  is ready after that: when those bytes hold no translation of this directory or its tables, and the page taken
  holds no present entry besides the one being set. Either half can fail alone: `DirectoryCleared` has a page of
  zeros but for a first word of 0xFFBFF000, which clears the live directory, and `StaleTableExample` a first word
  of 0 with an entry further on. `Mmu.Machine.Map` is the code as written, right because free pages are all zero
  there (`PoolZero`: the kernel never frees a page, and RAM starts cleared), so that it is page 0 that is cleared;
  for a missing table page 0 has to be in its place. `Mmu.Machine.MapRepaired` needs neither.
- `map` has no `invlpg`. `Mmu.RemapSafeIff`: harmless exactly if the page was unmapped or keeps its
  translation. The heap does not ensure that: the page count of `heap.c:160-161` is at least one, so a chunk that
  fits its page maps the next page again (`HeapGrowth.PagesMappedExactly`), leaking a frame; two requests for 8
  bytes are enough (`HeapObjects.TwoSmallRequests`). No chunk lies on that page yet, but a processor that had
  cached it may go on using the old frame; only heap pages ever get stale this way (`Kernel.System.Valid`), and a
  change of directory clears them. What has been stored through such a page is found afterwards exactly if the
  store went where the tables say, or changed nothing (`Mmu.StoreSurvivesIff`).
- The marking loop of `pmm.c:105` is off by one at both ends, and the sentinel bit of line 111 is never
  needed by the scan; both are harmless (`Pmm.PageAllocator.HandOver`, `ScanOn`).
- `heap.c:198-202` merges list neighbours that need not touch, loses the 8 header bytes
  (`HeapLists.MergeKeepsBytesIff`), and cuts the sum to the 31 bits of the field (`heap.h:14`), so the lengths
  do not always add up to what they did (`HeapLists.LengthsKeptIff`, `HeapRuns.CutIsReached`). `heap.c:307-322`
  splits at the wrong place and can underflow (`HeapLists.SplitAsWrittenIff`, `ReuseOverlaps`), and drops all chunks
  behind the one split from the list (`SplitLosesIff`). Repaired: merge only adjacent chunks and add the header,
  split behind the kept part, keep the rest of the list.
- The comment above `kmalloc` (`heap.c:81-85`) keeps the last list for sizes larger than the classes; the code's
  comparison is strict, so a request of 512 bytes already goes there. The model follows the code.
- `heap.c:151-155` writes the header before the pages are mapped. Its bytes are on mapped pages exactly when the
  heap's end leaves it room on its page, or a growth has already started there, as each growth maps at least one
  page more (`HeapGrowth.HeaderMappedIff`). Requests below 512 bytes never break that
  (`Accounting.SmallHeadersMapped`). After one of 0x1FF4 bytes, or of 0x1BEC in a process just created, the next
  new chunk ends in a page fault, however many pages are left (`Accounting.LargeHeaderFaults`,
  `Budgets.HeaderFaultExample`). There is no repair of this in the model: every allocation and every run fails
  there, and the statements below have it as the second cause besides an empty pool.
- `createProcess` loads the new directory at `TaskManager.cpp:63` while it is on its caller's stack (line 51 warns
  of it). Of that stack exactly what lies in the first 4 MB is there too (`Kernel.StackStaysIff`), so the boot
  thread, whose stack the loader gave it, can create processes; a thread with a stack from `new` ends in a page
  fault (`Turns.CreatesIffLow`, `Budgets.CreateFromHeapStack`). Not repaired either: creation takes the caller's
  stack pointer, and fails above 4 MB.
- `TaskManager.cpp:213` sets `current_thread` to NULL and line 229 reads through it; `removeThread` reads through
  NULL on an empty queue and after removing the last of several items; `IPC.cpp:69` does on an empty list. Page 0
  is mapped in every directory, so none of these reads is a page fault; `throughNull` says exactly when they
  happen. `clearMessages` keeps neighbours of removed messages: `Ipc.ClearAsWrittenIff` says when, and
  `ClearedLeaves` which.
- `thread_asm.s:30` pushes on the incoming stack while the outgoing directory is loaded. If that word is on no
  mapped page there, the push is a page fault (`Switching.FaultsIff`, `UnmappedSlot`). If it is, it may be part of
  the stack of any thread of the outgoing process, waiting ones included (`AsWrittenHarmlessIff`,
  `NewProcessDamages`, `BystanderDamaged`). Repaired: `cr3` first, and then neither can happen.
- `Keyboard.cpp` takes an extended press of 0x12 and an extended release of 0x7C for Print Screen, keeps waiting
  after the release of an unknown key, looks up the result of a comparison as a key in `setPressed`, and hands a
  full line over without a terminator (`StrokeDecodesIff`, `UnknownReleaseSticks`, `Char`, `ShownTerminatedIff`).
  Bytes it ignores stay counted, so Print Screen's release is not seen after its press (`PrintScreenIff`,
  `PrintScreenSticks`).

## Model

| member | source | states |
|---|---|---|
| Pmm.ByteBits | kernelcpp/code/mem/pmm.c:18-29 | setting or clearing one bit of a byte changes that bit and no other |
| Pmm.BitWrites | kernelcpp/code/mem/pmm.c:18-29 | `set_bit` and `clear_bit` change the mark of exactly one page |
| Pmm.FreeKeepsCacheIff | kernelcpp/code/mem/pmm.c:131-133 | the lowered index is still the lowest free page exactly when the page freed is not the bitmap's own |
| Pmm.PoolConserved | kernelcpp/code/mem/pmm.c:96-115 | free plus outstanding pages always total MEM_SIZE/MEM_UNIT_SIZE - 1 |
| Pmm.PageAllocator.constructor | kernelcpp/code/mem/pmm.c:36-42 | the pool starts page-aligned above `start` with nothing handed out |
| Pmm.PageAllocator.ScanOn | kernelcpp/code/mem/pmm.c:68 | the scan ends, at the next free page or at the end of the pool |
| Pmm.PageAllocator.AllocPage | kernelcpp/code/mem/pmm.c:48-83 | the lowest free page and never an outstanding one; it fails exactly when none is free; the free set loses that page only |
| Pmm.PageAllocator.HandOver | kernelcpp/code/mem/pmm.c:96-115 | after the change of phase the free pages are exactly those of the pool the bump phase did not hand out, whatever the bitmap's page held |
| Pmm.PageAllocator.FreePage | kernelcpp/code/mem/pmm.c:118-133 | whatever page is freed, exactly its mark and the cached index change; the allocator is in order afterwards, with that page free as well, exactly if it is not the bitmap's own |
| Paging.SelfReference | kernelcpp/code/mem/vmm.c:71-80 | the walk of the directory window reaches the live directory, and of table window `i` reaches table `i` for every present `i` |
| Paging.ForeignWrite | kernelcpp/code/mem/vmm.c:154-159 | a write into a frame that belongs to no part of a directory leaves its whole address space alone |
| Paging.TableWrite | kernelcpp/code/mem/vmm.c:159 | one entry of a table changes the translation of that page alone, in that directory alone, and keeps the self-reference |
| Paging.TableInstall | kernelcpp/code/mem/vmm.c:151-156 | giving an empty slot a fresh table keeps the self-reference and every other directory |
| Paging.UnmapUndoesMap | kernelcpp/code/mem/vmm.c:143-169 | after map then unmap of an unmapped page every page of every directory translates as before, but the window onto a table created meanwhile |
| Paging.EntryReadsBack | kernelcpp/code/mem/vmm.c:159 | the entry written is the entry read back, in the same table |
| Paging.EntryRoundTrip | kernelcpp/code/mem/vmm.c:143-169 | with the table in place the two restore memory itself |
| TableClearing.CreateTableIff | kernelcpp/code/mem/vmm.c:151-155 | lines 154-155 as written leave the new table visible through its window and every page but the one being set as it was, exactly when the 4096 bytes from the new page's first word on hold no translation of this directory or its tables, and what is left of the page holds no other present entry |
| TableClearing.DirectoryCleared | kernelcpp/code/mem/vmm.c:155 | on a page of zeros with the first word 0xFFBFF000 it clears the live directory |
| TableClearing.StaleTableExample | kernelcpp/code/mem/vmm.c:155 | on a page with first word 0 and an entry for frame 7 in word 5 it makes an untouched page translate to frame 7 |
| Mmu.WindowAddresses | kernelcpp/code/mem/vmm.h:6-9 | the virtual addresses of `page_directory[i]` and `page_tables[1024 i + j]` lie at word `i` and word `j` of the pages that the self-reference speaks of |
| Mmu.InstallSeen | kernelcpp/code/mem/vmm.c:151-155 | no cached translation becomes wrong when an empty slot gets a table |
| Mmu.RemapSafeIff | kernelcpp/code/mem/vmm.c:159 | writing an entry without `invlpg` is right for every processor exactly if the page was unmapped or keeps its frame |
| Mmu.StoreSurvivesIff | kernelcpp/code/mem/vmm.c:137-159 | a word stored through whatever translation the processor holds is found after the next load of `cr3` exactly if that translation is the tables' or the word was there already; always, on a page that is not stale |
| Mmu.Machine.VirtualWrite | kernelcpp/code/mem/vmm.c:159 | a store through a page that is not stale lands in the word the hardware walk gives, even if the processor uses a cached translation |
| Mmu.Machine.Map | kernelcpp/code/mem/vmm.c:143-160 | as written: the entry is `(pa & PAGE_MASK) or flags`, the page translates to it, no other page of any directory changes, a table is taken exactly when missing, and it fails exactly when that finds no page |
| Mmu.Machine.MapRepaired | kernelcpp/code/mem/vmm.c:143-160 | the same with line 155 repaired, whatever free pages hold and wherever page 0 is |
| Mmu.Machine.Unmap | kernelcpp/code/mem/vmm.c:162-169 | the page alone becomes unmapped, its entry 0, and no processor keeps its old translation |
| Mmu.Machine.GetMapping | kernelcpp/code/mem/vmm.c:171-186 | 0 exactly without a table, -1 exactly for an empty entry, otherwise 1 and the address in the entry; so it agrees with the hardware walk, and gives -1 after unmap |
| Mmu.Machine.RunEdits | kernelcpp/code/mem/vmm.c:143-169 | any run of map and unmap below the last 8 MB: each page translates as the last call about it says, other directories are as before, the windows reach the live directory and tables; the run ends early exactly where a call finds no table and gets none |
| Mmu.Machine.EnterSpace | kernelcpp/code/mem/vmm.c:137-141 | a change of directory leaves nothing stale |
| AddressSpaces.NewSpaceMeaning | kernelcpp/code/mem/vmm.c:55-83 | a new address space is identity on 4 MB, the self-references, and nothing else |
| AddressSpaces.OpenWindow | kernelcpp/code/mem/vmm.c:99-116 | a window opened on a new frame is seen by every processor, because it was unmapped and flushed before |
| AddressSpaces.CloseWindow | kernelcpp/code/mem/vmm.c:110-125 | a window closed again is seen by none |
| AddressSpaces.BuildTables | kernelcpp/code/mem/vmm.c:103-122 | identity table, self table and directory end as the first branch leaves them |
| AddressSpaces.CreatePageDirectory | kernelcpp/code/mem/vmm.c:84-129 | the branch under paging builds that same space; every other translation of the running directory and all other directories are unchanged; it succeeds exactly if the pool has the 3 or 4 pages |
| Boot.WriteFirstDirectory | kernelcpp/code/mem/vmm.c:55-83 | the branch without paging builds that same space by physical writes |
| Boot.Start | kernelcpp/code/mem/vmm.c:20-43 | start-up ends with the machine's invariant, windows closed and 2044 pages free |
| HeapLists.FindConserves | kernelcpp/code/mem/heap.c:191-215 | as written, the search keeps the allocated chunks in order, and the lengths never add up to more |
| HeapLists.LengthsKeptIff | kernelcpp/code/mem/heap.c:191-215 | as written, the sum of lengths is conserved exactly when no free run the walk merges reaches 2^31 before it is long enough |
| HeapLists.CutExample | kernelcpp/code/mem/heap.c:200 | two free chunks whose merged length wraps, so 2^31 bytes of length are gone |
| HeapLists.FindIsFirst | kernelcpp/code/mem/heap.c:191-215 | the part passed is coalesced and holds nothing long enough, so the result is the first that fits, or none of the whole coalesced list does |
| HeapLists.FindServes | kernelcpp/code/mem/heap.c:191-215 | repaired, the chunk found is the first stretch of touching free chunks whose bytes have room for the request, made one, and the rest of the list stands behind it untouched; nothing is found exactly when no stretch has room |
| HeapLists.NothingFoundIff | kernelcpp/code/mem/heap.c:196-203 | the same by addresses: nothing is found exactly when every stretch of free neighbours, each starting where the last ends, is too short from first payload to last byte; and in the part passed no two free neighbours touch |
| HeapLists.MergeKeepsBytesIff | kernelcpp/code/mem/heap.c:198-202 | a merged chunk ends where its second part did only under the repaired rule |
| HeapLists.SplitAsWrittenIff | kernelcpp/code/mem/heap.c:307-322 | reuse as written fills the chunk's bytes exactly for lengths from request + 8 to request + 16 |
| HeapLists.SplitRepairedFills | kernelcpp/code/mem/heap.c:307-322 | repaired, the pieces fill the chunk exactly and the first is long enough |
| HeapLists.KmallocReuses | kernelcpp/code/mem/heap.c:86-177 | repaired, a request of 512 bytes or more leaves the heap's end alone exactly if a stretch of touching free chunks has room; then the pointer is to the first such stretch, the chunk kept has at most 8 bytes more than asked for, and the bytes left over are a free chunk of the list from its end to where the stretch ended |
| HeapLists.SplitLosesIff | kernelcpp/code/mem/heap.c:307-322 | as written, a split takes everything behind the chunk off the list: exactly unless its length is request + 8 to request + 16 |
| HeapLists.ReuseOverlaps | kernelcpp/code/mem/heap.c:115 | freeing 600 bytes and asking for them again puts a header inside the payload handed out |
| HeapTiling.EveryByteOnce | kernelcpp/code/mem/heap.c:149-176 | in a tiling every byte belongs to exactly one chunk |
| HeapTiling.Replace | kernelcpp/code/mem/heap.c:307-322 | replacing a chunk of one list by pieces that fill it keeps the tiling and the other lists |
| HeapRuns.FindTiled | kernelcpp/code/mem/heap.c:191-215 | the repaired search keeps the tiling and every allocated chunk |
| HeapRuns.StepKeeps | kernelcpp/code/mem/heap.c:86-188 | every kmalloc and kfree keeps lists, tiling and live pointers in agreement |
| HeapRuns.EveryRunTiles | kernelcpp/code/mem/heap.c:86-188 | after any run the chunks tile [HEAP_START, current_mem_addr), each on the list of its class in ascending order, live payloads at least as long as asked for |
| HeapRuns.LivePayloadsDisjoint | kernelcpp/code/mem/heap.c:86-188 | two live payloads share no byte and lie inside the heap |
| HeapRuns.RequestsAreTight | kernelcpp/code/mem/heap.c:86-188 | after every repaired run a chunk of the last list in use belongs to a live request and is at most 8 bytes longer than that |
| HeapRuns.ListsArePeaks | kernelcpp/code/mem/heap.c:135-176 | a class's list holds as many chunks as were ever live in it at once |
| HeapRuns.HeapExtent | kernelcpp/code/mem/heap.c:149-176 | the heap has grown by the classes' peaks times chunk size plus the last list, nothing else |
| HeapRuns.SmallRunsOnly | kernelcpp/code/mem/heap.c:86-188 | as written, below 512 bytes: the last list stays empty and the extent is the sum of peak times (size + 8) |
| HeapRuns.SmallRunsAligned | kernelcpp/code/mem/heap.c:149-169 | as written, below 512 bytes, the heap's end stays a multiple of 8 |
| HeapRuns.CutIsReached | kernelcpp/code/mem/heap.c:191-215 | as written, asking for 600 bytes and freeing them twice leads to the chunks of CutExample |
| HeapRuns.FreshPointer | kernelcpp/code/mem/heap.c:135-188 | a length that is negative as an int gets NULL and changes nothing; any other gets a pointer that is not NULL and not one still live |
| HeapGrowth.PagesMappedExactly | kernelcpp/code/mem/heap.c:158-161 | the truncating formula maps the pages the new end needs, but never less than one |
| HeapGrowth.LastMappedIs | kernelcpp/code/mem/heap.c:158-169 | a run has mapped the pages up to that of the heap's end, and one more exactly when a growth has started on the end's page |
| HeapGrowth.HeaderMappedIff | kernelcpp/code/mem/heap.c:150-155 | in every run the header written before growth is on mapped pages exactly when the end's page has room for it or a growth has started there |
| HeapGrowth.SmallRunsKeepHeaderOnPage | kernelcpp/code/mem/heap.c:150-155 | in every run of requests below 512 bytes it is |
| HeapGrowth.LargeRequestUnmapped | kernelcpp/code/mem/heap.c:150-155 | after one request of 0x1FF4 bytes the next header runs onto a page that is not mapped |
| HeapGrowth.MapHeapPage | kernelcpp/code/mem/heap.c:165-166 | one heap page gets a frame no one else has; only its own translation changes, and it is stale exactly if it was mapped before |
| HeapGrowth.GrowHeap | kernelcpp/code/mem/heap.c:158-169 | every page up to that of the new end is mapped, nothing up to the old page changed, the frames taken, tables added and translations gone stale are counted exactly, and it succeeds exactly if the pool has the frames |
| Accounting.PagesTakenCount | kernelcpp/code/mem/heap.c:163-167 | growth costs each page once and each missing table once |
| Accounting.SmallHeadersMapped | kernelcpp/code/mem/heap.c:150-155 | runs of requests below 512 bytes write every header onto mapped pages |
| Accounting.LargeHeaderFaults | kernelcpp/code/mem/heap.c:150-155 | a request of 0x1FF4 bytes and one after it do not |
| Budgets.HeaderFaultExample | kernelcpp/code/mem/heap.c:150-155 | in a process just created the request after one of 0x1BEC bytes ends in a page fault, whatever the pool holds |
| Budgets.CreateFromHeapStack | kernelcpp/code/TaskManager.cpp:49-78 | a process created and switched to cannot create another from a stack on its heap, whatever the pool holds |
| HeapObjects.Heap.FindNonstandard | kernelcpp/code/mem/heap.c:191-215 | the pointer walk, under either rule, the cut of lengths included, returns what the search on lists returns and leaves exactly its list, so FindServes speaks of it; `last_node` is the tail when nothing fits |
| HeapObjects.Heap.FirstFreeNode | kernelcpp/code/mem/heap.c:135-144 | the first free node of a standard list, or the tail to append to |
| HeapObjects.Heap.SplitChunk | kernelcpp/code/mem/heap.c:307-322 | repaired, on headers: the list is the one with the chunk replaced by its pieces, which KmallocReuses and RequestsAreTight speak of |
| HeapObjects.Heap.LinkChunk | kernelcpp/code/mem/heap.c:149-176 | the new header is appended to its class's list and to no other |
| HeapObjects.Heap.WriteHeader | kernelcpp/code/mem/heap.c:151-155 | the new header is written before anything is mapped, and goes through exactly when all its bytes are on mapped pages |
| HeapObjects.Heap.Kmalloc | kernelcpp/code/mem/heap.c:86-177 | header by header and page by page it does what the list function does and keeps the heap's pages mapped; it fails exactly when a new chunk is needed and either its header, written first, is not on mapped pages, or the pool lacks the pages |
| HeapObjects.Heap.Kfree | kernelcpp/code/mem/heap.c:180-188 | the chunk of a live pointer becomes free and nothing else changes |
| HeapObjects.Heap.LengthsFit | kernelcpp/code/mem/heap.c:200 | in a heap with pages behind it every length fits the 31-bit field, so repaired merging never cuts |
| HeapObjects.ServableIff | kernelcpp/code/mem/heap.c:150-167 | a request can be served exactly when the pool holds the pages and tables its growth costs and, if it needs a new chunk, the last byte of the header is on a page already mapped |
| HeapObjects.RunHeap | kernelcpp/code/mem/heap.c:86-188 | every run of requests on a machine maps exactly the pages and takes exactly the frames the run costs; it stops short exactly when the pool does not hold them or a header is not on mapped pages, at the first request of which that is so; and it leaves the next header's bytes mapped exactly under the condition of HeaderMappedIff |
| HeapObjects.TwoSmallRequests | kernelcpp/code/mem/heap.c:158-167 | two requests for 8 bytes leave the second heap page remapped without `invlpg` |
| Kernel.System.HeapFramesPrivate | kernelcpp/code/TaskManager.cpp:49-78 | no frame is mapped at heap addresses in two directories or at two heap pages of one |
| Kernel.System.HeapFramesAreNoTables | kernelcpp/code/mem/heap.c:76-77 | no heap frame holds a table, a directory or the bitmap, or will be handed out again |
| Kernel.System.Malloc | kernelcpp/code/mem/heap.c:86-177 | the running process's allocation keeps every process's address space and heap in order and the books exact; it fails exactly when the pool lacks the pages its growth costs or the new header is not on mapped pages |
| Kernel.System.CreateProcess | kernelcpp/code/TaskManager.cpp:49-78 | a new directory with a heap and a stack of its own, all other address spaces unchanged, the caller's directory running again; it succeeds exactly if the pool has the pages and the caller's stack is in the first 4 MB, and takes exactly those pages |
| Kernel.StackStaysIff | kernelcpp/code/TaskManager.cpp:63 | a page of the caller's is on the same frame in the directory it has created exactly if it lies in the first 4 MB |
| Kernel.System.CreateCosts | kernelcpp/code/TaskManager.cpp:49-78 | six pages, or seven if the windows have no table yet; with them it goes well exactly if the caller's stack is in the first 4 MB |
| Kernel.System.Switch | kernelcpp/code/mem/vmm.c:137-141 | switching to another process keeps everything and changes only who runs |
| Kernel.StackIsFirst | kernelcpp/code/TaskManager.cpp:103 | every process's first stack is at the same address of its heap and takes one page |
| Kernel.Launch | kernelcpp/code/TaskManager.cpp:30-47 | start-up establishes the invariant of all runs |
| Kernel.Run | kernelcpp/code/TaskManager.cpp:49-78 | every run of creations, allocations, frees and switches keeps the invariant and ends with the books the operations add up to; it stops short exactly before an operation that costs more than the pool then holds or ends in a page fault, on a header or on the creator's stack |
| Scheduling.ReceiveTakesOldest | kernelcpp/code/IPC.cpp:49-87 | a receive takes the receiver's oldest payload and leaves every other thread's queue as it was |
| Scheduling.ClearedQueues | kernelcpp/code/IPC.cpp:89-112 | repaired clearing empties one thread's queue and no other |
| Scheduling.EveryRunOk | kernelcpp/code/TaskManager.cpp:173-233 | at every point ids are distinct and below the counter and every queued message has a living addressee |
| Scheduling.TickRotates | kernelcpp/code/TaskManager.cpp:215-227 | a tick without an exit rotates current and queue by one place |
| Scheduling.MovesUp | kernelcpp/code/TaskManager.cpp:192-233 | a waiting thread moves up one place a tick, whatever happens meanwhile |
| Scheduling.RunsInTurn | kernelcpp/code/TaskManager.cpp:192-233 | a thread at position k runs after exactly k + 1 ticks, with creations and exits between, and not before |
| Scheduling.ExitEndsThread | kernelcpp/code/TaskManager.cpp:192-248 | in every run from start-up, a thread that has called `thread_exit` goes on running until the next tick that finds another waiting, and from then on is neither current nor waiting and has no message queued |
| Scheduling.FifoPerThread | kernelcpp/code/IPC.cpp:23-87 | over any interleaving, what a living thread received followed by what is queued for it is what was accepted for it, in order and byte for byte |
| Scheduling.DeliveredIsPrefix | kernelcpp/code/IPC.cpp:49-87 | no thread ever gets anything not sent to it, nor out of order |
| Ipc.MessageList.SendMessage | kernelcpp/code/IPC.cpp:23-47 | the node goes behind the last one, exactly if the addressee runs |
| Ipc.MessageList.ReceiveMessage | kernelcpp/code/IPC.cpp:49-87 | as written: it returns and unlinks the first message for the caller, and reads through NULL exactly on an empty list |
| Ipc.MessageList.ClearMessages | kernelcpp/code/IPC.cpp:89-112 | as written, node by node: what stays is `ClearedAsWritten`, and a freed node stays linked exactly when the first two messages both match |
| Ipc.ClearAsWrittenIff | kernelcpp/code/IPC.cpp:89-112 | as written, a thread's messages are all gone exactly when no two of them were neighbours |
| Ipc.ClearAsWrittenClears | kernelcpp/code/IPC.cpp:89-112 | and then nothing else is gone |
| Ipc.ClearedLeaves | kernelcpp/code/IPC.cpp:89-112 | as written, on any list, exactly what stays: every message of another thread, and of a thread's own in a row every second, counted by its place in the row; so all other threads' queues are as before |
| Ipc.LeftBehindExample | kernelcpp/code/IPC.cpp:98-109 | three messages that leave one behind |
| Ipc.MessageList.ClearMessagesRepaired | kernelcpp/code/IPC.cpp:89-112 | repaired, node by node, exactly the thread's messages are unlinked |
| Switching.OthersStep | kernelcpp/code/thread_asm.s:4-38 | whatever others do, ending included, a waiting thread keeps its saved registers and its stack from its stack pointer up; as written, for switches that are no page fault and spare it |
| Switching.RoundTrip | kernelcpp/code/thread_asm.s:4-38 | a thread switched out and, after anything, in again returns from its own call with the same ebp, ebx, esi, edi, flags, directory and stack, and esp past the return address: in every run with `cr3` loaded first, and as written in every run whose switches find the incoming stack's word mapped and spare the waiting threads |
| Switching.ThereAndBack | kernelcpp/code/thread_asm.s:4-38 | such runs exist in either order: two processes with stacks at the same address switch there and back |
| Switching.FirstSwitch | kernelcpp/code/TaskManager.cpp:102-112 | however late, a new thread's first switch enters `thread_start` with `thread_exit` as return address, the child as argument, interrupts enabled and ebx, esi and edi 0, under the same two rules |
| Switching.FaultsIff | kernelcpp/code/thread_asm.s:16-38 | with `cr3` loaded first no access of a switch is a page fault; as written one is exactly when the word under the incoming stack pointer is on no mapped page of the outgoing directory |
| Switching.AsWrittenTouches | kernelcpp/code/thread_asm.s:30-35 | as written, when it is no page fault, the incoming flags overwrite one word of the outgoing directory, and only its bytes and those below the outgoing stack change |
| Switching.AsWrittenHarmlessIff | kernelcpp/code/thread_asm.s:30-35 | as written, the switch goes through and a thread that is not coming in, the outgoing one or a waiting one, keeps the stack it needs exactly when the overwritten word is mapped and each of its bytes is none of that stack or is what the flags have there |
| Switching.NewProcessDamages | kernelcpp/code/thread_asm.s:30-35 | the first switch into a new process overwrites the same address of the running process's stack |
| Switching.BystanderDamaged | kernelcpp/code/thread_asm.s:30-35 | in two processes of two threads each, the thread harmed is a waiting one while the outgoing one is spared |
| Switching.UnmappedSlot | kernelcpp/code/thread_asm.s:30-31 | two processes, the second with a thread created after 20 kB of allocations: switching to it from the first is a page fault as written, though no thread's stack is near, and none repaired |
| Turns.FairRunLeads | kernelcpp/code/TaskManager.cpp:192-233 | what any run of deeds (computing, mapping, creating, ending, sending, receiving, ticks) does to the world is a run of steps of Switching, if each was allowed when it came |
| Turns.WaitsItsTurn | kernelcpp/code/TaskManager.cpp:192-233 | in any run of deeds a thread at position k is not switched to within k ticks, and moves up a place with each |
| Turns.TurnComesBack | kernelcpp/code/TaskManager.cpp:192-233 | a thread from which a tick takes the processor has it back after exactly as many ticks more as threads were waiting, and not before, returning from its own call with its registers, directory and stack, whatever the others do, create or end meanwhile |
| Turns.TurnHappens | kernelcpp/code/thread_asm.s:4-38 | there are such turns: two processes with stacks at the same address, a tick there and a tick back |
| Turns.NewThreadStarts | kernelcpp/code/TaskManager.cpp:80-118 | a thread or process created enters its start function with its argument and its exit function on its stack, one tick after those waiting before it, and not before |
| Turns.ExitEndsThread | kernelcpp/code/TaskManager.cpp:192-248 | the same in any run of deeds, and after that tick no deed whatever switches to the thread |
| Turns.CreatesIffLow | kernelcpp/code/TaskManager.cpp:63 | creating a process ends in a page fault exactly if the caller's stack pointer's word is not in the first 4 MB; so it does for every thread with its stack on a heap |
| Turns.FairRunGoes | kernelcpp/code/thread_asm.s:4-38 | no other deed of such a run ends in a page fault |
| Stacks.CellsArePlaces | kernelcpp/code/mem/vmm.c:55-83 | two addresses in use, in whichever processes, are the same byte of physical memory exactly if they are the same cell of Switching's memory |
| Stacks.NewStackAllowed | kernelcpp/code/TaskManager.cpp:102-103 | a stack given by any process's heap is mapped and apart from all other stacks that heaps have given and from the first 4 MB, as Switching's creation step asks |
| TaskManager.Append | kernelcpp/code/TaskManager.cpp:129-144 | an item ends up behind the last one, the list still acyclic |
| TaskManager.Tasks.constructor | kernelcpp/code/TaskManager.cpp:30-47 | start-up is the start state of all runs, and of the world of waiting threads |
| TaskManager.Tasks.SwitchThread | kernelcpp/code/thread_asm.s:4-38 | instruction by instruction, the registers, directory, memory and saved record are those of `Switching.Enter`, unless one of its stack accesses is a page fault, which is exactly `Switching.Faults` |
| TaskManager.Tasks.IsRunning | kernelcpp/code/TaskManager.cpp:173-185 | true exactly for the current thread and those queued |
| TaskManager.Tasks.CreateThread | kernelcpp/code/TaskManager.cpp:80-118 | the thread queues last with the next id, the running directory and heap, and its three words on its stack; in the world of waiting threads it is the creation step |
| TaskManager.Tasks.CreateProcess | kernelcpp/code/TaskManager.cpp:49-78 | the same in the new directory; current heap and `cr3` are the caller's again; it ends in a page fault exactly if the word at the caller's stack pointer is on no mapped page of the new directory |
| TaskManager.Tasks.RemoveThread | kernelcpp/code/TaskManager.cpp:147-170 | as written: the thread's item is gone, and it reads through NULL exactly on an empty queue or if the thread was last of several |
| TaskManager.Tasks.HandleTimerEvent | kernelcpp/code/TaskManager.cpp:192-233 | as written: it reads through NULL exactly when an exited thread is to be switched from, and ends in a page fault exactly when the switch does; otherwise it is the tick of the state machine and the switch of the world of waiting threads, with `Heap::currentHeap` and `cr3` those of the new current thread |
| TaskManager.Tasks.HandleTimerEventRepaired | kernelcpp/code/TaskManager.cpp:192-233 | repaired: that tick and that switch, exits and their messages included, unless the switch is a page fault |
| TaskManager.Tasks.SwitchFaultsIff | kernelcpp/code/thread_asm.s:16-38 | while stacks are apart and mapped, that is in no repaired switch, and as written exactly when the word under the incoming stack pointer is not mapped in the directory being left |
| TaskManager.Tasks.Run | kernelcpp/code/TaskManager.cpp:192-233 | any run of deeds, item by item and register by register: queue, messages, processor, memory and waiting threads end as those of the run on values, for every world the start can be taken for; it stops short exactly at the first deed that ends in a page fault |
| TaskManager.Tasks.Exit | kernelcpp/code/TaskManager.cpp:241-248 | the current item is marked for removal and stays current, and that is all; it is the state machine's exit, whose outcome ExitEndsThread states |
| TaskManager.Tasks.Send | kernelcpp/code/IPC.cpp:23-47 | the linked lists do the state machine's send |
| TaskManager.Tasks.Receive | kernelcpp/code/IPC.cpp:49-87 | the linked lists do the state machine's receive, with the payload of the right message |
| Console.WindowScrolls | kernelcpp/code/Console.cpp:158-182 | moving the bytes up a row and clearing the last shows the next row of the page |
| Console.WindowPut | kernelcpp/code/Console.cpp:76-78 | a cell written at the cursor is inside the buffer and is that cell of the page |
| Console.Screen.Kscroll | kernelcpp/code/Console.cpp:158-182 | the bytes move up one row and zeros follow |
| Console.Screen.Kprint | kernelcpp/code/Console.cpp:31-81 | after any string the 4000 bytes are rows top to top + 24 of the page driven by the same characters, which LineBreaks, TextLaid, ScreenMoves and BackspaceStops describe; the loop with `i--` ends |
| Console.Screen.KclearScreen | kernelcpp/code/Console.cpp:10-28 | whatever the buffer held, a new page with the prompt |
| Console.Screen.Kprintln | kernelcpp/code/Console.cpp:140-145 | the text, the line end and the prompt, on the page |
| Console.ScrolledOffStays | kernelcpp/code/Console.cpp:31-81 | the cursor stays within 0..80 by 0..25, and rows scrolled off are never written again |
| Console.PlainText | kernelcpp/code/Console.cpp:31-81 | text without control characters is laid out in reading order through wraps and scrolls, and changes nothing else |
| Console.LineBreaks | kernelcpp/code/Console.cpp:51-61 | a line feed goes to the start of the next line, a carriage return to the start of the line the cursor is on, and neither changes a cell |
| Console.TextLaid | kernelcpp/code/Console.cpp:31-81 | for any text with line feeds and carriage returns in it, where the cursor ends, and that each cell shows the last character put at its place, or what it showed before |
| Console.TwoLines | kernelcpp/code/Console.cpp:31-81 | after text, a line feed and more text the second starts a line of its own, right after the one on which the first ended, and every other cell is as before |
| Console.ScreenMoves | kernelcpp/code/Console.cpp:38-50 | a character moves the screen on by three rows exactly when the cursor is below the last row or a full last row sends it there, and otherwise not at all |
| Console.BackspaceStops | kernelcpp/code/Console.cpp:62-75 | a backspace goes back one place but not above the first row shown, clearing only the cell it reaches |
| Console.BackspaceErases | kernelcpp/code/Console.cpp:62-79 | it takes back the plain character before it |
| Keyboard.StrokeDecodesIff | kernelcpp/code/Keyboard.cpp:1 | one stroke is read as meant, and the decoder is ready again, exactly when its key is known and it is not one of the two taken for Print Screen |
| Keyboard.RoundTrip | kernelcpp/code/Keyboard.cpp:1 | decoding the bytes of any ordinary strokes gives them back and ends in the start state |
| Keyboard.AnswersPass | kernelcpp/code/Keyboard.cpp:1 | bytes 0xFA and 0xFE make no difference anywhere |
| Keyboard.UnknownReleaseSticks | kernelcpp/code/Keyboard.cpp:1 | after the release of an unknown key the next press is read as a release |
| Keyboard.PauseDecodes | kernelcpp/code/Keyboard.cpp:1 | the eight bytes of Pause are read as its press and release |
| Keyboard.PrintScreenIff | kernelcpp/code/Keyboard.cpp:1 | Print Screen's press and its release are read as meant exactly if the decoder counts no byte when they begin |
| Keyboard.PrintScreenSticks | kernelcpp/code/Keyboard.cpp:1 | pressed and released once from start-up, Print Screen stays down |
| Keyboard.StreamsAsMeant | kernelcpp/code/Keyboard.cpp:1 | keys held and text after such a stream are those of the strokes |
| Keyboard.HeldIff | kernelcpp/code/Keyboard.cpp:1 | a key is down exactly when its last event was a press |
| Keyboard.KeyTypes | kernelcpp/code/Keyboard.cpp:1 | over all events: a press of key 65 to 93 types the key with shift last pressed and key + 32 without, of 49 to 57 key - 16 with it and the key without, of shift or alt nothing, of any other key itself; a release types nothing |
| Keyboard.StaysInBuffer | kernelcpp/code/Keyboard.cpp:1 | the line buffer never holds more than it has room for |
| Keyboard.LinesKeepText | kernelcpp/code/Keyboard.cpp:1 | the lines handed over and the buffer together are everything typed, in order |
| Keyboard.LinesEnd | kernelcpp/code/Keyboard.cpp:1 | a line handed over ends with enter or fills the 78 places and has no enter before its end, and the buffer holds none, so together with LinesKeepText the lines are determined |
| Keyboard.SeenIs | kernelcpp/code/Keyboard.cpp:1 | over all events: a listener has been told of every event and given every line in order, and the console all that was typed |
| Keyboard.ShownTerminatedIff | kernelcpp/code/Keyboard.cpp:1 | what the listener gets is the line, with a terminator in enter's place exactly when it ended with enter |
| Keyboard.Driver.SetPressed | kernelcpp/code/Keyboard.cpp:1 | table, buffer, echo and what the listener is given change as the event says |
| Keyboard.Driver.HandleKeyboardEvent | kernelcpp/code/Keyboard.cpp:1 | each interrupt does one step of the decoder and reports exactly its events |

## Left out

- `kernel_malloc` and `kernel_free`: assumed to supply fresh, separate blocks; creating a Dafny object stands for them.
- `place_nonstandart_node` (its call is commented out) and the empty `destroy_page_directory`.
- Port I/O, descriptor tables, interrupt stubs, boot code; panics are failure results, console messages inside the kernel are dropped.
- Reclaiming a dead process's pages and payloads: the code does not do it, so nothing is said about leaks.
- A timer tick in the middle of `createProcess` or `createThread`: each is one atomic step.
- Chunk headers are a map from address to header beside physical memory, not words of it; HeapGrowth says which of their pages are mapped and which are stale, and Mmu.StoreSurvivesIff what becomes of a store through a stale one, but HeapObjects does not apply it to headers. The allocator's bitmap and the thread and message records are kept apart from the words of memory in the same way.
- `split_chunk` as written is modelled on lists only; header by header, the as-written rule covers the search with its merging, and the rest covers the repaired rule. The sum at heap.c:200 is taken to wrap before it is stored, as the compiled code does.
- Mmu.Machine.Map: as written and with a table missing, only while free pages hold zeros and page 0 is in its place; TableClearing.CreateTableIff has the condition for any contents.
- Accessed, dirty and user bits, large pages and write protection of the walk.
- The first branch's pages come from the bump phase at the addresses kmain gives; RAM not handed out is taken to be zero at start, as after power-up.
- HeapObjects.Heap.Kmalloc: leaves out requests within 8 bytes of 2^31, where the source's `int` sum overflows.
- HeapObjects.Heap.Kfree: only for a live pointer; the source trusts its caller in the same way.
- TableClearing.CreateTableIff: for a `memset` that goes through, with its two pages translated as when it starts; where either is not mapped (`Reaches`) it is a page fault.
- TaskManager.Tasks.CreateProcess: takes directory, heap, pages and stack as given; Kernel.System.CreateProcess makes them.
- Switching.RoundTrip: each thread keeps its stack pointer inside its own stack, and its hands off the others'.
- TaskManager.Tasks.Run: with the repaired timer interrupt; a deed that is allowed by Switching is not checked to be one a program makes. After a read through NULL the code goes on with what is at address 0, and nothing is said of that.
- TaskManager.Tasks.RemoveThread: when it reads through NULL, what it promises besides holds if the words at 0 and 4 are 0; so for Ipc.MessageList.ReceiveMessage.
- Kernel.Run: requests within 8 bytes of 2^31, frees of what is not live and switches to no process are passed over.
- Keyboard.Driver.HandleKeyboardEvent: `length` does not wrap at 2^31 bytes; RoundTrip is of ordinary strokes only, as Pause and Print Screen leave `length` above zero (PauseDecodes, PrintScreenIff).
- Console.Screen.Kprint: for strings with a terminator, as C requires.
- Numbers printed by `kprint(unsigned)` and `kprinthex`, string helpers, and the key constants beyond the scancode table.
