# StrixOS: verified models

Dafny models of the parts of StrixOS with unbounded behaviour, and proofs of what they promise.
StrixOS is a small x86_64 kernel that carries GNU coreutils sources. `dafny verify
dfyconfig.toml` checks everything.

Code that changes state in place is modelled by classes over arrays and fields; each method is
proved against a function or predicate on values, and the main theorems are lemmas about those.

| files | what they model |
|---|---|
| `Words`, `Pmm` | physical memory in 64-bit words; the frame allocator and its bitmap |
| `PageTables`, `HugePages`, `Vmm`, `Loader` | the four-level tables as a page-to-frame map (4-level paging, section 4.5 of the Intel SDM, volume 3A), what unmapping does in huge pages, mapping and unmapping in place, and the tables the UEFI loader leaves |
| `HeapBlocks`, `Heap` | the heap as a list of blocks, and the same list as headers in memory |
| `RoundRobin`, `Process`, `Context` | scheduling as runs of abstract states, the linked table of slots, and the stack switch |
| `CatSpec`, `Cat` | what `cat` prints line by line, and the block-buffered sentinel loop |
| `LsTraversal`, `LsColumns`, `LsColors` | `ls -R` on any graph, the column layout, and the `LS_COLORS` parser |
| `Sgr`, `Pages` | colour sequences (SGR, section 8.3.117 of ECMA-48), and the page without end that a screen shows the last rows of |
| `TextScreen`, `Vga`, `Scrollback` | the 80 by 25 text screen and its page |
| `Framebuffer`, `FbPixels`, `FbScroll` | the pixel terminal, what it draws, the printers that feed it, and its page |
| `LineEdit`, `LineScreen`, `Shell` | the shell's line, history and keys, and what the screen shows of them |
| `FileTable`, `FileStore`, `Vfs`, `Editor` | the file table over the heap, descriptors, and the text editor |

## Where the code and its comments disagree

The models follow the code.

- `kernel/pmm.c:35` says the bitmap's own page is marked used. The bitmap lies below the managed
  range, its page number wraps around, and nothing is marked (`Pmm.FrameAllocator.constructor`).
- `vmm_get_phys` leaves the NX bit in the address it returns (`Vmm.RoundTrip` says exactly when).
- `vmm_unmap_page` follows a huge-page entry as if it led to a table: it then clears data, or unmaps
  another page (`HugePages.UnmapsExactly` says exactly when it does what it is for, and
  `Loader.UnmapsAnotherPage` is a run from boot in which it does not).
- `uefi/loader.c:183` speaks of 0-64 MB; the tables map the lowest 4 GiB, and the entry for
  0x3FC00000 leads to 0 (`Loader.IdentityBelow4G`).
- `task_create` reuses an UNUSED slot that is still linked, and the list then ends in a self-loop
  (`Process.Scheduler.TaskCreate`, `Process.SelfLoop`). An exit followed by a creation leads there
  (`Process.ReuseAfterExit`).
- `vfs_read` adds offset and length in size_t; when the sum wraps it copies past the end of the file
  (`Vfs.ReadFits`, `Vfs.ReadPastEnd`).
- `cat` explains its output buffer with line numbers of any usual length; the bound holds up to ten
  digits (`Cat.CatProcess.CatFiles`) and fails at the first number of eleven (`Cat.WorstBlockFits`).
- In `LS_COLORS`, `^?` is meant as the delete character but its question mark is read again
  (`LsColors.CaretDeleteLeavesQuestion`).
- `^K` in the editor leaves the cursor where it was (`Editor.CutCursor`), and a file longer than
  8191 bytes is cut short when it is saved again (`Editor.OpenThenSave`).

## Model

| member | source | states |
|---|---|---|
| Pmm.SetBit | kernel/pmm.c:20 | Setting bit k of a bitmap byte sets that bit and no other. |
| Pmm.ClearBit | kernel/pmm.c:21 | Clearing bit k of a bitmap byte clears that bit and no other. |
| Pmm.PageAddress | kernel/pmm.c:24-25 | Page numbers and managed addresses correspond one to one, in the unsigned arithmetic of the source. |
| Pmm.FrameAllocator.constructor | kernel/pmm.c:27-40 | After start-up every page is free: the page number of the bitmap itself wraps around, so it is not marked. |
| Pmm.FrameAllocator.AllocPage | kernel/pmm.c:56-65 | First fit: the lowest free page becomes used, is all zeros, and nothing else changes; null exactly when all pages are used. |
| Pmm.FrameAllocator.FreePage | kernel/pmm.c:66-73 | Frees exactly the page an aligned, managed, used address names; every other address is ignored. |
| Pmm.FrameAllocator.AllocPages | kernel/pmm.c:74-86 | Although the search skips past each used page it meets, it finds the lowest run of n free pages, and returns null exactly when there is no such run (or n is 0). |
| Pmm.FrameAllocator.FreePages | kernel/pmm.c:87 | Frees exactly the used pages that the n wrapped addresses name. |
| Pmm.FreedAreAllocated | kernel/pmm.c:80-87 | What freeing n pages from an allocation's address releases is the run that was allocated. |
| Pmm.FreeUndoesAlloc | kernel/pmm.c:74-87 | Allocation followed by freeing gives back the set of used pages there was. |
| Pmm.UsedFixesBitmap | kernel/pmm.c:20-22 | The set of used pages determines every byte of the bitmap, so the bitmap is restored as well. |
| PageTables.PagesAreAddresses | kernel/vmm.c:24-27 | Two 48-bit addresses have the same four indices exactly when they lie on one 4 KiB page. |
| PageTables.ForeignFrame | kernel/vmm.c:30-34 | Zeroing a frame that is not a table keeps the tables well formed and every translation. |
| PageTables.LinkEmptyTable | kernel/vmm.c:30-34 | Hooking a fresh, zeroed table into an entry that was not present changes no translation; this is where freshness and zeroing of frames are needed. |
| PageTables.StoreLeaf | kernel/vmm.c:53-56 | Writing a last-level entry changes the translation of exactly the pages whose walk ends at it. |
| PageTables.WritableThrough | kernel/vmm.c:30-56 | A mapped page can be written, through all four levels, if and only if the entry that maps it says so, because the tables above are hooked in writable. |
| PageTables.AddressInPage | kernel/vmm.c:78-94 | For each of the three page sizes the address looked up lies in the page mapped, at the offset asked for. |
| PageTables.RemappedBack | kernel/vmm.c:23-76 | Giving the pages that share an entry back what they had restores the whole map. |
| Vmm.RoundTrip | kernel/vmm.c:55-93 | For an address mapped to pa, the lookup returns pa with the page offset if and only if NX was not asked for or is a bit of pa: the lookup does not mask NX. |
| Vmm.LeafBits | kernel/vmm.c:55-57 | The entry stored has the frame of pa, the low flags and NX as asked for, and is present. |
| Vmm.AliasAgrees | uefi/loader.c:189 | While entries 0 and 511 of the top table agree, every page translates like its alias. |
| Vmm.AddressSpace.EnterPdpt | kernel/vmm.c:30-35 | Reaching or making the second-level table changes no translation, and fails only when mapping is infeasible. |
| Vmm.AddressSpace.EnterPd | kernel/vmm.c:37-43 | The same for the page directory, refused inside a 1 GiB page. |
| Vmm.AddressSpace.EnterPt | kernel/vmm.c:44-53 | The same for the last-level table, refused inside a 2 MiB page. |
| Vmm.AddressSpace.MapPage | kernel/vmm.c:23-59 | Succeeds exactly when the page is unmapped, in no huge page, and frames for the missing tables are there. Then exactly the pages sharing its leaf slot map to pa, and can be written if and only if the flags say so; a failed call, even one that ran out midway, changes no translation. |
| Vmm.AddressSpace.UnmapPage | kernel/vmm.c:61-76 | Clears one word, and unmaps exactly the pages whose walk reads it. That is what the call is for (the pages sharing the entry of va, and no other) if and only if the walk for va meets no huge bit; only a huge page that holds a table of its own walk can be an exception, and its condition is stated. In the tables of a running kernel there is none, huge pages stay mapped whatever is unmapped, and the two ends of the address space stay alike. |
| HugePages.UnmapsExactly | kernel/vmm.c:61-76 | Unless the walk reads the very word that is cleared, inside a huge page, the call unmaps its page and no other if and only if the walk ends at a last-level entry, that is, no huge bit was met. In the exception it does so if and only if that word is the page's own entry or the only way to it. |
| HugePages.UnmapsApart | kernel/vmm.c:61-76 | With the huge pages apart from the frames handed out, that holds without exception, and no page in a huge page loses its translation. |
| HugePages.LinkKeepsApart | kernel/vmm.c:30-50 | Hooking in a table from the frame allocator keeps the huge pages apart from the frames handed out. |
| HugePages.NotOnHugeWalk | kernel/vmm.c:61-76 | What unmapping clears is never on the walk to a huge page, and never in the top table. |
| PageTables.ClearAnyEntry | kernel/vmm.c:61-76 | Clearing any entry at any level, or any other word, keeps the tables well formed and unmaps exactly the pages whose walk passes it. |
| Vmm.AddressSpace.GetPhys | kernel/vmm.c:78-94 | The lookup returns the address that the page-to-frame map gives, for 4 KiB, 2 MiB and 1 GiB pages. |
| Vmm.AddressSpace.MapRange | kernel/vmm.c:96-98 | Replaces no mapping and adds only the ones asked for. Each page of the range ends up mapped, or no frame was left for the tables it needs. |
| Vmm.AddressSpace.SelfTest | kernel/vmm.c:100-118 | Maps, writes through and unmaps a fresh frame: whatever happens on the way, the map is as before. |
| Vmm.AddressSpace.MapThenUnmap | kernel/vmm.c:23-76 | For every va, pa and flags, mapping and then unmapping leaves every translation as it was, and both succeed exactly when mapping is feasible. |
| Vmm.AddressSpace.Run | kernel/vmm.c:23-118 | After any sequence of map, unmap, range and test calls the two ends of the address space agree on every page, and every page in a huge page is mapped as before. |
| Loader.FillIdentity | uefi/loader.c:188-199 | The loops leave the top tables and four page directories in the stated form. |
| Loader.MapWindow | uefi/loader.c:201-213 | The framebuffer loop changes exactly the 2 MiB entries the window touches below 4 GiB. |
| Loader.BuildTables | uefi/loader.c:188-217 | The tables are well formed, aliased, and hold exactly the stated entries; the last three writes find their entries present. |
| Loader.LoaderMapping | uefi/loader.c:188-217 | What every page of the address space maps to: the lowest 4 GiB at both ends, and nothing else. |
| Loader.IdentityBelow4G | uefi/loader.c:188-213 | Every address below 4 GiB translates to itself, except in the 2 MiB page at 0x3FC00000, which leads to 0 unless the framebuffer covers it. |
| Loader.Boot | uefi/loader.c:186-219 | The address space handed to the kernel is valid, with all frames free, both ends alike and its huge pages apart from the frames handed out, and with the translations above. |
| Loader.BootAndRun | uefi/loader.c:186-219 | After any sequence of calls from there on, every address below 4 GiB still translates as at boot, and both ends of the address space agree. |
| Loader.UnmapsAnotherPage | kernel/vmm.c:61-76 | A run from boot where unmapping fails its purpose: 0x100000000 is mapped, and its page directory is the frame at 0x200000, inside a huge page. Unmapping 0x200000 reports success, leaves it mapped, and unmaps 0x100000000. |
| HeapBlocks.RoundUpCovers | kernel/heap.c:49 | The rounded size is a multiple of 16 less than 16 above the request, and covers it if and only if the request is at most 2^64 - 16; otherwise it wraps to 0. |
| HeapBlocks.Conservation | kernel/heap.c:101-110 | In any tiling, bytes in use, free bytes and headers add up to the whole heap. |
| HeapBlocks.Apart | kernel/heap.c:11-16 | Two different blocks, header and payload, never overlap. |
| HeapBlocks.TakeWellFormed | kernel/heap.c:52-61 | Taking and splitting a block keeps the tiling and leaves no two adjacent free blocks. |
| HeapBlocks.TakeLive | kernel/heap.c:52-62 | Allocation adds one block to those in use and keeps all others. |
| HeapBlocks.TakeRest | kernel/heap.c:52-61 | The block handed out exceeds the rounded size by less than a header and 16 bytes, and no more than that is lost to the free bytes besides it. |
| HeapBlocks.TakeSized | kernel/heap.c:49-61 | Taking a rounded size keeps all block sizes multiples of 8 and at least 16. |
| HeapBlocks.ReleaseSized | kernel/heap.c:65-80 | So does freeing. |
| HeapBlocks.SizedAligned | kernel/heap.c:62 | So every pointer handed out is a multiple of 8. |
| HeapBlocks.NoFitIffNoGap | kernel/heap.c:38-51 | Allocation fails exactly when the unused memory nowhere has room for a header and the rounded size. |
| HeapBlocks.FirstFitIsLowest | kernel/heap.c:38-45 | The first fit lies at the lowest address where there is room for a header and the rounded size at all. |
| HeapBlocks.ReleaseWellFormed | kernel/heap.c:69-79 | Freeing with both merges keeps the tiling and leaves no two adjacent free blocks. |
| HeapBlocks.ReleasePtrs | kernel/heap.c:65-80 | Freeing takes exactly one pointer out of those in use. |
| HeapBlocks.FreeingAllRestores | kernel/heap.c:65-80 | Freeing all live blocks, in any order, gives back the single initial block. |
| HeapBlocks.AnyOrderRuns | kernel/heap.c:65-80 | Every order of the live pointers is a possible run of frees. |
| Heap.AllocatedBlock | kernel/heap.c:47-63 | The block returned is new, as large as the rounded size and less than 40 bytes larger; the free bytes fall by at most that; and every live payload keeps its bytes. |
| Heap.SplitHeaders | kernel/heap.c:53-59 | The stores of a split leave memory holding exactly the headers of the split list. |
| Heap.MergeHeaders | kernel/heap.c:70-73 | The stores of a merge leave memory holding exactly the headers of the merged list. |
| Heap.ReleasedKept | kernel/heap.c:65-80 | Freeing changes no payload of a live block. |
| Heap.KernelHeap.constructor | kernel/heap.c:21-33 | The heap starts as one free block, or empty when no pages were had. |
| Heap.KernelHeap.FindFree | kernel/heap.c:38-45 | The walk over the headers in memory finds the first free block that is large enough, or null if none is. |
| Heap.KernelHeap.Kmalloc | kernel/heap.c:47-63 | First fit with splitting: null exactly for size 0 or when nothing fits, and then nothing changes; else the stated block is taken and memory changes inside it only. |
| Heap.KernelHeap.KmallocAll | kernel/heap.c:47-63 | Requests made of a fresh heap, one after the other, all succeed if and only if their rounded sizes with 24 bytes of header each sum to at most 1 MiB; and then the pointers are distinct and live. |
| Heap.KernelHeap.Kfree | kernel/heap.c:65-80 | The block is marked and merged with free neighbours on both sides; every other live payload is unchanged. |
| Heap.KernelHeap.Kcalloc | kernel/heap.c:82-87 | As kmalloc of the wrapped product, with the payload cleared and all other live payloads unchanged. |
| Heap.KernelHeap.Krealloc | kernel/heap.c:88-99 | A block that is large enough comes back as it is, with nothing changed; otherwise the bytes move to another block and the old one is freed. Fails without change, and leaves every other live payload unchanged. |
| Heap.KernelHeap.HeapUsed | kernel/heap.c:101-105 | The sum over blocks in use; with free bytes and headers it makes the heap size. |
| Heap.KernelHeap.HeapFree | kernel/heap.c:106-110 | The sum over free blocks, with the same total. |
| RoundRobin.ScheduledInv | kernel/process.c:67-83 | One call of schedule keeps that at most one slot is RUNNING and that it is the current one. |
| RoundRobin.ScheduledStates | kernel/process.c:67-83 | One call sets one slot RUNNING, makes the slot that ran READY again, and changes no other state. |
| RoundRobin.RunInv | kernel/process.c:33-95 | In every state of every run of schedule calls, state changes and task creations that holds, and the list has only grown at its end. |
| RoundRobin.AddedOk | kernel/process.c:33-60 | A creation on a slot that is off the list keeps the scheduler invariant and the current slot. |
| RoundRobin.CreationsLengthen | kernel/process.c:50-53 | Over a run the list grows by one for each creation and by nothing else. |
| RoundRobin.DistanceFalls | kernel/process.c:69-82 | A READY slot that is not picked is strictly nearer in cyclic order after the call. |
| RoundRobin.DistanceRises | kernel/process.c:50-53 | A creation keeps the place of every slot and puts it at most one step further away. |
| RoundRobin.NoStarvation | kernel/process.c:33-83 | A slot that stays READY runs within as many calls of schedule as it was steps ahead, plus one for each task created meanwhile. |
| RoundRobin.RunsWithinList | kernel/process.c:33-83 | So it runs once schedule was called as often as the list is long at the end of the run, less one, whatever was created on the way. |
| RoundRobin.CanRunThroughout | kernel/process.c:33-95 | A slot that can run, and that nobody but the scheduler touches, can run in every later state. |
| RoundRobin.GetsItsTurn | kernel/process.c:33-95 | So it becomes the current one within as many calls as the list is long at the end, less one, with nothing asked of the states on the way. |
| RoundRobin.ExitHandsOver | kernel/process.c:91-94 | An exit of any slot but main hands over to another slot, since main is never UNUSED. |
| Process.Scheduler.constructor | kernel/process.c:16-31 | The list starts with main alone, RUNNING. |
| Process.Scheduler.Schedule | kernel/process.c:67-83 | On the linked table, exactly the first READY slot in cyclic list order is switched to, or none. |
| Process.Scheduler.FindReady | kernel/process.c:70-76 | The do-while search meets the slots in cyclic order and stops at the first READY one, or where it began. |
| Process.Scheduler.TaskExit | kernel/process.c:91-95 | Marks the current slot UNUSED and another slot runs. |
| Process.Scheduler.TaskCreate | kernel/process.c:33-63 | Takes the first UNUSED slot. If that slot is off the list it is appended; if it is still linked, the list ends in a self-loop; without a stack nothing changes. |
| Process.AppendLinks | kernel/process.c:50-53 | Linking a slot that is off the list makes the list one longer, in order. |
| Process.SelfLoop | kernel/process.c:50-53 | A list whose last link leads to itself is the list of no finite order. |
| Process.StepAhead | kernel/process.c:70-74 | Following next, or going back to the head at the end, is one step of cyclic order. |
| Process.NoneFound | kernel/process.c:72-76 | If the search is back where it began, no slot is READY. |
| Process.ReuseAfterExit | kernel/process.c:16-95 | From start-up: a task is created, switched to and exits, and the next creation takes its slot, which is still linked. The list then ends in a self-loop at slot 1. |
| Context.Machine.ContextSwitch | kernel/context.asm:8-27 | The old stack gets a frame holding registers, flags and return address, the new context is the frame at the new stack pointer, and no other memory changes. |
| Context.Machine.PrepareStack | kernel/process.c:41-47 | A new stack holds the frame that continues in the trampoline, with the entry point above it. |
| Context.Machine.SwitchTo | kernel/context.asm:8-27 | What the pushes and pops do to the machine is one switching step of the system of tasks. |
| Context.Machine.Prepare | kernel/process.c:41-47 | What the nine stores do to the machine is one creating step of that system. |
| Context.Machine.Trampoline | kernel/context.asm:32-34 | The entry point is called with the stack pointer aligned as after any call. |
| Context.Resumes | kernel/context.asm:8-27 | Over any run of computing, switching and creating on disjoint stacks, a suspended context comes back with the rbp, rbx, r12-r15, flags, stack pointer and return address it had. |
| Context.FirstSwitch | kernel/context.asm:20-34 | A task created in such a run first runs in the trampoline with interrupts on and its own entry point on top of its stack. |
| Context.StaysParked | kernel/context.asm:8-27 | A suspended frame survives every step of the others. |
| CatSpec.LineByLine | kernel/coreutils/cat.c:211-497 | The byte-by-byte output with its carried state equals the documented output, line by line: numbering, -s, -E with ^M$, -T and -v. |
| CatSpec.EndedLine | kernel/coreutils/cat.c:370-386 | A whole line from inside: its shown bytes, ^M if -E and a carriage return ends it, $ and the newline. |
| CatSpec.OpenLine | kernel/coreutils/cat.c:392-495 | A last line without newline: its shown bytes, a final carriage return as it is. |
| CatSpec.BlankByLine | kernel/coreutils/cat.c:337-384 | Runs of blank lines: squeezed to one with -s, numbered unless -b. |
| CatSpec.BlankRun | kernel/coreutils/cat.c:337-384 | Without numbers, a run of blank lines comes out once with -s and as often as it is otherwise. |
| CatSpec.DecLength | kernel/coreutils/cat.c:131-149 | A number has at most k digits if and only if it is below 10^k. |
| CatSpec.DecValue | kernel/coreutils/cat.c:131-149 | A numeral has digits only and is worth its number. |
| CatSpec.LineNoReads | kernel/coreutils/cat.c:67-75 | What is printed before a line is its number, right-aligned in six columns or as wide as it is, and a tab. |
| CatSpec.QuotedReads | kernel/coreutils/cat.c:416-457 | For every byte but the newline, reading the -v notation (M- adds 128, ^? is 127, ^c is c less 64) gives the byte back, and it is shown in printing characters only, apart from a tab without -T. |
| CatSpec.LineReads | kernel/coreutils/cat.c:416-457 | A whole line shown with -v reads back as it was if and only if no byte runs on into the next: no ^ (or byte 222) before something shown with a character from ? to _ first, and no M before - and a further byte. |
| CatSpec.BodyGraphic | kernel/coreutils/cat.c:416-457 | A line shown with -v has printing characters only, and tabs without -T. |
| CatSpec.ShowAll | kernel/coreutils/cat.c:416-457 | -A on a tab, delete, byte 1, byte 200 and a final carriage return: ^I^?^AM-H^M, and $ before the newline. |
| CatSpec.ShowEnds | kernel/coreutils/cat.c:370-386 | -E alone shows the carriage return that ends a line as ^M and leaves others. |
| Cat.SuccIsNext | kernel/coreutils/cat.c:131-149 | Counting up a decimal numeral with carry gives the next number's numeral. |
| Cat.Carry | kernel/coreutils/cat.c:134-147 | Trailing nines turn to zeros and the digit before them rises; all nines gain a digit. |
| Cat.LineCounter.NextLineNum | kernel/coreutils/cat.c:131-149 | line_buf holds the decimal line count, right-aligned in six columns or more, as long as it has 18 digits; after that its first byte is >. |
| Cat.LineCounter.Text | kernel/coreutils/cat.c:67-75 | What is copied from line_num_print is the line number in six columns or more and a tab. |
| Cat.CatProcess.Flush | kernel/coreutils/cat.c:251-269 | Full blocks are written and the rest moved down; nothing is lost and less than a block remains. |
| Cat.CatProcess.RealNewline | kernel/coreutils/cat.c:337-384 | One real newline emits what the specification says and keeps the output pointer in bounds. |
| Cat.CatProcess.CarriageReturn | kernel/coreutils/cat.c:474-483 | A carriage return before a newline is shown, before the sentinel it is held back. |
| Cat.CatProcess.FindText | kernel/coreutils/cat.c:247-388 | The inner loop tells sentinel from newline, refills and flushes, and stops at text or at the end with all output written. |
| Cat.CatProcess.TextToNewline | kernel/coreutils/cat.c:392-495 | Text up to the next newline or sentinel; each byte adds at most four and the buffer is never passed. |
| Cat.CatProcess.CatFile | kernel/coreutils/cat.c:211-497 | For one file in any reads: written plus what later files add is what was promised; all indices stay inside the allocated buffers. |
| Cat.CatProcess.CatFiles | kernel/coreutils/cat.c:643-796 | The output over all files depends only on the concatenated bytes and the flags, and is the documented one. |
| Cat.TenDigitsIff | kernel/coreutils/cat.c:746-770 | A count has at most ten digits if and only if it is at most 9999999999; the buffer bound counts on ten. |
| Cat.CatProcess.NewlineAndText | kernel/coreutils/cat.c:337-495 | From a newline to the end of the block nothing is written: the buffer gains exactly the output specified for those bytes. |
| Cat.WorstBlockFits | kernel/coreutils/cat.c:746-770 | With the buffer as full as the flush leaves it, a numbered blank line and a line of bytes shown as four each fit if and only if their numbers end within ten digits: at 9999999999 they fill the buffer to the last byte, and one line later they are one byte too long. |
| LsTraversal.Lister.PrintDir | kernel/coreutils/ls.c:2984-3028 | Listing a pending directory pushes it as active and queues its subdirectories before a marker; output so far plus what is pending is preserved, and the work left falls. |
| LsTraversal.Lister.ExtractDirs | kernel/coreutils/ls.c:3747-3775 | A marker, then the subdirectories last one first, so that they come off in order. |
| LsTraversal.Lister.PopMarker | kernel/coreutils/ls.c:1804-1818 | The entry a marker pops is that of the directory the marker was queued for (what assert_matching_dev_ino would check), and it is in the active set. |
| LsTraversal.Lister.Run | kernel/coreutils/ls.c:1797-1826 | On every finite graph, cyclic or not, the loop ends with stack and set empty and prints what the recursive traversal does. |
| LsTraversal.SubdirsFirst | kernel/coreutils/ls.c:3759-3775 | Pending subdirectories stand for visiting them in order, at the cost counted for them, and bring no marker. |
| LsTraversal.RootsInTurn | kernel/coreutils/ls.c:1797-1826 | Command-line directories are visited one after the other with nothing active before each. |
| LsTraversal.List | kernel/coreutils/ls.c:1797-1826 | The whole program on given roots prints the concatenation of their visits. |
| LsTraversal.VisitInOrder | kernel/coreutils/ls.c:3016-3028 | A visit reports every route of entries that are directories other than . and .., through directories that can be opened and are not active, exactly once: a directory before what is in it, entries in their order. |
| LsTraversal.ListedIsReached | kernel/coreutils/ls.c:3747-3775 | Every listing has a path made of the starting path and names that lead, entry by entry, to the directory listed. |
| LsTraversal.ReachableIsListed | kernel/coreutils/ls.c:3016-3028 | Every directory that a walk of entries reaches, each a directory other than . and .., through directories that can be opened, is listed, whatever the loops. |
| LsTraversal.NeverInsideItself | kernel/coreutils/ls.c:3016-3025 | No directory is listed while it is active, that is, inside itself. |
| LsColumns.ColumnInRange | kernel/coreutils/ls.c:5399-5401 | The column index stays inside its slice of the triangle, down and across. |
| LsColumns.SlotsClosed | kernel/coreutils/ls.c:5343-5350 | The triangle formula counts exactly the cells of the new rows. |
| LsColumns.Layout.Grow | kernel/coreutils/ls.c:5343-5359 | The cells just allocated are parcelled out so that no two rows share a cell and none passes the block. |
| LsColumns.Layout.InitColumnInfo | kernel/coreutils/ls.c:5309-5371 | Every layout starts valid with all columns at the minimum width. |
| LsColumns.Layout.Account | kernel/coreutils/ls.c:5397-5412 | Counting a file keeps: while valid, the widths are the widest needs so far and the line length is their sum; once invalid, the layout is too wide for good. |
| LsColumns.Layout.CalculateColumns | kernel/coreutils/ls.c:5376-5424 | The largest acceptable number of columns is returned, or one, and its widths are the widest need of each column and at least 3. |
| LsColumns.WidthsStep | kernel/coreutils/ls.c:5399-5411 | One more file widens at most its own column, and the total by the difference. |
| LsColumns.WidthAttained | kernel/coreutils/ls.c:5397-5412 | A column wider than 3 is just as wide as one of its files needs, two columns of space included but in the last column. |
| LsColumns.PrintManyPerLine | kernel/coreutils/ls.c:5146-5180 | Row r holds files r, r + rows, and so on, each at the sum of the widths before it. |
| LsColumns.Layout.PrintFiles | kernel/coreutils/ls.c:5146-5180 | Printed with the widths that the layout chose: every file is in exactly one place, names end two columns before the next, and every row ends before the line length when the layout fits. |
| LsColumns.EachFileOnce | kernel/coreutils/ls.c:5146-5180 | Every file is printed, in exactly one place. |
| LsColumns.NoOverlap | kernel/coreutils/ls.c:5146-5180 | With the widths chosen a file ends at least two columns before the next one in its row, and inside the total. |
| LsColumns.Indent | kernel/coreutils/ls.c:5264-5280 | Tabs and spaces bring the cursor exactly to the target column for any tab size. |
| LsColors.DecodeFits | kernel/coreutils/ls.c:2499-2692 | A decoded string is no longer than what spells it; on success it ends at a terminator. |
| LsColors.SpelledDecodes | kernel/coreutils/ls.c:2499-2692 | Any bytes at all, escaped and followed by a terminator, decode to themselves. |
| LsColors.SpelledOtherwise | kernel/coreutils/ls.c:2556-2677 | Any byte as three octal digits or two hexadecimal ones, a control byte after a caret, and the ten named escapes are each one token for that byte, unless a further digit follows a number. |
| LsColors.CaretDeleteLeavesQuestion | kernel/coreutils/ls.c:2673-2677 | ^? does not skip its question mark: the result is longer by one for each ^? met, and as meant if and only if there is none. |
| LsColors.CaretDeleteDecoded | kernel/coreutils/ls.c:2673-2677 | The input ^? itself decodes to the delete character and a question mark, and is meant as the delete character. |
| LsColors.LowKept | kernel/coreutils/ls.c:2625-2647 | Truncating to a byte at each digit gives the low byte of the whole octal or hexadecimal number. |
| LsColors.WrittenParses | kernel/coreutils/ls.c:2752-2847 | Any list of definitions, written out, parses back to itself. |
| LsColors.WriteThenParse | kernel/coreutils/ls.c:2752-2856 | The parser run on written definitions keeps colours on and records every one of them. |
| LsColors.Parser.Turn | kernel/coreutils/ls.c:2517-2685 | One turn of the inner machine advances or falls in rank, and writes a character exactly when a token is complete. |
| LsColors.Parser.GetFunkyString | kernel/coreutils/ls.c:2499-2692 | The state machine decodes token by token, reports the number of bytes written, and writes no more than it consumes. |
| LsColors.Parser.ParseLsColor | kernel/coreutils/ls.c:2752-2856 | Colours stay on exactly when every definition is well formed; then list and indicators hold every definition, newest first and last one winning, and the bytes fit the copy of the string. |
| LsColors.WritingKeeps | kernel/coreutils/ls.c:2752-2838 | Writing further bytes keeps every recorded string. |
| Sgr.ParseParams | kernel/fb.c:216-223 | The scan yields the values of the semicolon-separated fields up to the m, at most 16, or a single zero. |
| Sgr.Attributes | kernel/fb.c:224-248 | The attribute loop yields the inks that the parameters ask for. |
| Sgr.WriteNumber | kernel/fb.c:301-303 | The digit loop writes the decimal numeral. |
| Sgr.DecimalReads | kernel/fb.c:216-220 | Reading a decimal numeral as a field gives the number back. |
| Sgr.ParamsRead | kernel/fb.c:216-223 | Up to 16 parameters written with semicolons between are read back as they were. |
| Sgr.IndexedColour | kernel/fb.c:235-241 | 38;5;n and 48;5;n ask for colour n of 256, for the text and behind it. |
| Sgr.BasicColour | kernel/fb.c:227-233 | 30 to 37, 40 to 47, 90 to 97 and 100 to 107 ask for the first 16 colours of 256; a 1 before makes them bright, and a 22 takes that back. |
| Sgr.XtermPalette | kernel/fb.c:26-36 | Colours 16 to 231 are the cube of the levels 0, 95, 135, 175, 215 and 255; from 232 on they are greys in steps of 10. |
| Sgr.PureRed | kernel/shell.c:378 | The demonstration sequence 38;5;196 asks for pure red. |
| Sgr.PrinterAndParserAgree | kernel/fb.c:201-254 | The sequence rgb_print writes parses to exactly one truecolour ink with its r, g, b, for the foreground and for the background. |
| Sgr.ZeroResets | kernel/fb.c:223-227 | The closing sequence resets both colours. |
| Framebuffer.FeedValid | kernel/fb.c:201-281 | Any bytes at all keep the cursor on the screen and the escape buffer within 31. |
| Framebuffer.FeedColours | kernel/fb.c:204-254 | A whole colour sequence sets the inks and does nothing else. |
| Framebuffer.PackBytes | kernel/fb.c:235-246 | A colour packed has red, green and blue in its three bytes. |
| Framebuffer.RgbPrintDraws | kernel/fb.c:300-306 | Any text without ESC is drawn in rgb(r,g,b) on the old background, character by character, and the default colours are left. |
| Framebuffer.RgbPrintBgDraws | kernel/fb.c:307-316 | The same with both colours given. |
| FbPixels.Console.DrawChar | kernel/fb.c:148-160 | The pixels of one 8 by 8 block take the glyph's colours and no other pixel changes. |
| FbPixels.Console.Scroll | kernel/fb.c:161-181 | Every pixel row moves up by one text row and the rest takes the background. |
| FbPixels.Console.Putchar | kernel/fb.c:201-281 | One byte changes state and pixels as the specification says; every pixel always has the colour the log leaves on it. |
| FbPixels.Console.RgbPrint | kernel/fb.c:300-306 | The bytes written are the specified sequence, and the text is drawn in its colour. |
| FbPixels.Console.RgbPrintBg | kernel/fb.c:307-316 | The same for the printer with two colours. |
| FbScroll.ShowsStep | kernel/fb.c:201-281 | One character keeps the pixel terminal and an unbounded page together: where it is drawn, how the cursor moves, and when the screen scrolls. |
| FbScroll.ScreenIsEndOfPage | kernel/fb.c:201-281 | From a fresh terminal of any size, after any text without escapes and backspaces, the character cells show the last rows of the page, in the colours set. |
| FbScroll.ErasedIsEndOfPage | kernel/fb.c:208-281 | The same after the sequence that erases the screen. |
| FbScroll.PixelOfCell | kernel/fb.c:148-181 | What the pixels hold is what the glyphs of the character cells make of them. |
| FbScroll.WriteOn | kernel/fb.c:148-281 | A console set up and written to: every pixel of the text area has the colour that the glyph on the page gives it. |
| FbScroll.ErasesLine | kernel/fb.c:207 | Erasing to the end of the line blanks the cells from the cursor on and no other. |
| FbScroll.TypeThenRub | kernel/fb.c:265-281 | A character and a backspace leave a blank cell and the cursor where it was. |
| FbScroll.DrawOver | kernel/fb.c:210-281 | After a cursor left the next character takes the place of the one before. |
| FbScroll.HomeFirst | kernel/fb.c:209-281 | After a home sequence the next character is the first of the screen. |
| FbScroll.LeftThenRight | kernel/fb.c:210-211 | Cursor left and right undo each other. |
| TextScreen.NearestExact | kernel/main.c:71-82 | A palette colour is nearest to itself. |
| TextScreen.DistIs | kernel/main.c:76-78 | The distance of two colours is the sum of the squares of their differences in red, green and blue. |
| TextScreen.Best | kernel/main.c:71-82 | The first palette entry of least squared distance. |
| TextScreen.PutValid | kernel/main.c:108-221 | Any byte keeps the cursor, colours and escape length of the text screen in range. |
| Vga.Display.NearestColour | kernel/main.c:71-82 | The search loop finds that entry. |
| Vga.Display.Clear | kernel/main.c:90-105 | Blanks, white on black, and the cursor at the top left. |
| Vga.Display.Putchar | kernel/main.c:108-221 | One byte changes the text buffer and cursor as the value model says: escapes, tabs, rubout, wrapping and scrolling. |
| Vga.Display.LineFeed | kernel/main.c:171-181 | The next row, or the buffer one row up with a blank last row. |
| Scrollback.ShowsStep | kernel/main.c:166-221 | One character keeps screen and unbounded page together. |
| Scrollback.ScreenIsEndOfPage | kernel/main.c:108-221 | From a cleared screen, after any text without escapes or rubouts, the screen shows the last 25 rows of the page in the colours set. |
| Scrollback.ErasedIsEndOfPage | kernel/main.c:120-221 | The same after the sequence that erases the screen. |
| Scrollback.TypeThenRub | kernel/main.c:198-221 | A character and a rubout blank its cell and leave the cursor where it was, also over the end of a row, if and only if the character did not make the screen scroll. |
| Pages.PageOfText | kernel/main.c:171-219 | For text of lines, that page is each line wrapped at the width of the screen, with a fresh row after every full one. |
| LineEdit.PressOk | kernel/shell.c:709-943 | Every key keeps the line within 127 characters and the history position on an entry still stored; while browsing, a saved line is there. |
| LineEdit.UpsThenDowns | kernel/shell.c:720-752 | From the line being typed, k Ups then k Downs bring its text back, for every k. |
| LineEdit.EraseWordTakes | kernel/shell.c:804-812 | What ^W removes is one run of spaces and before it one run without, and at least one character. |
| LineEdit.CommonLongest | kernel/shell.c:888-901 | What completion types is in every match, and no match agrees on one character more. |
| LineEdit.NoRepetition | kernel/shell.c:48-57 | The recorded history has no blank entry and no entry twice in a row. |
| LineEdit.TypeThenRub | kernel/shell.c:834-942 | A typed character rubbed out, or stepped over and deleted, leaves the line and cursor as before. |
| LineEdit.TypedIn | kernel/shell.c:935-942 | Any text typed character by character goes in at the cursor, as long as the line has room for it. |
| LineEdit.TypedAndEntered | kernel/shell.c:921-942 | Typed at a fresh prompt and entered, a line is recorded without the spaces around it, once if it repeats the last, and the first Up brings it back. |
| LineEdit.EditsText | kernel/shell.c:753-841 | What the moving and cutting keys do to the line as one string with a cursor in it. |
| LineEdit.CompletedOne | kernel/shell.c:873-886 | A single match stands in place of the part typed of it, with one space after it. |
| LineEdit.TrimmedTakes | kernel/shell.c:35-39 | Trimming takes the spaces at both ends and nothing else. |
| LineEdit.LeftThenRight | kernel/shell.c:753-760 | Left and right undo each other. |
| LineScreen.RefreshShows | kernel/shell.c:82-89 | Whatever the row held, refresh_line leaves prompt and line in it with the cursor in place, and no other row changes. |
| LineScreen.KeyKeepsLine | kernel/shell.c:709-943 | While prompt and line fit in 79 columns, after any key the cursor row shows prompt and line with the cursor at 9 plus its position. |
| LineScreen.RunKeepsLine | kernel/shell.c:709-943 | The same over any run of keys. |
| LineScreen.PaletteInk | kernel/main.c:133-158 | A palette colour asked for by number is the colour set, for the text all 16 and behind it the 8 dark ones. |
| LineScreen.LeftThenRight | kernel/main.c:123-124 | Cursor left and right undo each other, over the end of a row too. |
| LineScreen.HomeFirst | kernel/main.c:122-221 | After a home sequence the next character is the first of the screen, in the colours set. |
| Shell.LineEditor.HistoryAdd | kernel/shell.c:48-57 | The ring of 32 holds the last entries of the unbounded list, which grows unless the line is empty or repeated. |
| Shell.LineEditor.Trim | kernel/shell.c:35-39 | Spaces at both ends go. |
| Shell.LineEditor.OnType | kernel/shell.c:935-942 | Insertion at the cursor, refused at 127 characters. |
| Shell.LineEditor.OnCutWord | kernel/shell.c:804-813 | The shifting loop removes the word before the cursor. |
| Shell.LineEditor.OnCutStart | kernel/shell.c:796-803 | Everything before the cursor goes; with the cursor at the start, the whole line. |
| Shell.LineEditor.OnOlder | kernel/shell.c:720-734 | Up loads the entry before, saving the typed line first. |
| Shell.LineEditor.OnNewer | kernel/shell.c:735-752 | Down loads the entry after, or the saved line. |
| Shell.LineEditor.OnTab | kernel/shell.c:873-918 | One match is filled in with a space after it, several as far as they agree and fit. |
| Shell.LineEditor.OnKey | kernel/shell.c:709-943 | Every key changes the buffer as the zipper says and writes the stated bytes. |
| Shell.LineEditor.OnKeys | kernel/shell.c:709-943 | So does every run of keys. |
| Shell.LineEditor.OnEnter | kernel/shell.c:921-933 | Enter records the trimmed line, leaves the browsing position at the end and an empty line after the prompt. |
| Shell.LineEditor.OnInterrupt | kernel/shell.c:819-833 | An interrupt drops the line and leaves the browsing position at the end; history and saved line stay. |
| FileTable.TableReplaced | kernel/initrd.c:38-43 | Giving an entry a new block keeps the table standing for the updated map, with one owner for each block. |
| FileTable.TableAppended | kernel/initrd.c:47-57 | Appending an entry extends the map and what is owned by one. |
| FileTable.TableRemoved | kernel/initrd.c:64-72 | Dropping an entry takes one name from the map and its block, if any, from what is owned. |
| FileTable.OwnedLive | kernel/initrd.c:25-76 | Every block an entry owns is in use. |
| FileTable.SlashStripped | kernel/vfs.c:30-48 | A path with a slash in front names the same file as the path without. |
| FileStore.CopyIn | kernel/initrd.c:31-33 | A block of its own for the bytes; fails exactly when the heap has no room, and touches no other live block. |
| FileStore.Initrd.Save | kernel/initrd.c:25-58 | The map gains or replaces one name. The old block is freed once, other blocks in use stay as they are, and failure changes nothing. |
| FileStore.Initrd.Remove | kernel/initrd.c:59-76 | The map loses the name, and the entry's block, unless compiled in, is freed once. |
| Vfs.Descriptors.Open | kernel/vfs.c:30-48 | The lowest free descriptor from 3 on, set to the start of the named file; fails exactly when there is no such name or no descriptor. |
| Vfs.Descriptors.Close | kernel/vfs.c:49-54 | Frees a used descriptor from 3 on, and no other. |
| Vfs.Descriptors.Read | kernel/vfs.c:55-65 | Returns the next bytes, as many as asked for and left, and moves past them, when offset plus length is below 2^64 or nothing is left. |
| Vfs.ReadFits | kernel/vfs.c:59-61 | The number of bytes taken is the lesser of those asked for and left if and only if offset plus length is below 2^64; otherwise the full length is taken, past the end of the file. |
| Vfs.ReadPastEnd | kernel/vfs.c:59-61 | An input that does so: offset 1 in ten bytes with length 2^64 - 1. |
| Vfs.Descriptors.Save | kernel/vfs.c:84-86 | As the table; descriptors of other files go on reading the same bytes. |
| Vfs.Descriptors.Remove | kernel/vfs.c:87-89 | The same for removal. |
| Vfs.Descriptors.Readdir | kernel/vfs.c:74-77 | Every index below the count names a stored file, and no other index does. |
| Vfs.Descriptors.RoundTrip | kernel/vfs.c:30-86 | Saved under one form of a path and opened under the same or the other, with or without the slash, a file read in pieces whose offsets plus lengths stay below 2^64 gives the saved bytes, as far as the lengths reach. |
| Editor.CutTakesOneLine | kernel/editor.c:81-86 | ^K takes the cursor's line out of the list of lines, and touches no other. |
| Editor.CutCursor | kernel/editor.c:86 | The cursor ends at the start of the line that moved up if and only if it was at the start of the line cut or that was the last line. |
| Editor.TypeThenRub | kernel/editor.c:88-95 | A character typed and rubbed out leaves text and cursor as before. |
| Editor.TypedIn | kernel/editor.c:90-96 | Any bytes typed one after the other go in at the cursor, as long as there is room. |
| Editor.TypedBefore | kernel/editor.c:53-60 | After a left the next byte goes before the one just typed, and a right then passes it. |
| Editor.PressOk | kernel/editor.c:53-96 | Every key keeps the cursor in the text and the text in the buffer. |
| Editor.TextEditor.OnKey | kernel/editor.c:53-96 | The shifting loops do what the value model says, and an unmodified text is always the one last loaded or saved. |
| Editor.TextEditor.constructor | kernel/editor.c:29-36 | The text is the first 8191 bytes of the file, or empty if it cannot be opened. |
| Editor.TextEditor.Save | kernel/editor.c:74-80 | What is saved is what is shown, and loading it again shows it again; a failed save changes nothing. |
| Editor.OpenThenSave | kernel/editor.c:29-80 | A file opened and saved at once is unchanged if and only if it has at most 8191 bytes; a longer one is cut to its first 8191. |

## Left out

Contracts that ask or state less than one might expect:

- Vmm.AddressSpace.UnmapPage: in a huge page the walk goes through data, which may lie outside the memory modelled; there reads give zero and stores are lost.
- Vmm.AddressSpace.Run: counts the functions of `vmm.c` only; what other code stores through the huge pages is not part of the runs.
- Vmm.AddressSpace.MapPage: does not model `invlpg`; translations are those of the tables.
- Loader.MapWindow: asks that the window does not end in the last 2 MiB of the 64-bit space, where the loop variable would wrap and the loop not end.
- Loader.BuildTables: asks the same.
- Loader.Boot: asks the same.
- Heap.KernelHeap.Kcalloc: asks that the wrapped product is at most 2^64 - 16, so that rounding does not wrap and clearing stays in the block.
- Heap.KernelHeap.Krealloc: asks the same of the new size.
- Heap.KernelHeap.Kfree: asks for null or a live pointer; what a wild pointer does to memory is not modelled, nor is the magic check that guards against some of them.
- Process.Scheduler.TaskCreate: says nothing of what runs after a linked slot was reused; the runs of `RoundRobin` are those in which every slot chosen was off the list.
- Process.Scheduler.Schedule: is modelled from process_init on, when there is a current slot.
- Heap.KernelHeap.KmallocAll: asks for requests of 1 to 2^64 - 16 bytes, as the rounding of others gives none or wraps.
- RoundRobin.NoStarvation: counts calls of schedule, not timer ticks.
- Context.Resumes: asks for disjoint stacks, room for a frame at each switch, and that the suspended task's own slot is not created anew meanwhile; addresses count 8-byte words.
- Cat.CatProcess.CatFiles: asks for line numbers of at most ten digits, as long as the buffer bound holds; read errors and write errors are not modelled.
- Cat.LineCounter.NextLineNum: says of the 19th digit only that the overflow mark appears.
- LsTraversal.Lister.Run: models a directory that cannot be opened by one event; the listing of files within a directory, sorting and `dired` output are not part of it.
- LsColumns.PrintManyPerLine: takes any column widths (`LsColumns.Layout.PrintFiles` gives it those of the layout); names and their lengths are numbers. `print_horizontal` is not modelled.
- LsColors.Parser.ParseLsColor: starts from a string that is set and ends before the pass over lines 2866-2907 that marks shadowed extensions, and before the check for `target`.
- Sgr.ParseParams: lets parameters grow without bound where the source would overflow a signed int.
- FbPixels.Console.Scroll: models 32-bit pixels without padding beyond the width; the font is a parameter.
- LineScreen.KeyKeepsLine: asks that prompt and line fit in 79 columns before and after; beyond that the row wraps. The clear-screen key and a Tab that lists its matches are not among the keys.
- LineScreen.RunKeepsLine: the same.
- Shell.LineEditor.OnKey: leaves out the clear-screen key and the Tab that lists its matches.
- Shell.LineEditor.OnKeys: the same.
- Shell.LineEditor.OnTab: takes the matches as a parameter and leaves out the second press that lists them.
- Shell.LineEditor.OnEnter: takes what the command prints as a parameter.
- Shell.LineEditor.OnInterrupt: leaves out the slots it stops; what it says is a parameter.
- FileStore.Initrd.Save: asks for names of 1 to 31 characters after the slash, because longer ones are cut when stored, and for sizes whose rounding does not wrap.
- Vfs.Descriptors.Read: asks that the file was not saved or removed since the descriptor was opened, because the descriptor copies the data pointer, and that offset plus length does not wrap while bytes are left (`Vfs.ReadFits` says what is taken when it does).
- Vfs.Descriptors.RoundTrip: asks the same of every length.
- Vfs.Descriptors.Save: asks for the same names and sizes as `FileStore.Initrd.Save`.
- Editor.TextEditor.Save: asks for a name that can be stored; the buffer is an array of its own rather than a block of the heap.

What is not modelled:

- Port I/O, serial line, interrupt controller, timer, interrupt gates, keyboard decoding, disk reads and boot assembly other than the context switch: hardware plumbing.
- TLB flushes and interrupts that arrive inside a function.
- `kernel/syscall.c`: writing is feeding bytes to the terminal, and file calls are those of the vfs.
- `dispatch`, command texts, aliases and the clear-screen key of `kernel/shell.c`.
- `kernel/coreutils_port.c`, `user/sh.c`, `fat.c`, `net.c`, `module.c`, `tty.c`, `elf.c` and the font table.
- `sudo.c`, `sudo_exec.c`, `touch.c`, and the stat, locale, quoting, SELinux and time parts of `ls.c`.
- The `-u`, `simple_cat` and `copy_file_range` paths of `cat.c`, which copy bytes unchanged.
- 24-bit and 16-bit pixel formats and the drawing of rectangles in `fb.c`.
