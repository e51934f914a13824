# A verified model of the kernel's memory, process and printing code

This project models the memory stack, the paging code, the process scheduler, the ELF loader, the tar reader and
the number printer of the kernel, and proves what they promise. It is written for the i686 build: 32-bit words,
`sizeof(Bucket)` = 20, `sizeof(long double)` = 12, 4096-byte pages.

Almost everything lives in one byte-addressed memory (`array<byte>`, module `Memory`). Bucket headers, bitmap
bytes, user blocks, the frame bitmap, page directories, page tables, process records and interrupt frames are
bytes of that one array, so every statement that two things do not disturb each other is a statement about
addresses. Kernel pointers are physical addresses plus 0xC0000000 (the direct map).

| modules | content |
|---|---|
| `Memory`, `Bitmaps`, `Frames` | the byte loops, the byte-level bitmap, the frame allocator |
| `Layout`, `Buckets`, `Heaps`, `Kmallocs`, `HeapRuns` | layout arithmetic, the bucket list, what each heap step keeps, `kmalloc`, whole runs |
| `Paging`, `Spaces`, `Loader`, `Elves` | the two-level walk, `map_page` and `copy` with the sharing invariant, `Elf32::load`, and a writer of ELF images |
| `Scheduler` | the round-robin scheduler as a machine, and its runs |
| `Machines`, `Records`, `Creation`, `Joining`, `Processes`, `Isolation` | heap, address spaces and process list in one memory; `Process` refines `Scheduler` |
| `SystemRuns`, `Traces`, `Starts` | whole runs of the system: creations, interrupts, and stores by the running process; what they promise about their traces; a machine they can start on, and one such run |
| `Tars`, `TarLists` | the archive format, a writer and what the reader finds; `parse_tar` on the kernel heap |
| `Serials` | the number printer against a parser |

## How the pieces fit

*Heap.* `HeapOk` says that the bucket list is acyclic, each bucket owns a distinct frame the frame allocator holds
used, and the live pointers are exactly the slots whose bit is set. Each operation of `Kmalloc` keeps it and states
the new contents of all live blocks as a map. A `Moment` is the memory, the list and the live blocks, and predicates
such as `MallocDone` and `FreeDone` say what a call does from one moment to the next. From class 4096 on a bucket still
gets a single frame; `SizeOf` is the part of a block that lies in it, at least 4064 bytes, and the theorems hold for
that part.

`HeapRuns.Run` takes any sequence of requests and of stores to any offset of a block. At every moment of it the heap is
well formed, and each block the client holds has the size asked for (or 4064 bytes of it) and every byte the client
stored; a request within the limits has exactly the effect of its call, and any other changes nothing.

Three quantities of the source look wrong and cancel: the bitmap stores its size in bytes and uses it as a bound on bits
(`SetFirstFree`), `bitmap_offset` reserves an eighth of that (`Reserved`), and `free` adds it in a numerator
(`FreeIndex`). `FreeIndexExactlyWhen` shows that they cancel in every class but 16, where `free` clears the bit two
slots on; `FreeExactlyWhen` shows what this does to the heap.

*Start.* `Machines.FreshMachine` builds, for every size, a memory that meets the assumptions the theorems start from.
`Starts.Boot` goes on from there, with the modelled code, to a system with the image of any runnable program in its heap,
on which runs can start (`CanRun`), and `Starts.RunTwo` runs two processes made from that image. `SampleIsRunnable` gives
a program that is.

*Paging.* Directories share tables after `copy`. The invariant `PagingOk` therefore allows a table to be reached
from several directories, but only at one index. `MapPage` states which directories see a change (those that met
at that entry), at exactly which page, and that nothing else moves. The processor's walk itself is stated on the words
of memory (`WalkIsTwoLevels`). The pages of a process are open to user code on both levels (`SpaceOk`).

*Images.* `Elves` writes ELF executables from an entry point and a list of segments of any types, at the literal offsets
of the specification. `LoadWritten` says what `Elf32::load` makes of such an image, in terms of the list alone.

*Processes.* `Processes.System` is the memory with its process list. `Abs` maps it to the machine of `Scheduler`,
and each method does the machine's step. `SystemRuns.Drive` strings the steps together: from one condition on the
start it runs any sequence of creations, interrupts and stores by the running process. `Followed` says that at every
moment the records hold what `Scheduler.Run` gives on the events so far, so the theorems about its runs are theorems
about the memory; that each process has exactly the pages its image asks for (and the second page of its stack if that
is its own), with the image's bytes and its own stores in them; and that each action changed the memories of the processes (`AllMemories`: all that they read in their pages)
as it should and in no other way. `StacksDiffer` and `FramesDiffer` draw from it that no two pages of processes are
ever backed by the same frame. No translation ever changes. `Traces` draws laws about the trace from it: an interrupt
before scheduling is enabled returns to what it interrupted, no store of a process happens while the kernel's directory
is active, what a process pushes first is stored on its own stack, and a process made from a written image starts at the
entry point written with the data of its PT_LOAD segments and no page but theirs and its stack's.

*Tar.* `Tars` says what the reader finds in an archive, against a writer. `TarLists.ParseTar` puts that into blocks of
the kernel heap. `ReadArchive` joins the two: files of up to 4064 bytes all come back exactly when no header has a zero
byte at its file's number. `ReadLostFiles` runs the reader on any archive of a larger file and a second one, and shows
which data is lost.

## Where the code differs from what one expects

- `compute_power` never ends for a request above 2 GiB (`ComputePowerStopsExactlyWhen`).
- `free` on a block of class 16 leaves the block marked and gives back the block two slots on, or nothing from slot 30
  on (`FreeExactlyWhen`); then the bit cleared may be one of the data of slot 0 (`SixteenFreed`).
- `allocate_bucket` never reports failure: `P2V` of a null frame is not null, and the bucket is written into frame 0
  (`AllocateBucket`).
- `calloc` forms the product in 64 bits and passes it on in 32 (`CallocHoldsExactlyWhen`).
- A bucket with no live block stays on the list when user data lies in the bytes `is_empty` reads; it remains usable
  (`KeptBucketServes`). `LooksLastExactlyWhen` says exactly when a bucket goes, and `LastBlockLeavesBucket` runs into one
  that stays.
- `set_used` and `set_unused` miss a frame for some regions (`MarkedExactlyWhen`), and never add one (`MarkedAreTouched`).
- The first process resumes with the registers of the interrupted kernel, not with those it was built with
  (`HeadStartsAsInterrupted`).
- The tar reader tests byte number i of header number i, so a short name late in the archive ends it early, and no
  archive of more than 135 files is read to its end (`RoundTripExactlyWhen`).
- The blocks for files of more than 2048 bytes are one frame long at most, and the next bucket may be built over the
  rest of the data (`ReadLostFiles`).
- The second page of the user stack is the frame after the first, whoever has it; it is the process's own kernel stack
  if that frame was free (`SecondPageIsNextFrame`).
- `print_hex` does not end when asked for 256 digits or more (`PrintHexStopsExactlyWhen`).

## Model

| member | source | states |
|---|---|---|
| Memory.P2VInvertsV2P | src/includes/utils.hpp:11-12 | the masks undo each other exactly below 0x40000000, resp. from 0xC0000000 up; below 1 GiB P2V adds 0xC0000000; P2V is never null |
| Memory.Memset | src/utils/string.cpp:15-21 | the region holds the value, no other byte changes |
| Memory.Memcpy | src/utils/string.cpp:6-13 | each destination byte is the source byte the forward loop brings there for any overlap; no other byte changes |
| Memory.MemcpyMovesExactlyWhen | src/utils/string.cpp:6-13 | the forward loop moves every byte to its place if and only if dst <= src or the ranges are disjoint |
| Memory.Memmove | src/utils/string.cpp:23-39 | for every overlap the destination holds the old source, and no other byte changes |
| Memory.Memcmp | src/utils/string.cpp:52-69 | 0 exactly for equal bytes, else the order of the first bytes that differ |
| Bitmaps.OrBitDigits | src/utils/bitmap.cpp:57 | or-ing in a shifted 1 sets that binary digit and no other |
| Bitmaps.AndNotBitDigits | src/utils/bitmap.cpp:69 | masking a shifted 1 out clears that binary digit and no other |
| Bitmaps.Bitmap.GetBit | src/utils/bitmap.cpp:38-47 | membership in the set the bytes stand for; false out of range |
| Bitmaps.Bitmap.SetBit | src/utils/bitmap.cpp:49-59 | adds exactly that index; out of range it changes nothing and says so |
| Bitmaps.Bitmap.ClearBit | src/utils/bitmap.cpp:61-71 | removes exactly that index; out of range it changes nothing and says so |
| Bitmaps.Bitmap.SetFirstFree | src/utils/bitmap.cpp:19-27 | adds the least absent index below the length in bytes, or returns -1 and changes nothing exactly when there is none |
| Bitmaps.Bitmap.IsEmpty | src/utils/bitmap.cpp:29-36 | true exactly when the set is empty |
| Frames.PMM.SetUsed | src/pmm/pmm.cpp:95-102 | marks exactly the frames the region loop visits, as far as the bitmap reaches |
| Frames.PMM.SetUnused | src/pmm/pmm.cpp:104-111 | releases exactly the frames the region loop visits |
| Frames.MarkedExactlyWhen | src/pmm/pmm.cpp:95-111 | the visited frames are those the region touches if and only if the rounding does not wrap and the offset in the first page does not spill into one more |
| Frames.MarkedAreTouched | src/pmm/pmm.cpp:95-111 | no frame is visited that the region does not touch |
| Frames.PMM.AllocateFrame | src/pmm/pmm.cpp:113-121 | the least frame from 1 up that is not used, marked, one free frame less and one taken more; null exactly when all are used |
| Frames.PMM.FreeFrame | src/pmm/pmm.cpp:123-130 | releases exactly the frame behind the pointer, one free frame more and one taken less; null and foreign frames are ignored |
| Frames.PMM.FramesConserved | src/pmm/pmm.cpp:113-130 | taking and releasing a frame move exactly one between free and taken; their sum never changes |
| Frames.PMM.FreeNamesFrame | src/pmm/pmm.cpp:126 | free_frame(P2V(a)) names frame a/4096 exactly for addresses below 1 GiB |
| Layout.ComputePower | src/vmm/kmalloc_utils.cpp:5-13 | the least power of two that is at least 16 and at least the request |
| Layout.ComputePowerStopsExactlyWhen | src/vmm/kmalloc_utils.cpp:5-13 | the 32-bit doubling loop ends if and only if the request is at most 2 GiB |
| Layout.AlignIsLeastMultiple | src/vmm/kmalloc_utils.cpp:15-31 | align gives the least multiple not below its argument if and only if that is a 32-bit number, and less than the argument otherwise |
| Layout.CapIsFreshBitmapSize | src/vmm/bucket.cpp:26-32 | the bitmap size a new bucket gets, for each of the 28 classes |
| Layout.SlotInFrame | src/vmm/kmalloc_utils.cpp:33-47 | a slot starts in the bucket's frame behind header and reserved bytes, and page_begin finds the bucket; small blocks lie in it as a whole, larger ones with at least 4064 bytes |
| Layout.SlotIsAligned | src/vmm/kmalloc_utils.cpp:33-37 | slot 0 is at the least multiple of 12 not below the 20 bytes of the header and the reserved bytes; the others follow at distances of the class |
| Layout.LeastRoom | src/vmm/bucket.cpp:12-15 | of a block of 4064 bytes or more at least 4064 lie in the bucket's frame, and of some no more |
| Layout.SlotsDisjoint | src/vmm/kmalloc_utils.cpp:33-37 | slots of one bucket do not overlap |
| Layout.FreeIndexExactlyWhen | src/vmm/kmalloc.cpp:60-61 | the division finds the slot malloc chose if and only if the class is above 16; in class 16 it is two too high |
| Layout.BlockFitsExactlyWhen | src/vmm/bucket.cpp:12-15 | a block fits the single frame its bucket gets if and only if its class is at most 2048 |
| Buckets.AllocateBucket | src/vmm/bucket.cpp:10-36 | for every class a bucket with the five header words set and no slot taken, in the least free frame, or over frame 0 when none is free: never a failure |
| Buckets.PushBucket | src/vmm/bucket.cpp:38-50 | the fresh bucket heads the list, every other bucket keeps its state |
| Buckets.RemoveBucket | src/vmm/bucket.cpp:58-80 | exactly that bucket leaves, the order of the rest stays, exactly its frame is released |
| Buckets.FreeBucket | src/vmm/bucket.cpp:52-56 | releases exactly the bucket's frame |
| Heaps.BlockInFrame | src/vmm/kmalloc_utils.cpp:33-37 | a live block lies in its bucket's frame as far as its size goes, off the header and off the bitmap bytes that count |
| Heaps.BlocksDisjoint | src/vmm/kmalloc.cpp:10-43 | live blocks are pairwise disjoint |
| Heaps.FreeFindsSlot | src/vmm/kmalloc.cpp:52-63 | for a live block above class 16 free finds its bucket and its slot |
| Heaps.FreeExactlyWhen | src/vmm/kmalloc.cpp:60-63 | clearing the bit free computes gives back that block and only it if and only if its class is above 16; in class 16 it gives back the block two slots on, or none from slot 30 on |
| Heaps.KeptBucketServes | src/vmm/kmalloc.cpp:63-67 | a bucket kept without live blocks has all its slots free |
| Heaps.LooksLastExactlyWhen | src/vmm/kmalloc.cpp:63-67 | the bitmap reads empty after free if and only if no other block of the bucket is live and the bytes shared with the blocks are zero |
| Heaps.TakeStep | src/vmm/kmalloc.cpp:17-23 | taking a slot keeps the heap invariant and every live block |
| Heaps.PushStep | src/vmm/kmalloc.cpp:29-34 | a new bucket keeps the heap invariant and every live block |
| Heaps.FreeStep | src/vmm/kmalloc.cpp:63 | clearing a slot's bit removes exactly that block from the live ones |
| Heaps.RemoveStep | src/vmm/kmalloc.cpp:64-67 | dropping a bucket without live blocks keeps the heap invariant and every live block |
| Heaps.WriteStep | src/vmm/kmalloc.cpp:10-43 | a store into a live block keeps the heap invariant and every other live block |
| Kmallocs.Kmalloc.Malloc | src/vmm/kmalloc.cpp:10-43 | for every request the doubling loop ends on: a new block of the request's class, first fit over the list, else in a new bucket in the least free frame; every other block and every page outside the heap unchanged |
| Kmallocs.Kmalloc.MallocListed | src/vmm/kmalloc.cpp:13-27 | the first free slot of the first bucket of the class with room, or null and no change exactly when there is none |
| Kmallocs.Kmalloc.MallocFresh | src/vmm/kmalloc.cpp:29-42 | slot 0 of a bucket in the least free frame |
| Kmallocs.Kmalloc.Free | src/vmm/kmalloc.cpp:45-68 | above class 16 exactly that block is given back; in class 16 the block two slots on, if any, or a bit of slot 0 is lost; the bucket and its frame go exactly when the bitmap bytes read empty, and then no live block is in it |
| Kmallocs.Kmalloc.Realloc | src/vmm/kmalloc.cpp:70-101 | frees, allocates, stays, or moves to a block of the new class that starts with all old bytes and then does what free does to the old one; above class 16 every other block is unchanged |
| Kmallocs.ReallocStaysExactlyWhen | src/vmm/kmalloc.cpp:83-89 | the block stays where it is if and only if the new size fits its class, and then nothing changes |
| Kmallocs.Kmalloc.Calloc | src/vmm/kmalloc.cpp:103-120 | a new block that starts with as many zeros as the 32-bit product |
| Kmallocs.CallocHoldsExactlyWhen | src/vmm/kmalloc.cpp:105-117 | the block can hold the product if and only if the product is below 2^32 |
| HeapRuns.Run | src/vmm/kmalloc.cpp:10-120 | for every sequence of requests and stores, at every moment: the heap is well formed, each block held has the size asked for and every byte stored; a request is served if and only if the limits allow it at that moment, then with the whole effect of its call, and otherwise nothing changes |
| HeapRuns.LastBlockLeavesBucket | src/vmm/kmalloc.cpp:63-67 | a run after which no block is live and a bucket is still on the list |
| Paging.SamePage | src/vmm/paging.cpp:67-68 | two addresses have the same indices exactly when they are in the same page |
| Paging.WalkIsTwoLevels | src/vmm/paging.cpp:67-79 | the walk on the words of memory: bits 31-22 and 21-12 select the entries, bit 0 of both must be set, the low twelve bits of the second are the flags |
| Paging.EntrySetOk | src/vmm/paging.cpp:78-79 | a store to a table entry changes the walk at exactly one page of exactly the directories that share the table |
| Paging.TableAddedOk | src/vmm/paging.cpp:71-76 | a zeroed table in an absent entry changes no walk, and nothing else leads to it |
| Paging.MapPage | src/vmm/paging.cpp:64-82 | the entry for the page holds the address's upper twenty bits and the flags' lower twelve; so the page walks to that frame with those flags if bit 0 of the flags is set, and is absent otherwise, in this directory and those sharing the table; every other walk of every directory stays; a table added is open to user code; the sharing invariant is kept |
| Paging.Copy | src/vmm/paging.cpp:56-62 | a new directory with the same walk everywhere, sharing the tables present |
| Paging.CopyThenMap | src/vmm/paging.cpp:56-82 | mapping a page in a copy, to the frame and with the flags given, changes the original at exactly that page if the original had the directory entry, and nowhere otherwise |
| Spaces.MapPrivate | src/vmm/paging.cpp:64-82 | through an entry no other directory shares, only this directory's walk of one page changes, and no data page is written |
| Spaces.TranslationsKept | src/vmm/paging.cpp:64-82 | steps that write no directory or table leave every walk and the sharing invariant as they were |
| Spaces.TakeFrame | src/pmm/pmm.cpp:113-121 | a fresh frame is in no address space, and taking it changes no translation |
| Loader.Elf32.VerifyHeader | src/loader/loader.cpp:15-22 | true exactly for the four magic bytes |
| Loader.CopyToUser | src/loader/loader.cpp:55 | the copy through the directory in CR3 puts the bytes into the page that backs the address and changes nothing else |
| Loader.LoadSegment | src/loader/loader.cpp:47-57 | one segment ends up in a fresh page, mapped at its address |
| Loader.Elf32.Load | src/loader/loader.cpp:24-61 | every segment to load is in a fresh page of its own, mapped at its address; all other translations stay; a bad magic changes nothing |
| Loader.SegmentReads | src/loader/loader.cpp:40-58 | reading p_vaddr + t through the directory gives file byte p_offset + t |
| Elves.SegmentRead | src/loader/loader.cpp:40-51 | the loader reads type, offset, address and file size of segment k of a written image, and finds its data |
| Elves.LoadsExactlyWhen | src/loader/loader.cpp:47 | a segment of a written image is loaded if and only if its type is 1 and it has data |
| Elves.LoadWritten | src/loader/loader.cpp:24-61 | of a written image with any number of segments every PT_LOAD segment reads back its own data at its own address, every page none of them asks for walks as before, and the entry point is the one written |
| Scheduler.WaitingKeepsSlot | src/userland/process.cpp:52-64 | over every run a process that is not current keeps its directory and saved registers |
| Scheduler.ContextPreserved | src/userland/process.cpp:52-64 | what was captured when a process was preempted is what its next turn restores, under its own directory |
| Scheduler.WaitingShrinks | src/userland/process.cpp:60 | each tick brings a waiting process one place nearer, a creation puts it off by at most one |
| Scheduler.NoStarvation | src/userland/process.cpp:60 | no process waits longer than its distance plus the creations meanwhile |
| Scheduler.RoundRobin | src/userland/process.cpp:60 | after k ticks the current process is k places on, around the list |
| Scheduler.OneTurnEach | src/userland/process.cpp:60 | with n processes a turn comes again after exactly n ticks, and each other process is current exactly once in between |
| Scheduler.StartsAsBuilt | src/userland/process.cpp:27-63 | in every run a process other than the head starts with the registers and the directory it was created with |
| Scheduler.HeadIsCurrent | src/userland/process.cpp:38-43 | until the first switch the head is current and the list is the processes created, in order |
| Scheduler.HeadStartsAsInterrupted | src/userland/process.cpp:58 | the first switch puts the interrupted registers into the head's slot, and its next turn restores those; with a single process at once |
| Scheduler.KernelIsActive | src/userland/process.cpp:25 | from boot, and again from every creation on, the kernel's directory is active until a tick switches |
| Scheduler.OwnIsActive | src/userland/process.cpp:61 | from a tick that switches on the active directory is that of the current process, until the next creation |
| Scheduler.EarlyTick | src/userland/process.cpp:54-56 | a tick before scheduling is enabled, or before there is a process, returns what it interrupted and changes nothing |
| Machines.HeapStepSpaces | src/vmm/kmalloc.cpp:10-43 | a heap step that releases no frame leaves every address space and every other page as they were |
| Machines.HeapUntouched | src/vmm/paging.cpp:56-82 | paging work leaves the heap and the contents of its blocks as they were |
| Records.FillRecord | src/userland/process.cpp:28-36 | the zeroed record becomes the built state, with the directory at 0, the entry point at 40, the stack pointer at 52, a null next at 64 and the kernel stack's top at 68 |
| Records.InitialRegisters | src/userland/process.cpp:28-33 | every register a process starts with, by number: the entry point, cs 0x1b, eflags 0x202, user_esp 0xbfff1000, user_ss 0x23, ebp 0xbfff0000, the rest 0 |
| Records.StateSaved | src/userland/process.cpp:58 | storing into one record keeps every other record and block, the list, all translations and all other pages |
| Records.StateRestored | src/userland/process.cpp:63 | the interrupt frame gets the record's state, everything else is unchanged |
| Creation.StackSpace | src/userland/process.cpp:16-21 | a copied directory with the two stack pages mapped to the fresh frame and the one after it, a fresh frame for the kernel stack, no other directory changed |
| Creation.NewSpace | src/userland/process.cpp:16-25 | fresh distinct pages for the two stacks and each segment, loaded while the new directory is in CR3; no earlier directory or data page touched |
| Processes.System.constructor | src/userland/process.cpp:11-13 | an empty process list over a running heap |
| Processes.System.EnableScheduling | src/userland/process.cpp:66-68 | the machine's Enable step; `_init` is set |
| Processes.System.Tail | src/userland/process.cpp:45-47 | the walk along next ends at the last process |
| Processes.System.CreateProcess | src/userland/process.cpp:15-50 | the machine's Create step with the built registers; the kernel's directory is in CR3 again; the word below the stack pointer is the last one of the page taken for the stack, open to user code, and eip is the image's e_entry; earlier directories, pages and heap blocks unchanged; fresh frames apart from each other and from those of all others; a bound on the frames taken |
| Processes.System.SwitchProcess | src/userland/process.cpp:52-64 | while scheduling is off or there is no process, nothing changes at all; otherwise the machine's Switch on the interrupt frame; no directory, no client block and no other page changes |
| Isolation.StepKeepsMemory | src/userland/process.cpp:15-50 | a process reads the same bytes in its pages after a creation as before |
| Isolation.StoresIsolated | src/userland/process.cpp:16-25 | a store into one of the pages taken for a process, the second stack page included when it is its own, changes no byte any other process reads in its own, no record and no translation |
| Isolation.CreatedReads | src/userland/process.cpp:23-25 | a created process reads its image's bytes at its segments' addresses |
| Isolation.SecondPageIsNextFrame | src/userland/process.cpp:21 | through 0xbfff1000 a process reaches the frame behind its stack's, its own kernel stack exactly when that frame was free |
| SystemRuns.Spawn | src/userland/process.cpp:15-50 | in the middle of a run, a creation from an image in a heap block keeps all that holds during runs and every byte of every process |
| SystemRuns.Interrupt | src/userland/process.cpp:52-64 | in the middle of a run, an interrupt returns with what the machine's Switch says, which is then in the interrupt frame, and changes no byte of any process's pages; while scheduling is off or there is no process it returns what was captured |
| SystemRuns.StoreUser | src/userland/process.cpp:16-25 | in the middle of a run, a store through the active directory happens exactly when the address is in a page of the running process, and changes that byte of that process and no other byte of memory |
| SystemRuns.Drive | src/userland/process.cpp:15-68 | every run of creations, interrupts and stores: at every moment the records hold what the machine has after the events so far, every process has the pages its image asks for with the image's bytes and its own stores; each action has its effect on the memories and no other; no translation ever changes |
| SystemRuns.FramesDiffer | src/userland/process.cpp:16-25 | at every moment of a run any two pages of processes, of one or of different ones, are backed by different frames |
| SystemRuns.StacksDiffer | src/userland/process.cpp:17-20 | at every moment of a run the stacks at 0xbfff0000 of any two processes are different frames, over any number of creations |
| Traces.EarlyInterrupt | src/userland/process.cpp:54-56 | in every run an interrupt before scheduling is enabled, or before a process is made, returns the registers captured and changes no record and no byte outside the interrupt frame |
| Traces.KernelStoresRefused | src/userland/process.cpp:25 | in every run no store of a process happens from the start, or from a creation on, until an interrupt switches |
| Traces.FirstPushStored | src/userland/process.cpp:20-30 | in every run what a process pushes first, below the stack pointer it was created with, is stored whenever it runs |
| Traces.ProgramStarts | src/userland/process.cpp:16-28 | in every run a process made from a written image starts at the entry point written, reads the data of every PT_LOAD segment at its own address, and has no page but those and its stack |
| Traces.WrittenByte | src/loader/loader.cpp:47-55 | what a process finds at first is the data of the PT_LOAD segments, where the image wants it |
| Traces.WrittenPages | src/loader/loader.cpp:47-51 | the pages a written image asks for are those of its PT_LOAD segments |
| Isolation.StoreInPage | src/userland/process.cpp:16-25 | a store into any page that is no bucket, directory or table changes no record, no translation, and no byte a process reads in another page |
| Starts.Boot | src/userland/process.cpp:11-13 | from fresh memory to a system with the image of any runnable program in its heap, on which every run of the stated size can start |
| Starts.RunTwo | src/userland/process.cpp:15-68 | a run from fresh memory: two processes from one image, and what the second one stores over a byte of a segment the first one does not see |
| Tars.GetSize | src/utils/tar.cpp:8-18 | the octal number of the field modulo 2^32, whatever its bytes are |
| Tars.OctalGrows | src/utils/tar.cpp:13-14 | each byte counts as its value less 48, bytes from 128 on being negative |
| Tars.SizeExactlyWhen | src/utils/tar.cpp:8-18 | eleven octal digits read back as the number written if and only if it is below 2^32 |
| Tars.NextSkipsHeaderAndBlocks | src/utils/tar.cpp:49-52 | the two additions skip one header and the padded data |
| Tars.EntriesOfArchive | src/utils/tar.cpp:26-55 | on a written archive of any length the reader finds every file up to the first whose header has a zero byte at its own number |
| Tars.RoundTripExactlyWhen | src/utils/tar.cpp:26-30 | all files are found, in order, if and only if no header has a zero byte at its file's number: for up to 100 files when each name is longer than the number, and never for more than 135 |
| Tars.HeaderFields | src/utils/tar.cpp:29-32 | a written header holds the name and reads back the size, and so do the 157 bytes of it that the reader keeps |
| TarLists.ParseTar | src/utils/tar.cpp:20-59 | the reader ends; its list of heap blocks holds the entries found, last one first, and whatever was in the heap stays |
| TarLists.NodeLayout | src/utils/includes/tar.hpp:6-25 | a node holds the 157 bytes of the header, the pointer to the data at 160 and the next node at 164 |
| TarLists.ReadArchive | src/utils/tar.cpp:20-59 | of an archive of files of up to 4064 bytes the list holds all, last one first, if and only if no header has a zero byte at its file's number |
| TarLists.ReadLostFiles | src/utils/tar.cpp:33-37 | of an archive of a file of 2049 to 8128 bytes and a second one both are found; the first one's data is lost if it has anything but 0 where the size of the second one's bucket goes |
| Serials.Serial.PushDigits | src/outputs/serial.cpp:67-72 | the stack grows by the digits, least significant first, and keeps what was below |
| Serials.Serial.PopDigits | src/outputs/serial.cpp:81-84 | the digits come off in reverse and are written |
| Serials.Serial.PrintDec | src/outputs/serial.cpp:87-107 | writes the decimal numeral, stack index restored |
| Serials.Serial.PrintHex | src/outputs/serial.cpp:62-85 | writes 0x and the padded numeral, stack index restored |
| Serials.PrintHexStopsExactlyWhen | src/outputs/serial.cpp:76-79 | the padding loop with its 8-bit counter ends if and only if at most 255 digits are asked for |
| Serials.DecReadsBack | src/outputs/serial.cpp:87-107 | the numeral consists of digits, parses to the value and has no leading zero but for 0 itself |
| Serials.HexReadsBack | src/outputs/serial.cpp:62-85 | the numeral parses to the value and has max(bits/4, digits) hexadecimal digits after 0x |
| Serials.DigitCount | src/outputs/serial.cpp:11-13 | a 64-bit number needs at most 64 of the 256 places on the stack |

## Left out

- `PMM::init` (src/pmm/pmm.cpp:20-93): the model starts from an initialised frame allocator whose free frames do not hold its own bitmap and lie below 1 GiB.
- Kmallocs.Kmalloc.Malloc: needs a free frame or a bucket with room, because without either the new bucket is written over frame 0; requests above 2 GiB are excluded, because the loop does not end on them. The theorems say nothing about the part of a block of class 4096 or more that lies beyond its frame.
- Kmallocs.Kmalloc.Realloc: moving a block above class 2048 is excluded, because the copy takes as many bytes as the class says and those leave the frame.
- Kmallocs.Kmalloc.Calloc: products whose low 32 bits exceed 4064 are excluded, because the zeros may leave the frame.
- HeapRuns.Run: requests outside those limits are passed over, as no client may make them; so is giving up a block of class 16, because the allocator then gives back another one (`FreeExactlyWhen`).
- Buckets.PushBucket: needs a free frame, because without one `allocate_bucket` writes over frame 0.
- Layout.ComputePower: requests above 2 GiB are excluded, because the loop does not end on them.
- Paging.MapPage: needs a free frame when the directory entry is absent; an allocation of frame 0 would be mapped as a table. `invlpg` and the caching of translations are not modelled.
- Loader.Elf32.Load: segments must each fit one page and lie in different pages, and no other directory may share their tables. The printing of each header is left out.
- Processes.System.CreateProcess: the kernel's directory must have no entries for the stack and the segments, no segment may use the stack's page, and enough frames must be free.
- SystemRuns.StoreUser: a store through the second stack page at 0xbfff1000 is passed over when the frame behind the stack was taken at the creation, because it then hits somebody else's frame; `SecondPageIsNextFrame` says which.
- SystemRuns.Drive: images lie in heap blocks, as far as those lie in their frames; other calls of the allocator during the run are left out.
- Processes.System.SwitchProcess: the interrupt frame must lie in pages that are neither buckets, directories nor tables. CR3 is a field.
- TarLists.ParseTar: files above 4064 bytes are excluded, because their data may be lost (`ReadLostFiles`); the archive must lie outside the heap, and two free frames per file must be there.
- Serials.Serial.PrintHex: widths above 255 digits are excluded, because the 8-bit counter never reaches them. Port output is a string; waiting for the port and its initialisation are left out.
- The bitwise operations on single bytes are written as recursion on binary digits, and shifts and masks on words as arithmetic.
- Several source functions are split into more than one method (`MallocListed` and `MallocFresh`, `ClearSlot`, `EnsureTable`, `StackSpace`, `NewRecord`, `SwitchToNext`, `SaveCurrent`, `TakeEntry` and others); the split follows the statements of the source.
- The bitmap and the frame allocator are value types over the shared memory, because their own fields do not change after initialisation.
- `PageEntry::set_value`, `PageEntry::set_flags`, `Elf32::run_process` and `free_empty_buckets` are unused or undefined.
- Descriptor tables, interrupt and boot assembly, system calls, timer and keyboard, the screen, `strcmp` and the format loop of `kprintf`.
