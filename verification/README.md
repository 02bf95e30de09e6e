# A Dafny model of the ukern kernel

ukern is a small x86_64 kernel: copy-on-write processes over four-level page tables, pipes, a round-robin
scheduler, a keyboard queue, a read-only exFAT file system behind a block cache, and, in the gnu-efi library
its boot loader uses, the CRC-32 that seals EFI tables. This project models those parts in the form the C code
has them (classes with fields, loops with invariants, arrays where the source has buffers), and proves what
they promise over every run.

Check everything with `dafny verify dfyconfig.toml`.

## What is modelled

**Memory.** `PageState` describes physical memory as the kernel sees it: pages of 512 words, a descriptor per
page whose one word is either a reference count or a free-list link, and, as ghost state, which page plays which
part. `Base` is the invariant: the free list is acyclic and holds exactly the free pages; every table page has
one place in one tree; the count of a user frame is the number of present entries naming it in the hardware
tables of all processes. `PhysicalMemory.Memory` holds the allocator and the page-table operations; the four
nested loops of the source are one method that calls itself once per level. `Kernels.Kernel` holds fork,
teardown, the fault handler, `U2K`, sbrk, and the memory side of create and exec. `PageNeeds` says how many pages
each of these takes, and `KernelHalves` follows the kernel's half of every level-4 table.

**What processes see.** `DeepCopy` is a kernel without frames, tables or sharing: every process has a memory of
its own and fork copies it. Every operation of `Kernel` is proved to do to `World()`, the memories as the
processes see them, exactly what `DeepCopy` says. `Runs.Computer` adds the history of the run: after any run, a
load returns the byte stored last at that address by that process, or by its parent before the fork, or zero in
fresh heap, or what the program was loaded with; and the kernel is mapped in both tables of every process.

**Pages.** `Losses` keeps the books of every operation, and `Runs.Computer` those of every run from boot: what is not
free is a table, a mapped frame, or was lost by one particular kind of write. `Conservation` counts: free pages, tables, mapped frames and lost frames make up the memory, and what a
fork takes and gives back, over any run of faults and stores, is accounted for to the page. `Lifetimes` says the same
of the kernel itself: a fork, the store instructions of parent and child, and the child's end.

**Pipes.** `PipeSpec` is a byte queue with at most one waiting reader and writer and a count of its writing ends;
`Pipes.Pipe` is the ring buffer with its two copy loops, which go through `U2K` page by page and call each other to
wake the other side. `PipeRuns` makes pipe calls steps of the runs of `Runs.Computer`.

**Scheduler and keyboard.** `Sched` and `Keyboard`.

**Files.** `Disk` is the block cache, `ExFat` the layout of a volume, `Directory` the two entry-by-entry scans and
what a well-formed directory means, `FileReads` what a read returns, `PathNames` and `PathText` paths as names and
as text, `FileSystem` and `PathOpen` the code over the cache.

**CRC.** `Crc32`.

## Conventions

- C integers whose width does not matter are `nat` or `int`. Where it does: the reference count and the list link
  share a signed 64-bit word (`PageState.Pointer`), `size_t` is 32 bits in this kernel, so `struct pipe` is 64 bytes
  and the ring has 4032, page-table words are bit fields, the CRC register is a bit vector.
- An allocation that the source does not check (`alloc_page` returning NULL, or reading the descriptor behind the
  last free page) is a precondition on the number of free pages; the cases the source handles are results.
- The disk, the key codes, the images of programs and the choice of the running process are parameters.
- A user buffer is required to be mapped, with one page past its end when it stops at a page boundary, because the
  copy loops look that page up.

## Where the code and its description differ

- `alloc_page` is documented to return NULL when memory is short, but with exactly one free page it reads through a
  NULL pointer; the model excludes that call (`nfree != 1`).
- `walk_pgtbl` with no free page returns -ENOMEM before it has changed anything. With a few, but fewer than the missing
  tables, it does not get as far as -ENOMEM: it comes to the last free page, and the call above. The model excludes
  these walks.
- `sys_fork` does not look whether `alloc_proc` found a slot and writes through NULL if it did not
  (kernel/syscall.c:78-88); a free slot is a precondition.
- `sys_sbrk` subtracts the free pages on both sides of its test. `Processes.SbrkOvercommits`: for any heap end, the test
  keeps growth within the free pages exactly if at most 1001 are free or the address space ends before one page more than
  there are. What a growth takes is `SbrkNeed`, to the page.
- `exec` keeps the larger of the old and the new end of the heap (kernel/proc.c:309), so a program that follows a larger
  one starts its heap behind a gap; `SysExec` and `Runs` say so.
- `disk_read` does not move on past a resident block. `Disk.WholeRequest` says exactly when it still brings in all it
  was asked for, and `Disk.RunKeeps` that whole-cluster reads never notice.
- `exfat_read_file` does not advance after a partial first chunk. `FileReads.ReadIs` says exactly what it returns, and
  `FileReads.RightIff` when that is right.
- `sys_write` puts its caller to sleep whenever the first transfer was not the whole write. `PipeSpec.LostWakeUp` says
  exactly when the nested transfer has finished it already, so that nobody wakes it, and `PipeSpec.LostWakeUpHappens`
  gives a run of two calls that ends so.
- A read at the end of a pipe leaves its caller recorded as the reader, and so does the wake-up when the last writing
  end is closed. `PipeSpec.EndOnce`: the end is reported once, and every later read of the pipe is refused as busy;
  `PipeSpec.EndOnceHappens` gives the run.
- `U2K` drops a reference without looking at the count. `Conservation.U2KLoses` says exactly when a frame is lost, and
  `Conservation.U2KLosesAfterFork` that it is, in the parent, once a child has ended. Over whole runs nothing else is
  lost (`Runs.AllAccounted`), and `LostFrame.LoseAFrame` is a run from boot that ends with no process and a page short.
- After a fork and the child's end the free pages are back exactly if no store of the parent faulted on a page it
  already shared with a third process: `Conservation.ForkIsRepaid` on runs, `Lifetimes.ForkAndReap` on the stores made.
  `Conservation.SecondForkCosts`: after a second fork of the same process, one store is enough.

- `path_push` appends to a 256-byte path without looking, `exfat_open` goes on, and `sys_chdir` installs the descriptor.
  `PathOpen.LostIff` says exactly which opens overrun it, `PathOpen.TwoNames` that two nested directories with names of
  254 characters together do, and `PathOpen.OverrunHappens` gives names of 150. Of the state after that nothing is said.

## Model

| member | source | states |
|---|---|---|
| `PhysicalMemory.Memory.constructor` | kernel/mem.c:216-241 | after boot the invariant holds and the free list is exactly the pages the firmware offered above the kernel |
| `PhysicalMemory.Memory.InitFreePages` | kernel/mem.c:218-241 | the loop builds an acyclic list of all usable pages, although counts and links share a word |
| `PageState.UsableIff` | kernel/mem.c:225-231 | the pages on the list are those the firmware offered whose addresses are not below the end of the kernel |
| `PhysicalMemory.Memory.AllocPage` | kernel/mem.c:255-272 | takes the head of the list, or nothing if it is empty |
| `PhysicalMemory.Memory.FreePage` | kernel/mem.c:279-301 | panics exactly outside usable memory or at a count below 1; else one reference less, and at none the page heads the list |
| `PhysicalMemory.Memory.FreeListedPage` | kernel/mem.c:291-295 | freeing a page on the list always panics, because a link read as a count is never positive |
| `ReleaseSteps.ListedNotPositive` | kernel/mem.h:54-60 | the word of a listed page is NULL or a kernel address, so not positive as a signed number |
| `PageState.PopFreeInv` | kernel/mem.c:259-271 | taking a page keeps the list acyclic, duplicate-free and complete |
| `Words.ByteAtStoreByte` | kernel/proc.c:349-350 | a byte store changes that byte and no other, although memory is made of 64-bit words |
| `Words.WordIsBytes` | kernel/proc.c:347-350 | a 64-bit word is the number its eight bytes stand for, low end first |
| `Words.FromBytesJoin` | kernel/fs/exfat.h:44-84 | in numbers on memory and disk, what stands further on counts for more |
| `Words.FullEntryValue` | kernel/mem.c:335 | the entry that grants everything is the word the source writes: the address with P, W and U |
| `Paths.PathOfInjective` | kernel/mem.h:46-49 | the four 9-bit indices determine the page: distinct page addresses take distinct walks |
| `Paths.SharedTables` | kernel/mem.h:46-49 | addresses share tables exactly within 2 megabytes, a gigabyte and 512 gigabytes, and pages stand in order in the last table |
| `WholeTrees.DistinctSlots` | kernel/mem.c:326-365 | distinct page addresses, or one address in distinct trees, use distinct entry slots |
| `PhysicalMemory.Memory.WalkPgtbl` | kernel/mem.c:319-376 | the walk is `WalkTo`: the table reached, -EFAULT or -ENOMEM, and the tables it made |
| `WalkSteps.WalkReads` | kernel/mem.c:327-328 | without `create` nothing changes and the table is found exactly if it is there |
| `WalkSteps.WalkCreates` | kernel/mem.c:329-375 | with enough pages a creating walk succeeds using exactly the missing tables; with none it fails and has changed nothing |
| `WholeTrees.GrowTranslates` | kernel/mem.c:333-359 | a creating walk changes the translation of no page in any tree |
| `PhysicalMemory.Memory.CopyPgtbl` | kernel/mem.c:464-509 | copies the user half level by level and the kernel half word by word, keeps the invariant, takes one page per table below the source |
| `PhysicalMemory.Memory.CopyLevel` | kernel/mem.c:471-501 | the nested loops at one level: tables and translations below the destination mirror the source, counts follow |
| `WholeTrees.CopyTranslates` | kernel/mem.c:464-509 | the copy translates every page as the source does, and no other translation changes |
| `WholeTrees.CopyDisjoint` | kernel/mem.c:474-491 | the tables of the copy are pages of their own |
| `PhysicalMemory.Memory.FreeLevel` | kernel/mem.c:397-428 | every table of the tree is given back, every counted frame loses one reference, nothing else changes |
| `WholeTrees.FreeTranslates` | kernel/mem.c:397-428 | the tree translates nothing any more, the others what they did |
| `Conservation.CopyFreeRestores` | kernel/mem.c:397-509 | freeing a copy restores the free pages, the tables and every count |
| `PhysicalMemory.Memory.ClearLevel` | kernel/mem.c:511-538 | W is off in every last-level entry of the tree and nothing else changes |
| `WholeTrees.ClearTranslates` | kernel/mem.c:511-538 | every page translates as before, without W |
| `PhysicalMemory.Memory.CopyPage` | kernel/proc.c:347-350 | the byte loop copies the page |
| `PhysicalMemory.Memory.SplitPage` | kernel/proc.c:345-353 | the page gets a frame of its own, named by both tables with all permissions |
| `Kernels.Kernel.constructor` | kernel/proc.c:20-32 | no process, and the invariant |
| `Kernels.Kernel.AllocProc` | kernel/proc.c:34-52 | the first closed slot gets two empty tables; none exactly if all slots are in use |
| `Kernels.Kernel.SysFork` | kernel/syscall.c:75-122 | what the processes see is a deep copy of the parent under a new number, that of the first free slot, which is ready; no other slot changes, the invariant is kept, and the kernel's half with it |
| `DeepCopy.ForkCopies` | kernel/syscall.c:90-111 | at every address the child has its parent's mapping, rights and byte, and its parent's heap; nobody else notices |
| `Sharing.ForkSeen` | kernel/syscall.c:91-96 | sharing frames without W and counting them is, to every process, a copy |
| `Kernels.Kernel.ClearProc` | kernel/proc.c:219-228 | the process is gone, nobody else sees a change, both trees are given back |
| `Kernels.Kernel.PageFaultHandler` | kernel/intr.c:296-343 | a write that was granted and not in force is put in force, every other fault kills, and no process sees a difference |
| `Kernels.Kernel.UserStore` | kernel/intr.c:311-342 | a store succeeds exactly if the process may write the page, and then changes that byte of that process alone; in memory it is one store, after one repaired fault if W was not in force |
| `Kernels.Kernel.UserLoad` | kernel/proc.h:91-95 | a load returns what the process's own memory holds, at any address; None, a fault, exactly where nothing of its own is mapped, and in the kernel's half because the level-4 entry there is not for user mode |
| `Kernels.Kernel.U2K` | kernel/proc.c:331-354 | the three assertions hold, the frame is the page's, and with `write` it is the process's own afterwards; exactly a frame of count 1 is lost |
| `Kernels.Kernel.KernelStore` | kernel/proc.c:331-354 | a store by the kernel through U2K changes that byte of that process alone |
| `Views.SplitTwin` | kernel/intr.c:323-331 | splitting a page off keeps the two tables twins: equal but for W, W only where granted and only on frames with one reference |
| `Views.FlagTwin` | kernel/intr.c:319-321 | turning W on for the sole owner keeps them twins |
| `Views.StoreSeen` | kernel/intr.c:316-334 | a store through an entry with W set changes no page but the one it is meant for |
| `Views.SoleOwner` | kernel/intr.c:319 | a frame with count 1 is named by one page of one process |
| `Kernels.Kernel.SysSbrk` | kernel/syscall.c:632-656 | refused as the code's test says, or the heap grows by zeroed writable pages, the old end is returned and only the end recorded for the caller changes; taken are exactly the new pages and the tables missing in both trees |
| `DeepCopy.GrowSees` | kernel/syscall.c:643-654 | growth maps zeroed, writable bytes between the two ends, rounded up to pages, and nothing else |
| `PageNeeds.GrowNeedStep` | kernel/syscall.c:645-651 | pages share tables: what a page has paid for in either tree the pages behind it need not |
| `Processes.SbrkOvercommits` | kernel/syscall.c:637-641 | for every heap end: the test keeps growth within the free pages exactly if at most 1001 are free or the address space ends first; otherwise it lets one page more than there are through |
| `Processes.SbrkAccepts` | kernel/syscall.c:637-641 | with more than 1000 pages free every growth within them and the address space passes; with 500 or fewer none does |
| `Kernels.Kernel.LoadImage` | kernel/proc.c:302-327 | pages are loaded into empty trees, the kernel's half is written and the shadow tree copied; the process sees its image, nobody else anything; taken are exactly the pages and their tables twice |
| `Processes.ImageSees` | kernel/proc.c:302-327 | the program finds the bytes of its image at their addresses, may write them, and has nothing else mapped |
| `Kernels.Kernel.MapKernel` | kernel/proc.c:85-88 | entries 256 to 511 of k_pgtbl, and no others, go into the table |
| `Kernels.Kernel.CreateProc` | kernel/proc.c:58-111 | a new process in the first free slot, ready, with the image and the kernel mapped, or -EAGAIN exactly if no slot is free; no other slot changes |
| `Kernels.Kernel.SysExec` | kernel/syscall.c:305-365 | the process is ready and sees the new image and nothing of the old; its heap ends where the old one did or where the new segments do, whichever is further; pages taken and given back are accounted for |
| `Runs.StepIsolated` | kernel/syscall.c:75-122 | no step of one process changes what another sees or whether it lives |
| `Runs.RunIsolated` | kernel/syscall.c:75-122 | nor does any run of such steps |
| `Runs.ByteOfRun` | kernel/syscall.c:90-96 | in every run, every byte of every process is the last one stored there along its ancestry |
| `Runs.BrkAfterExec` | kernel/proc.c:309 | in every run, after exec the heap ends at the old end or at the program's, and below neither |
| `Runs.Computer.constructor` | kernel/main.c:9-24 | the empty run, with every page the firmware offered above the kernel free |
| `Runs.Computer.Fork` | kernel/syscall.c:75-122 | one more step of the run, and the shared-frame kernel still shows what the run says |
| `Runs.Computer.Store` | kernel/intr.c:296-343 | a store is a step of the run; one that is not allowed ends the process |
| `Runs.Computer.StoreFor` | kernel/proc.c:331-354 | likewise a store by the kernel; a frame is lost exactly if the page waited for a split and had count 1 |
| `Runs.Computer.Sbrk` | kernel/syscall.c:632-656 | likewise growth, whenever there are pages for it, or no step if refused |
| `Runs.Computer.Create` | kernel/proc.c:58-111 | likewise creation |
| `Runs.Computer.Exec` | kernel/syscall.c:305-365 | likewise exec |
| `Runs.Computer.Exit` | kernel/proc.c:219-228 | likewise the end of a process |
| `Runs.Computer.Load` | kernel/proc.h:91-95 | after any run and at any address, a load returns the last byte stored there along the ancestry, or faults exactly if no page of the process is mapped there |
| `Runs.KernelAlwaysMapped` | kernel/mem.c:502-507 | after any run both level-4 tables of every process have the kernel's half, word for word as k_pgtbl has it |
| `KernelHalves.CopyHalf` | kernel/mem.c:502-507 | copy_pgtbl gives the kernel's half on and leaves every other table's |
| `KernelHalves.KernelWord` | kernel/mem.c:198-200 | an address of the kernel's half goes through the kernel's own level-4 entry in every table |
| `Runs.AllAccounted` | kernel/mem.c:216-301 | after any run from boot, free pages, tables, mapped frames and one frame per wasteful write of the kernel make up all usable memory |
| `Runs.AllReturned` | kernel/proc.c:219-228 | when all processes have ended, everything is free but the frames lost that way |
| `LostFrame.LoseAFrame` | kernel/proc.c:345 | on every machine with 64 pages: create, fork, the child's end, one write by the kernel, the parent's end, and one page is gone |
| `Conservation.Census` | kernel/mem.c:216-301 | free pages, tables, pages in hand, mapped and lost frames make up all usable memory |
| `Conservation.InUseMapped` | kernel/mem.c:492-498 | the frames in use are exactly those some process maps |
| `Conservation.ForkCosts` | kernel/syscall.c:90-96 | after fork, any interleaving of write faults of parent and child and of stores, and the child's end: same tables, every page of the parent has its old count or, if it moved, 1, and missing are exactly as many pages as frames shared with a third process on which the parent faulted |
| `Conservation.ForkIsRepaid` | kernel/proc.c:219-228 | the free pages are as many as before the fork exactly if no step of the run is a fault of the parent on a page it shared with a third process before |
| `Conservation.SecondForkCosts` | kernel/intr.c:323-331 | it happens: fork twice, write one page, and let the second child end; a page is missing |
| `Lifetimes.StoreActs` | kernel/intr.c:311-335 | what a store instruction does is one or two steps of such a run |
| `Lifetimes.ForkAndReap` | kernel/syscall.c:75-122 | on the kernel: fork, store instructions of parent and child in any order, the child's end; the free pages are back exactly if no store of the parent goes to a page it shared with a third process before |
| `Conservation.ExitRefunds` | kernel/proc.c:225-228 | a process that ends gives back exactly its tables and the frames nobody else maps |
| `Conservation.SplitLoses` | kernel/proc.c:345 | U2K loses a frame exactly if its page was the sole user of it |
| `Conservation.U2KLoses` | kernel/proc.c:338-353 | of the state U2K leaves, lost beyond what was lost are exactly the frames with count 1 of pages split for a write |
| `Conservation.U2KLosesAfterFork` | kernel/proc.c:345 | it happens: after a fork and the child's end, at every writable page of the parent that it alone maps |
| `Pipes.Pipe.constructor` | kernel/syscall.c:566-570 | an empty pipe with one writing end, and the invariant of `PipeSpec` |
| `Pipes.Pipe.CopyOut` | kernel/fs/pipe.c:18-39 | the page-by-page loop is a plain copy to consecutive addresses, even when frames are replaced under it, and nobody else's memory changes; each page is looked up once |
| `Pipes.Pipe.CopyIn` | kernel/fs/pipe.c:75-97 | the loop puts the writer's bytes behind the ring's and changes no memory |
| `Pipes.Pipe.Wake` | kernel/fs/pipe.c:44-47 | the process woken is ready, and no other slot changes |
| `Pipes.Pipe.PipeRead` | kernel/fs/pipe.c:10-57 | is `ReadAll`, wake-ups included, and ends; exactly the processes woken have become ready |
| `Pipes.Pipe.PipeWrite` | kernel/fs/pipe.c:65-118 | is `WriteAll`, wake-ups included, and ends; exactly the processes woken have become ready |
| `Pipes.Pipe.Read` | kernel/syscall.c:208-234 | -EBUSY, a transfer, 0 at the end, or sleep, as `SysRead`; exactly the processes woken are ready and a caller that sleeps is pending; the invariant of `PipeSpec` is kept, and so is what the pipe relies on |
| `Pipes.Pipe.Write` | kernel/syscall.c:527-552 | -EBUSY, a transfer, or sleep, as `SysWrite`; the processes woken are ready, but for a caller that is put to sleep after it was woken; the invariant of `PipeSpec` is kept, and so is what the pipe relies on |
| `Pipes.Pipe.Close` | kernel/syscall.c:613-624 | one writing end less; the last one wakes a waiting reader with 0 and makes it ready, as `SysClose` |
| `PipeSpec.NestingEnds` | kernel/fs/pipe.c:49-55 | the mutual calls nest at most write, read, write |
| `PipeSpec.StoreAllPeek` | kernel/fs/pipe.c:26-39 | after a delivery the bytes stand at their addresses and every other byte is as before |
| `PipeSpec.BytesAt` | kernel/fs/pipe.c:83-97 | the bytes a write takes are those at its caller's addresses, in order |
| `PipeSpec.ReadAnswers` | kernel/syscall.c:208-234 | exactly when a read is refused, sleeps, or is answered; the answer is the number of bytes delivered, which are the first in the pipe, as many as there are or as were asked for |
| `PipeSpec.ReadWakes` | kernel/fs/pipe.c:49-55 | a read wakes the writer, with the size of its write, exactly if it finishes the write |
| `PipeSpec.WriteAnswers` | kernel/syscall.c:527-552 | exactly when a write is refused, answered with its size, or sleeps |
| `PipeSpec.WriteWakes` | kernel/fs/pipe.c:101-117 | a write wakes the reader it serves, with the number of bytes delivered, and itself exactly in the lost wake-up |
| `PipeSpec.RunKeeps` | kernel/fs/pipe.c:10-118 | in every run, of reads, writes, forks and closes: accepted = delivered + ring, one write's bytes stand together, at most 4031 bytes held, a waiting writer means a full ring and a waiting reader an empty one |
| `PipeSpec.NeverBothWait` | kernel/syscall.c:214-234 | never both wait |
| `PipeSpec.LostWakeUp` | kernel/syscall.c:541-551 | a write sleeps with nobody to wake it exactly if a reader waited and the write is longer than the ring by no more than the reader took |
| `PipeSpec.LostWakeUpHappens` | kernel/syscall.c:541-551 | it happens in the run of a waiting read and a write of one byte more than the ring holds |
| `PipeSpec.BlockedMeansWaiting` | kernel/syscall.c:541-551 | in every other case a sleeping write is recorded as waiting |
| `PipeSpec.EndOfFile` | kernel/syscall.c:221-230 | a read returns 0 exactly if there is no writing end, no byte and no recorded reader; without a writing end none sleeps |
| `PipeSpec.CloseSpends` | kernel/syscall.c:615-620 | closing the last writing end under a waiting reader wakes it with 0 and leaves it recorded; any other close only counts |
| `PipeSpec.EndOnce` | kernel/syscall.c:210-230 | in every run, once the end has been reported every read of the pipe is refused as busy |
| `PipeSpec.EndOnceHappens` | kernel/syscall.c:210-230 | it happens in the run of a close and two reads |
| `PipeSpec.ReadWorld` | kernel/syscall.c:208-234 | a read stores the bytes it delivers at its caller's address and touches no other memory |
| `PipeSpec.WriteWorld` | kernel/syscall.c:527-552 | a write stores what it delivers at the waiting reader's address and touches no other memory |
| `PipeRuns.ReadPipe` | kernel/syscall.c:208-234 | in a run, a read is the stores of the bytes delivered; what holds of every run still does, and frames are lost exactly at the reader's pages that U2K wastes |
| `PipeRuns.WritePipe` | kernel/syscall.c:527-552 | likewise a write, for the waiting reader |
| `PipeRuns.ClosePipe` | kernel/syscall.c:613-624 | likewise a close, which no memory shows |
| `Sched.Scheduler.Round` | kernel/sched.c:8-23 | picks the ready slot nearest behind the current one, the current one last, and behind slot 0 when there is none; nothing exactly if none is ready |
| `Sched.NearestIff` | kernel/sched.c:10-15 | nearest means: no ready slot between, going upwards and round |
| `Sched.BoundedWaiting` | kernel/sched.c:5-24 | a process that stays ready is passed by at most NPROCS - 1 dispatches, no slot twice, whatever the others do |
| `Sched.CrowdWaits` | kernel/sched.c:10-15 | the bound is met when every slot is ready |
| `Keyboard.Driver.Interrupt` | kernel/intr.c:252-280 | a key goes behind the queue unless it is full, and a sleeper is served and made ready, and the running process with it; no other slot changes |
| `Keyboard.Driver.ReadKeys` | kernel/syscall.c:171-198 | bytes, sleep or -EBUSY, as `Read` |
| `Keyboard.Driver.Drain` | kernel/syscall.c:176-181 | the loop takes bytes from the front of the ring |
| `Keyboard.Driver.Forget` | kernel/proc.c:230-231 | a process that ends stops waiting |
| `Keyboard.RunKeeps` | kernel/intr.c:252-280 | in every run the keys accepted come out in order, and only an empty queue has a sleeper |
| `Keyboard.NoneLeftOut` | kernel/intr.c:254 | in every run the keys accepted are the keys struck exactly if none was struck while 4096 were queued |
| `Keyboard.AllTyped` | kernel/intr.c:254-256 | in every run with at most 4096 keys, those delivered and those queued are the keys struck, in order |
| `Keyboard.ReadAnswers` | kernel/syscall.c:171-198 | exactly when a read is answered, sleeps, or is refused; the answer counts the bytes, the first queued, as many as there are or as were asked for |
| `Keyboard.SleeperGetsNextKey` | kernel/intr.c:257-271 | a sleeping read gets exactly the next key, one byte whatever its size |
| `Keyboard.SleeperStays` | kernel/syscall.c:189-194 | until then it stays the sleeper and every other reader is refused |
| `Disk.Cache.DiskRead` | kernel/fs/disk.c:198-223 | fetches the blocks before the first resident one and no others |
| `Disk.WholeRequest` | kernel/fs/disk.c:207-216 | everything asked for is resident afterwards exactly if the resident blocks were its last ones |
| `Disk.StopsAtResident` | kernel/fs/disk.c:210-212 | a request that begins with a resident block brings in nothing |
| `Disk.InsideCluster` | kernel/fs/fs.h:65-75 | every byte of a cluster lies in its blocks |
| `Disk.RunKeeps` | kernel/fs/disk.c:198-223 | in every run of cluster and FAT reads, every cluster is resident as a whole or not at all, resident data is the disk's, and the cluster read last is there |
| `ExFat.ParseWritten` | kernel/fs/exfat.h:44-84 | the fields of a directory entry are read from where the format puts them: parsing gives back what was written |
| `ExFat.ParseBits` | kernel/fs/exfat.c:90-104 | the directory bit and the FAT bit decide whatever the other bits are, and every type but the four is passed over |
| `ExFat.ParseFields` | kernel/fs/exfat.h:44-84 | the numbers and characters of an entry, byte by byte |
| `ExFat.DiskBlock` | kernel/fs/disk.c:198-223 | the disk is its blocks, one after the other |
| `ExFat.LinkedChain` | kernel/fs/exfat.c:240-243 | with FAT links each cluster of a file is the number in the FAT entry of the one before, four bytes low end first |
| `ExFat.ContiguousChain` | kernel/fs/exfat.c:240-243 | without them a file lies on consecutive clusters |
| `ExFat.ContiguousContent` | kernel/fs/fs.h:65-75 | and its content is one stretch of the disk |
| `ExFat.EntriesAreRecords` | kernel/fs/exfat.c:76-89 | the entries of a directory are the 32-byte records of its content in order |
| `FileSystem.Mount.GetFatAt` | kernel/fs/exfat.c:21-29 | the FAT entry on the disk, and every cluster still whole |
| `FileSystem.Mount.WalkDir` | kernel/fs/exfat.c:56-131 | the scan over clusters is `WalkFrom` over the directory's entries, sets that span clusters included |
| `FileSystem.Mount.ReadDir` | kernel/fs/exfat.c:268-348 | one call is `ListFrom` from the descriptor's position |
| `FileSystem.Mount.CompareName` | kernel/fs/exfat.c:107-113 | the character loop compares under case folding of low bytes |
| `Directory.UpperSame` | kernel/fs/exfat.c:107-113 | folding identifies the two cases of each letter and nothing else |
| `Directory.WalkIs` | kernel/fs/exfat.c:90-128 | in a well-formed directory the scan finds the first file of that name, and nothing else |
| `Directory.ListIs` | kernel/fs/exfat.c:302-340 | one call lists the next file and stops behind it |
| `Directory.ListingIs` | kernel/fs/exfat.c:268-348 | repeated calls list every file once, in order, then report the end for ever |
| `Directory.LookupIsFirst` | kernel/fs/exfat.c:50-55 | lookup and listing agree: found exactly if listed, and the first such file |
| `PathOpen.FindAnyChain` | kernel/fs/exfat.c:76-89 | a lookup does not depend on which clusters one takes the directory to occupy |
| `PathOpen.FindIsLookup` | kernel/fs/exfat.c:56-131 | on the disk, a well-formed directory is searched as its list of files says |
| `FileSystem.Mount.ReadFile` | kernel/fs/exfat.c:228-266 | returns `Got` of the file's clusters, FAT-linked or consecutive |
| `FileReads.ReadIs` | kernel/fs/exfat.c:247-264 | exactly what comes back: the bytes asked for to the end of the first cluster, then, if the start was not aligned, bytes one cluster too early |
| `FileReads.RightIff` | kernel/fs/exfat.c:255-263 | right for every content of the file exactly if the read starts at a boundary or stays inside one cluster |
| `FileReads.ReadsJoin` | kernel/syscall.c:199-207 | reads by whole clusters, one after the other, give the file |
| `PathText.PathBuffer.constructor` | kernel/fs/exfat.c:156 | the path is copied into the buffer |
| `PathText.PathBuffer.Push` | kernel/fs/fs.c:52-58 | a slash and the name are put behind the text |
| `PathText.PathBuffer.Pop` | kernel/fs/fs.c:60-75 | the last name goes; the root stays the root |
| `PathText.PartsOfJoined` | kernel/fs/exfat.c:161-168 | a stored path falls apart into the names it was made of |
| `PathText.SlashSeparates` | kernel/fs/exfat.c:161-168 | a slash separates two names |
| `PathOpen.Open` | kernel/fs/exfat.c:135-226 | is `OpenFrom`: parts entered as they are read, the four error codes, and it ends |
| `PathOpen.EnterName` | kernel/fs/exfat.c:166-194 | one part of the path is `Enter` |
| `PathOpen.Climb` | kernel/fs/exfat.c:175-185 | the open made for `..` always succeeds and makes no other such open |
| `PathNames.ResolveKeeps` | kernel/fs/exfat.c:135-226 | on success the stored names are the normal form of the path, clean, fit their buffer, and lead from the root to the file |
| `PathNames.ResolvesIff` | kernel/fs/exfat.c:186-194 | a path is resolved exactly if every initial part, in normal form, exists and fits |
| `PathNames.NormalJoin` | kernel/fs/exfat.c:161-194 | what a path stands for can be worked off piece by piece |
| `PathNames.NormalClean` | kernel/fs/exfat.c:186-194 | proper names are appended |
| `PathNames.NormalDots` | kernel/fs/exfat.c:166-185 | two dots undo a name and stay at the root; one dot and an empty part stay anywhere |
| `PathNames.FailureMeans` | kernel/fs/exfat.c:186-194 | every failure has its reason, and the code says which: the part before is no directory, it has no such name, or the path no longer fits |
| `PathNames.StopIff` | kernel/fs/exfat.c:186-194 | exactly when a resolution ends in a given failure |
| `PathNames.OverrunIff` | kernel/fs/fs.c:52-58 | the stored path is overrun exactly if the first component that cannot be entered exists and no longer fits |
| `PathOpen.OpenedMeans` | kernel/fs/exfat.c:196-223 | the descriptor of a successful open: path, first cluster, FAT flag and kind belong together |
| `PathOpen.OpenedIff` | kernel/fs/exfat.c:135-226 | exactly when an open succeeds |
| `PathOpen.RefusedIff` | kernel/fs/exfat.c:186-225 | exactly when an open gives each of its four error codes |
| `PathOpen.LostIff` | kernel/fs/exfat.c:194 | the same for an open of a path text |
| `PathOpen.TwoNames` | kernel/fs/exfat.c:194 | two calls of chdir into nested directories overrun it exactly if the names have 254 characters together |
| `PathOpen.OverrunHappens` | kernel/fs/fs.c:56 | it happens with two names of 150 characters |
| `PathOpen.Shell.constructor` | kernel/proc.c:91 | a process starts in the root |
| `PathOpen.Shell.Chdir` | kernel/syscall.c:477-493 | a directory that can be opened becomes the current one and a refusal changes nothing; unless the stored path is overrun, it leads to the current directory |
| `PathOpen.ChdirAbsolute` | kernel/fs/exfat.c:144-150 | a path that begins with a slash leads from the root to what it names, wherever the process was |
| `PathOpen.ChdirName` | kernel/fs/exfat.c:151-160 | a name leads into the directory of that name in the current one, unless the stored path is overrun |
| `PathOpen.ChdirKeeps` | kernel/syscall.c:477-493 | over every sequence of calls, absolute and relative, the stored path leads from the root to the current directory |
| `Crc32.TableIs` | gnu-efi/lib/crc.c:22-66 | every entry of the table is what eight bits of the reflected CRC make of its index |
| `Crc32.EightSplit` | gnu-efi/lib/crc.c:212 | eight bit steps are a shift by a byte and the steps of that byte |
| `Crc32.Turn` | gnu-efi/lib/crc.c:212 | one turn of the loop is eight bit steps |
| `Crc32.CalculateCrc` | gnu-efi/lib/crc.c:201-218 | the loop computes the bit-at-a-time CRC-32 of every byte string |
| `Crc32.Residue` | gnu-efi/lib/crc.c:201-218 | a byte string with its CRC behind it always leaves the register 0xDEBB20E3 |
| `Crc32.CheckValue` | gnu-efi/lib/crc.c:201-218 | the CRC of the digits 1 to 9 is 0xCBF43926 |
| `Crc32.SetCrcAltSize` | gnu-efi/lib/crc.c:93-116 | the header is sealed: only its CRC field changes |
| `Crc32.CheckCrcAltSize` | gnu-efi/lib/crc.c:146-198 | the header is left unchanged and accepted exactly if the size is allowed and the seal holds |
| `Crc32.SetCrc` | gnu-efi/lib/crc.c:70-91 | sealed over the size in the header |
| `Crc32.HeaderWritten` | gnu-efi/lib/crc.c:90 | size and CRC stand behind a signature of 8 bytes and a revision of 4 |
| `Crc32.CheckCrc` | gnu-efi/lib/crc.c:119-141 | checked over the size in the header |
| `Crc32.SealedAccepted` | gnu-efi/lib/crc.c:146-198 | a sealed header is accepted for exactly the sizes allowed |
| `Crc32.SealedOnce` | gnu-efi/lib/crc.c:113-116 | the seal holds exactly if sealing again changes nothing |
| `Crc32.SealKeepsSize` | gnu-efi/lib/crc.c:90 | sealing leaves the size field alone |
| `Crc32.BurstDetected` | gnu-efi/lib/crc.c:201-218 | byte strings that differ only inside four consecutive bytes have different CRCs |
| `Crc32.DamageDetected` | gnu-efi/lib/crc.c:146-198 | an accepted header is refused after any damage to at most four consecutive bytes on one side of the field or in it |

## Left out

- Direct stores through user pointers (keyboard and file branches of `sys_read`, `sys_wait`, `sys_pipe`, `sys_readdir`): they bypass the copy-on-write split; what the keyboard delivers is an output sequence.
- Parent and child lists, `wait`, zombies: only the end of a process's memory is modelled.
- Descriptors: which process holds which end of a pipe, the reading end's count, and freeing a pipe.
- `check_mem` and `check_str`: a buffer that is mapped is a precondition.
- Shrinking sbrk, and the wrap-around of its arguments; the test before growing is modelled as written.
- The ELF layout, and `load_img` running out of memory: an image is a list of pages at distinct addresses and the end of its segments.
- Failing exec: only the part after the image has been accepted.
- Accessed and dirty bits, the TLB, interrupts inside the kernel, other processors.
- `PhysicalMemory.Memory.ClearLevel`: for PTE_W only, which is how fork calls it.
- `PhysicalMemory.Memory.AllocPage`: not with exactly one free page, where the source reads through NULL.
- `Runs.Computer.Create`: every page of the image lies below the end of its segments, or at UMAX and above (the stack); the argument page at 0x3FF000 lies below because programs are linked above it.
- `Runs.Computer.Exec`: images as for `Runs.Computer.Create`.
- `Kernels.Kernel.LoadImage`: segments that share a page are left out; the source gives the page a second frame and loses the first.
- `Kernels.Kernel.CreateProc`: the argument vector and the start of the program (context, descriptors) are left out.
- `Kernels.Kernel.AllocProc`: the process number drawn from `g_pid` is left out.
- `Kernels.Kernel.SysFork`: memory and the heap end; descriptors, context and the process number are left out.
- `Kernels.Kernel.PageFaultHandler`: not for a user write to a mapped address of the kernel's half (errno 7), on which the source's walk stops at the assertion on huge pages (kernel/mem.c:340); other faults at any address.
- `Kernels.Kernel.UserStore`: addresses of the user half, for the same reason.
- `Runs.Computer.Store`: likewise.
- `Lifetimes.ForkAndReap`: asks for one free page per store beyond those the fork takes, and for stores the processes may make.
- `WholeTrees.DistinctSlots`: for addresses of the user half, the only ones the kernel walks in the tables of processes.
- `PhysicalMemory.Memory.WalkPgtbl`: for addresses of the user half, and not with some free pages but fewer than the walk needs, where the source reads through NULL.
- `PhysicalMemory.Memory.CopyPgtbl`: without CPY_PGTBL_NOKSPACE, which no caller passes; references are counted for hardware trees, as fork does.
- `Pipes.Pipe.constructor`: the page of the pipe is an array of its own and is not taken from the allocator.
- `PathText.PathBuffer.Push`: for texts that fit in 256 bytes, which the source does not check; `PathOpen.Open` gives `Lost` before.
- `FileSystem.Mount.ReadDir`: for directories that come to an end, as `FileSystem.Mount.WalkDir`.
- `FileSystem.Mount.WalkDir`: for directories that come to an end; on others the source loops for ever.
- `ExFat`: sectors of 512 bytes, a heap aligned to blocks, fewer than 2^30 clusters; the source computes cluster sizes from the header but addresses in sectors of 512.
- `PathOpen.Open`: when a stored path would exceed its 256 bytes, which the source does not check, the result is `Lost` and nothing more is said.
- `PathOpen.Shell.Chdir`: nothing is promised after `Lost`; the source installs a descriptor whose path has overrun its buffer, and what that overwrites is not modelled.
- Reading a block never fails.
- Hardware set-up, PCIe, AHCI, xHCI, APIC, ACPI, the boot loader, the console, the shell, user programs, the rest of gnu-efi.
