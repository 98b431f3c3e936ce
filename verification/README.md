# Skybolt verification model

Skybolt is a small UNIX-like kernel. This project models the parts of it whose correctness depends on
state shared between many functions, and proves what they promise:

- **Address spaces.** Four-level page tables in memory, over the first-fit page heap. `Pte.PteOps` is the
  link-time choice of one of three entry encodings; `Isa.EveryIsaLawful` shows that x86_64, aarch64 and riscv64
  all refine one abstract entry, `PteWords` gives the words written in numbers, and everything else about page
  tables is proved for any such encoding.
  `PageTable.Lookup` is the reference meaning of a table: a function from addresses to mappings. The tree
  invariant `PageTable.TreeInv` labels each live table with its address space, level and address prefix, so no
  table is shared or reachable twice. `map_page`, `unmap_page`, the cache policy, the kernel windows,
  `access_ok`, the ELF loader and the recursive free are methods that work on memory and on `alloc_map` in place
  and are proved against `Lookup`.
- **Page ownership.** `TaskMemory`, `Elf` and `Spawn` follow every small page through task creation, failed
  spawns and reaping; `PageRuns` states what holds over whole histories.
- **Tasks and scheduling.** `Sched` is the state machine of tasks, `scheduler()`, `sleep`/`wakeup`,
  spawn and exit, with one step per stretch of kernel code that runs with interrupts off; `Scheduler` holds the
  loops of the source over `task_list` and the task pool and proves that they take these steps; `Runs`, `TaskLaws` and
  `Fairness` state what holds over steps and whole runs. `RingList` is the linked list underneath, and the loops of `Scheduler`
  follow its links.
- **The whole.** `WholeKernel` handles every event in the scheduler, the files and the ttys at once and shows that
  they never disagree; `WholeRuns` follows runs from boot and carries out their page events on the heap.
- **Files, tty, ramdisk, arguments, traps.** `Files`, `Tty`, `Tar`, `Args` and `Trap`. `Files` and `Trap` each give
  the steps as functions, prove every run from boot safe, and prove that the methods take these steps.

Words are natural numbers below 2^64 with C's bit operators defined digit by digit (`Bits`). Addresses are
numbers; `Addr` proves that the divisions and remainders used for indices, `KERN_P2V` and `KERN_V2P` are the shifts
and masks of the source. A panic is a result (`false`, `None` or `Panic`) where it can be reached, and is proved
unreachable otherwise. `hide` statements inside proofs only narrow what the verifier looks at.

## How to read the model

- The memory that holds page tables is a map from (table, index) to a word; the bytes of data pages are a second
  map. A page is used as one or the other according to its owner.
- `Sched.Kernel` carries a history (`nextUid`, `exits`) that the kernel does not have; it only serves to state
  which child an exit code came from.
- The code accepts the digit '8' in octal sizes (src/fs/tar.c:27), keeps only the low 12 bits of the offset in
  `translate_page` (src/kernel/vm.c:108), and lets `access_ok` accept a range whose end wraps around 64 bits
  (src/kernel/copyio.c:8). The model does the same; for each there is a concrete input at which the intended property
  fails (`Tar.EightAccepted`, `Windows.WindowTranslation`, `CopyIo.WrapAccepted`) and an exact condition
  (`Tar.RightIffOctal`, `Vm.TranslationExactIff`, `CopyIo.WrongExactlyIfWrapped`).
- `access_ok` bounds user addresses by 2^48, while the table index ignores bits 48 to 63 and the processor wants
  canonical addresses. So it lets a user task name the low aliases of the kernel's windows, from 2^47 on
  (`CopyIo.AliasAccepted`); `CopyIo.AcceptedIsUserMemory` says that these are the only accepted addresses outside the
  task's own pages.
- The slot of an executable that fails to load is never given back (src/kernel/task.c:67-70), so file slots are
  conserved if and only if no executable fails to load (`Files.ConservedIff`, `Files.LostSlot`); and as `load_seg`
  ignores p_filesz (src/kernel/elf.c:24), the tail of a segment is zero if and only if the file has zeros there
  (`Elf.ZeroTailIff`, `Elf.TailOfNextSection`).
- The stack page and the argument page of a new task are not zeroed: `Spawn.OldBytesKept` says which of their bytes
  are still those of an earlier owner.

## Model

| member | source | states |
|---|---|---|
| `Addr.IxIsShiftMask` | src/kernel/vm.c:22-24 | The table index used in every walk proof is the source's shift and mask of the address, at every level. |
| `Addr.P2VIsOr` | inc/defs.h:52 | Or-ing in the link address is adding it to the low 40 bits, for every address. |
| `Addr.V2PIsAndNot` | inc/defs.h:51 | Masking out the link address keeps exactly the low 40 bits, for every address. |
| `Addr.SameBlockIsSamePrefix` | src/kernel/vm.c:8-24 | Two addresses lie in one aligned page of a size exactly when their indices agree from that level up. |
| `Addr.RestOfPage` | src/kernel/copyio.c:17 | Everything up to the next page boundary is in the same page, on the same side of 2^48, and within 64 bits. |
| `Pte.TableEntryView` | src/kernel/vm.c:68-70 | Whatever the old entry, map_page's three writes give a valid non-leaf entry with the table's address. |
| `Pte.LeafEntryView` | src/kernel/vm.c:82-85 | Whatever the old entry, map_page's four writes give a valid leaf with that address and privilege, keeping the old memory attribute. |
| `PteField.PaRoundTrip` | src/arch/x86_64/pte.c:41-49 | Reading back a stored aligned address gives it back if and only if it is below 2^52 (x86_64, and aarch64 with the same field). |
| `PteField.SetPaBit` | src/arch/aarch64/pte.c:41-45 | Storing an address below 2^52 changes no bit outside the address field. |
| `PteX86.OpsLawful` | src/arch/x86_64/pte.c:16-79 | Each x86_64 setter changes its own field of the abstract entry and no other; only making an entry valid also grants user access. |
| `PteAarch64.OpsLawful` | src/arch/aarch64/pte.c:18-69 | Each aarch64 setter changes exactly its own field of the abstract entry. |
| `PteRiscv.OpsLawful` | src/arch/riscv64/pte.c:18-56 | Each riscv64 setter changes exactly its own field of the abstract entry. |
| `PteRiscv.PhysRoundTrip` | src/arch/riscv64/pte.c:36-44 | Reading back a stored aligned address gives it back if and only if it is below 2^55. |
| `PteWords.X86Leaf` | src/arch/x86_64/pte.c:6-11 | map_page's leaf entry in numbers: the address with 0x07 for user and 0x03 for kernel pages at the last level, 0x87 and 0x83 above. |
| `PteWords.X86Link` | src/arch/x86_64/pte.c:25-39 | Its link to a table: the address with 0x07. |
| `PteWords.X86Policy` | src/arch/x86_64/pte.c:59-79 | PWT is bit 3 and PCD bit 4; write-back sets neither, write-combining PWT, uncached PCD. |
| `PteWords.Aarch64Leaf` | src/arch/aarch64/pte.c:6-9 | map_page's leaf entry in numbers: the address with 0x443 for user and 0x403 for kernel pages at the last level, 0x441 and 0x401 above. |
| `PteWords.Aarch64Link` | src/arch/aarch64/pte.c:36-39 | Its link to a table: the address with 0x403. |
| `PteWords.Aarch64Policy` | src/arch/aarch64/pte.c:59-75 | The attribute index in bits 2 to 4 is 0 for write-back and 1 otherwise. |
| `PteWords.RiscvLeaf` | src/arch/riscv64/pte.c:6-12 | map_page's leaf entry in numbers: the page number from bit 10 on, with 0xDF for user and 0xCF for kernel pages. |
| `PteWords.RiscvLink` | src/arch/riscv64/pte.c:31-34 | Its link to a table: the page number with 0x01. |
| `PteRiscv.EmptyEntryAgrees` | src/arch/riscv64/pte.c:27-29 | The kernel's and Sv48's leaf tests agree on the empty entry. |
| `PteRiscv.LeafTestsAlwaysAgree` | src/arch/riscv64/pte.c:18-56 | The kernel's A-bit leaf test agrees with Sv48's R/W/X test on every word that any sequence of setter calls makes of the empty entry. |
| `Isa.EveryIsaLawful` | inc/cpu.h:75-83 | All three encodings satisfy the laws that every page-table proof here uses. |
| `Isa.LiveEntriesAgree` | src/arch/riscv64/pte.c:22-34 | So the two leaf tests agree on every entry of every table in every state of the address spaces. |
| `KHeap.Heap.constructor` | src/kernel/kheap.c:49-55 | A new heap has no page allocated. |
| `KHeap.InitKheap` | src/kernel/kheap.c:27-55 | The small heap lies at g_kheap and the large one right behind it, apart from each other; panics exactly when one is not aligned. |
| `KHeap.Heap.AllocPage` | src/kernel/kheap.c:68-84 | Allocates exactly one page, the lowest free one; fails exactly when all pages are taken, changing nothing. |
| `KHeap.Heap.FreePage` | src/kernel/kheap.c:86-108 | Releases exactly the page that holds the address; panics exactly when the address is outside the heap or that page is free. |
| `KHeap.Heap.IndexInRange` | src/kernel/kheap.c:95-101 | After the bounds check the index is in range, so the second check never fires. |
| `PageTable.HitLabel` | src/kernel/vm.c:88-97 | A walk ends at a valid leaf entry of a live table on the address's own path in its own address space. |
| `PageTable.WalkReaches` | src/kernel/vm.c:88-97 | Every live table is on the walk of every address it serves. |
| `PageTable.LeafWriteWalk` | src/kernel/vm.c:80-85 | Writing one non-link entry changes the walk of exactly the addresses it serves, in every address space. |
| `PageTable.LinkKeepsTree` | src/kernel/vm.c:66-71 | Linking a fresh empty table keeps the tree invariant: no table shared or reachable twice. |
| `PageTable.LinkLookup` | src/kernel/vm.c:66-71 | Linking a fresh empty table changes no mapping of any address space. |
| `Vm.UpdatedAddresses` | src/kernel/vm.c:57-86 | What map_page does, by address: the page's addresses walk to a leaf of that size, base and privilege, all others are mapped as before. |
| `Vm.AddressSpaces.MapPage` | src/kernel/vm.c:57-86 | Functional update of one block of one address space, all others unchanged; keeps the tree; allocates exactly the new tables; fails only with the heap full. |
| `Vm.AddressSpaces.EnterTable` | src/kernel/vm.c:63-74 | One level of the descent ends in the next table on the path and changes no mapping, whether or not the table was missing. |
| `Vm.AddressSpaces.WriteLeaf` | src/kernel/vm.c:80-86 | The final write is the functional update of that block. |
| `Vm.AddressSpaces.AllocPagetable` | src/kernel/vm.c:50-55 | A new address space maps nothing and leaves the others alone. |
| `Vm.AddressSpaces.WalkPage` | src/kernel/vm.c:88-97 | The loop stops within four levels at the entry the reference walk finds; the final panic is unreachable. |
| `Vm.AddressSpaces.GetPageSize` | src/kernel/vm.c:111-121 | The size of the page mapping the address, and 0 exactly when there is none. |
| `Vm.AddressSpaces.TranslatePage` | src/kernel/vm.c:105-109 | The base plus the low 12 bits of the address, or the sentinel if unmapped. |
| `Vm.TranslationExactIff` | src/kernel/vm.c:105-109 | That is the true physical address if and only if the offset in the page is below 4096; so always for small pages. |
| `Vm.SentinelMeansUnmapped` | inc/vm.h:8 | No translation of a mapped address equals the sentinel. |
| `Vm.AddressSpaces.IsPageMapped` | src/kernel/vm.c:123-125 | True exactly for mapped addresses. |
| `Vm.AddressSpaces.PageSetCachePolicy` | src/kernel/vm.c:99-103 | Changes the memory attribute of the address's page and nothing else in any address space. |
| `Vm.AddressSpaces.UnmapPage` | src/kernel/vm.c:127-131 | Unmaps the address's page and nothing else in any address space. |
| `Vm.LookupInPage` | src/kernel/vm.c:88-97 | All addresses of a page have one mapping. |
| `CopyIo.AccessOk` | src/kernel/copyio.c:5-21 | Terminates for any mix of page sizes, never divides by zero, and accepts exactly when every byte is mapped (and below 2^48 for a user task), or the end wraps around 64 bits. |
| `CopyIo.CheckPage` | src/kernel/copyio.c:8-18 | One turn of the loop passes exactly if the byte at the cursor does, and leads to the end of its page, up to which every byte passes. |
| `CopyIo.PageOk` | src/kernel/copyio.c:8-18 | Checking one byte of a page settles all bytes to the page's end. |
| `CopyIo.WrongExactlyIfWrapped` | src/kernel/copyio.c:8 | For a user task the answer differs from "every byte is mapped and below 2^48" exactly for the ranges that wrap. |
| `CopyIo.WrapAccepted` | src/kernel/copyio.c:8 | Such a range: the last byte of the address space. |
| `CopyIo.LastPageFree` | src/kernel/vm.c:162-209 | Every task's table leaves the last page of the 64-bit space unmapped. |
| `CopyIo.WhatUsersPass` | inc/vm.h:10 | For a user task exactly two kinds of bytes pass: its own user pages, and the low aliases of the kernel windows, which share their table indices. |
| `CopyIo.AliasAddresses` | inc/defs.h:20-22 | The aliases are the 512 GB from 0xFF00_0000_0000, 0xDD00_0000_0000 and 0xCC00_0000_0000. |
| `CopyIo.UserBound` | inc/vm.h:10 | For a user task a byte passes exactly if it is mapped and below 0x1_0000_0000_0000. |
| `CopyIo.AcceptedIsUserMemory` | src/kernel/copyio.c:5-21 | An accepted range of a user task that does not wrap lies in user pages if and only if it misses the three aliases; so always below 2^47. |
| `CopyIo.AliasAccepted` | src/kernel/copyio.c:11 | An address at which the check passes although the page is the kernel's. |
| `Windows.MapKernel` | src/kernel/vm.c:162-209 | Maps the three windows and changes nothing else; allocates exactly the new tables, all above the last two levels. |
| `Windows.UnmapKernel` | src/kernel/vm.c:211-228 | Unmaps exactly the windows. |
| `Windows.WindowRoundTrip` | inc/defs.h:51-58 | In each window, for addresses below 2^39, the physical-to-virtual macro adds the base and the other macro undoes it. |
| `Windows.DirectMap` | src/kernel/vm.c:162-209 | After map_kernel each window's address of any pa below 2^39 is in a 1 GB kernel page whose base is pa rounded down, with the window's policy. |
| `Windows.DirectMapAddresses` | src/kernel/vm.c:162-209 | After map_kernel, for pa below 2^39: 0xFFFF_FF00_0000_0000 + pa is cached, 0xFFFF_DD00_0000_0000 + pa uncached, 0xFFFF_CC00_0000_0000 + pa write-combining, each a 1 GB kernel page at pa rounded down. |
| `PteWords.WindowAttributes` | src/kernel/vm.c:173-207 | There the attribute bits are 0, PCD and PWT on x86_64, and index 0, 1 and 1 on aarch64. |
| `Windows.WindowTranslation` | src/kernel/vm.c:105-109 | At the second 4 KB of the direct map, translate_page answers 0 instead of 4096, in any table after map_kernel. |
| `Windows.LowHalfFree` | src/kernel/vm.c:162-209 | map_kernel maps no address below 2^47. |
| `FreeTables.SameTable` | src/kernel/vm.c:133-156 | Tables of one space at the same place are the same table, so the recursion meets each once. |
| `FreeTables.NextEntry` | src/kernel/vm.c:136-153 | What an entry holds up is disjoint from what the entries before it hold up. |
| `FreeTables.FreePagetableRecursive` | src/kernel/vm.c:133-156 | Frees the tables and last-level pages below a table, each exactly once, and nothing else; never reaches free_page's panics. |
| `FreeTables.FreeEntry` | src/kernel/vm.c:147-153 | Frees exactly what one entry holds up. |
| `FreeTables.UnderRoot` | src/kernel/vm.c:158-160 | Below the root hang exactly the tables and backing pages of its address space. |
| `FreeTables.OthersKept` | src/kernel/vm.c:158-160 | The other address spaces stay well formed. |
| `TaskMemory.TaskPool.CreateEmptyTask` | src/kernel/task.c:22-51 | Takes the first free slot; the new task has an empty user half and the kernel windows; exactly its own pages are allocated; other spaces are unchanged. Fails exactly for a full task pool, or with the heap full. |
| `TaskMemory.PoolIsFull` | src/kernel/task.c:25-34 | There is no free slot exactly if all of 0 to 2047 are in use. |
| `TaskMemory.TaskPool.AddUserPage` | src/kernel/elf.c:19-22 | One fresh page, mapped for user code at exactly one address; every page still has one owner; fails only with the heap full. |
| `TaskMemory.TaskPool.SetupBlankThread` | src/kernel/thread.c:7-18 | The task gains a kernel stack of its own and nothing else; fails only with the heap full. |
| `TaskMemory.TaskPool.SetupUserThread` | src/kernel/thread.c:101-117 | The task gains a kernel stack of its own and a user stack page, and nothing else; fails only with the heap full. |
| `TaskMemory.TaskPool.FreePages` | src/kernel/task.c:170-172 | Returns exactly the task's tables, user pages and stack to the heap and never panics. |
| `TaskMemory.TaskPool.FreeTask` | src/kernel/task.c:155-175 | After it every page still has one owner and every other task is as it was. |
| `TaskMemory.OwnedGrows` | src/kernel/vm.c:57-86 | Mapping a page for a task adds that page and the new tables to what the task owns, and nothing else. |
| `Elf.PageImage` | src/kernel/elf.c:23-24 | A zeroed page with the file read in holds the file's byte at each offset, zero past the end. |
| `Elf.PagesTight` | src/kernel/elf.c:16 | The pages of a segment cover it, and none is too many. |
| `Elf.LoadPage` | src/kernel/elf.c:18-26 | One turn of the loop extends the loaded part of the segment by a page; fails only with the heap full. |
| `Elf.LoadSeg` | src/kernel/elf.c:9-27 | After loading, every page of the segment holds the file's bytes and no address outside it changed its mapping; fails only with the heap full. |
| `Elf.ImageBytes` | src/kernel/elf.c:9-27 | Every byte of the segment, as user code reads it through the page table, is the file's byte at p_offset plus its distance from p_vaddr, or 0 past the file's end. |
| `Elf.ZeroTailIff` | src/kernel/elf.c:24 | As p_filesz is ignored, the bytes behind p_filesz read as zero if and only if the file has zeros there, or ends. |
| `Elf.TailOfNextSection` | src/kernel/elf.c:24 | A segment and a file for which a byte that should be zero is the next byte of the file. |
| `Elf.LoadSegments` | src/kernel/elf.c:40-52 | With page-disjoint segments all of them are in place at the end: loading one does not disturb another, nor any other address space; fails only with the heap full. |
| `Spawn.HasOwner` | src/kernel/task.c:22-75 | In every state of the invariant each allocated page has an owner. |
| `Spawn.OneOwner` | src/kernel/task.c:155-175 | No page has two owners, and only allocated pages have one. |
| `Spawn.SpawnUser` | src/kernel/task.c:53-106 | A failed spawn leaves everything as it was; a successful one allocates exactly the new task's pages, with its image, its stack page and its arguments in place, and changes no other space's tables, mappings or bytes. Arguments fail exactly when one cannot be copied in. Bytes of earlier owners are left only in the stack page and in the argument page outside pointers and copies. Stops only with the heap or the task pool full. |
| `Spawn.SpawnKernel` | src/kernel/task.c:77-86 | A kernel task gets a space with the windows and a kernel stack; nothing else changes. Stops only with the heap or the task pool full. |
| `Spawn.Discard` | src/kernel/task.c:67-70 | Freeing a task that was just made leaves no trace of it. |
| `Spawn.AddStack` | src/kernel/thread.c:101-117 | The task gets a stack page that was nobody's, and its image stays. |
| `Spawn.AddArgs` | src/kernel/arg.c:11-45 | The argument page is mapped in the child and holds the arguments; the image stays, and every byte of it outside the pointer table and the copies is old. |
| `Spawn.FinishTask` | src/kernel/thread.c:101-117 | The stack page and the argument page are mapped for user code, the arguments are in place, and the loaded image and all other spaces are kept; fails only with the heap full. |
| `Spawn.ArgvRoundTrip` | src/kernel/arg.c:32-38 | In the child's address space: the i-th pointer of the table at 0x70000000 is 8-aligned, and behind it user code reads a string equal to argv_in[i] and its zero. |
| `Spawn.ArgvEnds` | src/kernel/arg.c:24-25 | In the child's address space the pointer table ends with NULL. |
| `Spawn.StackAddresses` | src/kernel/thread.c:5 | User code has its stack page at 0x7FFF_F000 to 0x7FFF_FFFF. |
| `Spawn.SpawnThenReap` | src/kernel/task.c:155-175 | Spawning and then reaping a task restores alloc_map, the tasks and every other space. |
| `PageRuns.Happen` | src/kernel/task.c:53-175 | One spawn, kernel spawn or reap has its exact effect on the set of tasks, puts program, stack and arguments into the new task's memory, and keeps every other task's pages, mappings and bytes. |
| `PageRuns.RunHistory` | src/kernel/task.c:53-175 | After any history the tasks are exactly those spawned and not reaped; the allocated pages are those of the present tasks and those that were no task's at the start; every task that was not reaped still has its pages, mappings and bytes; and every task made in the history finds the program, the stack page and the arguments of the very spawn that made it. Ends early only with the heap or the task pool full. |
| `PageRuns.HistoryRestores` | src/kernel/task.c:155-175 | A history that reaps exactly what it spawned restores alloc_map. |
| `PageRuns.ImageSurvives` | src/kernel/elf.c:9-27 | A loaded program stays in its task's memory, byte for byte, whatever is spawned or reaped beside it. |
| `PageRuns.StillFinds` | src/kernel/task.c:53-175 | Program, stack page and arguments of a task stay, whatever is spawned or reaped beside it. |
| `PageRuns.SpawnKept` | src/kernel/task.c:53-106 | A spawn keeps every other task and the pages that are no task's. |
| `PageRuns.ReapKept` | src/kernel/task.c:155-175 | A reap keeps every other task and the pages that are no task's. |
| `Sched.StepKeeps` | src/kernel/scheduler.c:20-112 | From any state of the invariant no enabled step fails an assertion or panics, and the invariant holds again. |
| `Sched.ScheduleOk` | src/kernel/scheduler.c:87-107 | Wherever scheduler() is called the thread it switches to is live and ready, so the assertions of the search and of switchto hold. |
| `Sched.ReapKeeps` | src/kernel/scheduler.c:87-98 | Reaping keeps the current thread and the invariant: no waiting task loses its child, no parent pointer dangles. |
| `Sched.ExitKeeps` | src/kernel/task.c:177-188 | task_exit keeps the handshake and does not return to the exited task. |
| `Sched.AwaitedBy` | src/kernel/task.c:178-182 | The exiting task's wakeup reaches exactly the task that waits for it. |
| `Sched.SpawnKeeps` | src/kernel/task.c:88-117 | Spawning establishes the handshake between parent and child. |
| `Sched.ResumeKeeps` | src/kernel/scheduler.c:100-112 | Whenever a thread is switched back to, signals, the second scheduler() call of an idle thread after a timer interrupt, and the assertions after both sleeps go well. |
| `Sched.ReadKeeps` | src/kernel/tty.c:38-44 | A reader takes a ready line or sleeps; either way no wake-up is lost. |
| `Sched.LineEndKeeps` | src/kernel/tty.c:80-85 | A line end wakes every reader of the tty. |
| `Sched.WakeDisplayKeeps` | src/graphics/display.c:163-164 | An echo on the active display wakes the renderer, in the same interrupt. |
| `Sched.RedrawWakes` | src/graphics/display.c:163-164 | The echo on the active display wakes exactly who sleeps on the display. |
| `Sched.Pos` | src/kernel/scheduler.c:67 | The position of the current thread in the list. |
| `Sched.FirstFrom` | src/kernel/scheduler.c:67-80 | The first runnable thread from a position on, skipping the idle thread. |
| `Runs.RunSafe` | src/kernel/scheduler.c:132-161 | Along every run from boot the invariant holds, and no assertion can fail next. |
| `Runs.BootKernelBooted` | src/kernel/scheduler.c:132-161 | What init_scheduler builds is a state from which runs start. |
| `Runs.RunFacts` | src/kernel/scheduler.c:20-29 | In every reachable state cur_thread is linked and ready, its live task's page table is loaded, idle is ready, and no live task's parent is freed. |
| `Runs.WaitingExactlyWhileAsleep` | src/kernel/task.c:115-123 | In every reachable state a task has a waiting child exactly while it sleeps on its own waiting_child, and that child is live and its own. |
| `Runs.WaitReturnsExitCode` | src/kernel/task.c:115-123 | The value a waiting spawn returns is the code with which that very child exited, earlier in the run. |
| `Runs.ExitsHappened` | src/kernel/task.c:177-183 | Every recorded exit code was passed to task_exit by the task it is recorded for. |
| `Runs.ExitedNeverRuns` | src/kernel/scheduler.c:63-107 | An exited task is never current again. |
| `Runs.NoLostWakeup` | src/kernel/tty.c:38-39 | In every reachable state with a line ready on a tty, no thread is asleep on it. |
| `TaskLaws.StepTask` | src/kernel/scheduler.c:87-107 | What one event does to a task that is not current: freed exactly if a zombie when scheduler() is called, else woken, marked or left as the event says, and orphaned exactly if its parent is freed. |
| `TaskLaws.CurrentAfter` | src/kernel/sleep.c:5-12 | The current thread after an event: a zombie if it exits, asleep on what it waits for, or ready. |
| `TaskLaws.WokenExactlyBy` | src/kernel/sleep.c:18-31 | A sleeping thread is woken by its own reason and by nothing else: a line end on its tty, something new on the display, the exit of its awaited child. |
| `TaskLaws.OthersStayUp` | src/kernel/sleep.c:5-12 | Nobody but the current thread falls asleep or exits. |
| `TaskLaws.ZombiesAreReaped` | src/kernel/scheduler.c:87-98 | After a call of scheduler() the only zombie left is its caller, and only zombies are freed. |
| `TaskLaws.FamilyStays` | src/kernel/task.c:159-163 | A living task keeps its stdin, and its parent for as long as that lives. |
| `TaskLaws.WhoSchedules` | src/kernel/interrupt.c:7-9 | A timer interrupt, a spawn, an exit and falling asleep call scheduler(), and every interrupt of idle; nothing else does. |
| `TaskLaws.AnotherRuns` | src/kernel/scheduler.c:63-85 | Who calls scheduler() is not picked again while another thread than idle is ready. |
| `TaskLaws.PendingStep` | src/kernel/task.c:125-142 | ctrl-C on a tty makes a signal pending exactly for the ready tasks whose stdin is that tty, and it stays pending. |
| `TaskLaws.KilledByKey` | src/kernel/task.c:144-153 | In every run, a thread that is killed by a signal had ctrl-C typed on its own stdin earlier, while it was ready. |
| `TaskLaws.KeyKills` | src/kernel/task.c:144-153 | In every run, a task that ctrl-C met exits with code 0 the next time it comes out of scheduler(), whatever happened since. |
| `Fairness.PickIsCyclic` | src/kernel/scheduler.c:63-85 | The two-pass search finds the first runnable thread in cyclic order after the current one, which comes last. |
| `Fairness.RankWithout` | src/kernel/scheduler.c:91-97 | Reaping other threads does not delay a waiting thread. |
| `Fairness.RankSpawn` | inc/list.h:19-24 | Inserting at the head does not delay a waiting thread. |
| `Fairness.ScheduleLowers` | src/kernel/scheduler.c:100-107 | Each call of scheduler() runs a given ready thread or brings it closer. |
| `Fairness.NoStarvation` | src/kernel/scheduler.c:63-107 | A thread that stays ready runs again from every point of an endless run, whatever is spawned or reaped meanwhile. |
| `Scheduler.KernelState.constructor` | src/kernel/scheduler.c:132-133 | An empty task_list is a ring of its head. |
| `Scheduler.KernelState.InitScheduler` | src/kernel/scheduler.c:132-161 | Builds exactly that state, for any number of displays, with task_list a well-formed ring. |
| `Scheduler.KernelState.AddFirst` | inc/list.h:19-24 | list_add through the links of the task pool: the thread becomes the first of task_list. |
| `Scheduler.KernelState.Remove` | inc/list.h:26-31 | list_del through the links: the thread leaves, the others keep their order. |
| `Scheduler.KernelState.Next` | inc/list.h:33-38 | Following next from a thread's link leads to the next thread's, or to the head at the end. |
| `Scheduler.KernelState.ForEachFrom` | src/kernel/scheduler.c:67-72 | From a link on, finds the first runnable thread before the head. |
| `Scheduler.KernelState.FindRunnableThread` | src/kernel/scheduler.c:63-85 | The two walks over the links find what the specification picks. |
| `Scheduler.KernelState.ReapTurn` | src/kernel/scheduler.c:91-97 | The link read before a deletion is still the next one to visit. |
| `Scheduler.KernelState.ReapZombies` | src/kernel/scheduler.c:87-98 | Unlinking zombies while walking the links frees exactly the dead, clears their children's parents, and leaves a well-formed ring. |
| `Scheduler.KernelState.FreeTask` | src/kernel/task.c:159-163 | The loop clears the parent of every listed child of the freed task. |
| `Scheduler.KernelState.WakeupAll` | src/kernel/sleep.c:18-31 | Wakes exactly the threads asleep on the resource. |
| `Scheduler.KernelState.CallScheduler` | src/kernel/scheduler.c:100-107 | Takes the specified scheduling step. |
| `Scheduler.KernelState.SleepOn` | src/kernel/sleep.c:5-12 | Takes the specified sleeping step. |
| `Scheduler.KernelState.NotifyParent` | src/kernel/task.c:178-182 | A waiting parent gets the code and is woken, as specified. |
| `Scheduler.KernelState.TaskExit` | src/kernel/task.c:177-185 | Takes the specified exit step and keeps the ring well formed. |
| `Scheduler.KernelState.AddChild` | src/kernel/task.c:111 | The child becomes the first of task_list. |
| `Scheduler.KernelState.TaskSpawnUser` | src/kernel/task.c:88-117 | Takes the specified spawn step, in both modes, and keeps the ring well formed. |
| `Scheduler.KernelState.TaskInterruptByTty` | src/kernel/task.c:125-146 | Marks exactly the ready tasks that read the tty. |
| `RingList.Init` | inc/list.h:14-17 | A single link forms a ring. |
| `RingList.Add` | inc/list.h:19-24 | The new element comes right after the head; the others keep their order. |
| `RingList.Del` | inc/list.h:26-31 | The element leaves the ring, the others keep their order. |
| `RingList.ForEach` | inc/list.h:33-34 | Visits every element once, in order, and stops. |
| `RingList.RemoveAll` | inc/list.h:39-42 | Walking with the safe macro while deleting removes exactly the chosen elements. |
| `Files.FreeSlot` | src/kernel/file.c:18-20 | The first free slot of filetab. |
| `Files.CloseKeeps` | src/kernel/stdio.c:91-95 | Closing an fd meets a slot in use and frees none that another fd names. |
| `Files.ExitKeeps` | src/kernel/task.c:165-168 | free_task's loop closes no slot twice and keeps ownership. |
| `Files.SpawnKeeps` | src/kernel/task.c:94-100 | The parent's fds 0 to 2 are stdio files, so duplicating them keeps ownership; a spawn whose arguments fail changes no file. |
| `Files.StepKeeps` | src/kernel/syscall.c:25-79 | Every step keeps ownership; the kernel stops exactly when no file slot is left or something else than a regular file is to be run, so never in tar_dup and never in closing a free slot. |
| `Files.OpenedFd` | src/kernel/syscall.c:40-52 | An fd opened on a device names that device's slot, one opened on a ramdisk file a slot taken for it; no other fd changes. |
| `Files.SpawnedFds` | src/kernel/task.c:94-96 | A spawned task's fds 0 to 2 are its parent's, one by one, and no other is open. |
| `Files.RunSafe` | src/kernel/syscall.c:25-79 | From boot on, in every state of every run of open, close, spawn and exit, ownership holds and the next step stops only by design. |
| `Files.RunFacts` | src/kernel/file.c:17-36 | In every state of every run: stdio at fds 0 to 2, no fd dangles, each ramdisk slot has one holder. |
| `Files.StepLeaks` | src/kernel/task.c:67-70 | A step loses a file slot if and only if it spawns an executable that fails to load: the slot that was opened for it. |
| `Files.RunLeaks` | src/kernel/task.c:67-70 | In every run as many slots are lost as executables have failed to load. |
| `Files.ConservedIff` | src/kernel/task.c:67-70 | In every state of every run every ramdisk slot in use has a holder if and only if no executable has failed to load. |
| `Files.LostSlot` | src/kernel/task.c:67-70 | A run of two events that loses slot 1. |
| `Files.BadLoadsFill` | src/kernel/file.c:29 | After 1023 executables that fail to load, the next open of a ramdisk file stops the kernel. |
| `Files.ClosedSlots` | src/kernel/task.c:165-168 | Exactly the ramdisk slots that the task's fds name are freed. |
| `Files.FileSystem.constructor` | src/kernel/stdio.c:10-30 | After boot the first slots are the stdio files of the serial tty and the displays, all others are free. |
| `Files.FileSystem.FileAlloc` | src/kernel/file.c:17-30 | Takes the first free slot; fails exactly when all are taken. |
| `Files.FileSystem.FindFreeFd` | src/kernel/syscall.c:31-38 | The lowest free fd, or failure exactly when all are open. |
| `Files.FileSystem.SpawnKernel` | src/kernel/task.c:77-86 | A kernel task gets the stdio file of its device three times, or none for /dev/null. |
| `Files.FileSystem.OpenFile` | src/kernel/syscall.c:40-52 | Opens into the lowest free fd: a fresh slot for a ramdisk file, the shared slot for a device; errors change nothing. |
| `Files.FileSystem.FileClose` | src/fs/tar.c:145-147 | Gives a ramdisk slot back and leaves a stdio file alone. |
| `Files.FileSystem.CloseFile` | src/kernel/syscall.c:72-79 | Closes exactly the open fds from 3 on; errors change nothing. |
| `Files.FileSystem.SpawnUser` | src/kernel/task.c:53-110 | file_dup only meets stdio files; a failed load leaves one slot taken and owned by nobody; a missing executable, failed arguments or a success leave the table as it was; a directory or device stops the kernel. |
| `Files.FileSystem.FreeTask` | src/kernel/task.c:165-168 | Frees exactly the ramdisk slots the task held. |
| `Tty.Device.NewData` | src/kernel/tty.c:53-86 | The buffer stays what a line editor makes of the bytes since the last read; data_ready means a line ended; echo and wake-up per byte. |
| `Tty.Device.TakeLine` | src/kernel/tty.c:41-50 | The reader gets a prefix of the edited line, and the rest is dropped. |
| `Tty.PlainText` | src/kernel/tty.c:77-78 | Plain characters that fit are entered as typed. |
| `Tty.LineEnds` | src/kernel/tty.c:54-55 | Carriage return and line feed both end the line with a line feed and make it ready. |
| `Tty.EraseKeys` | src/kernel/tty.c:57-71 | Backspace and delete take back the last character, control-C enters nothing. |
| `Tty.EchoOf` | src/kernel/tty.c:62-75 | What the terminal is sent for each kind of byte. |
| `Tty.Capacity` | src/kernel/tty.c:77-78 | A line holds 4095 characters; more are dropped. |
| `Tty.EraseUndoes` | src/kernel/tty.c:62-70 | A character followed by an erase leaves the line as it was if and only if the buffer was not full. |
| `Tty.EraseOnFullBuffer` | src/kernel/tty.c:77-78 | With the buffer full, typing a character and erasing it takes away another one. |
| `Tar.OctalRoundTrip` | src/fs/tar.c:24-35 | Parsing inverts octal printing, for every size that fits 11 digits. |
| `Tar.RightIffOctal` | src/fs/tar.c:24-31 | Of the strings it accepts, the parse is undone by printing exactly for those of octal digits. |
| `Tar.EightAccepted` | src/fs/tar.c:27 | "8" is accepted and read as 8, like "10". |
| `Tar.StoulOctal` | src/fs/tar.c:24-31 | The value of the digits; fails exactly on a character outside '0' to '8'. |
| `Tar.HeaderStep` | src/fs/tar.c:37-44 | From a header the next one is where the archive has it. |
| `Archive.NextIsTight` | src/fs/tar.c:37-44 | The next header is at the first multiple of 512 behind this file's header and contents. |
| `Archive.ReaderReadsWriter` | src/fs/tar.c:50-76 | Every archive that a ustar writer makes of any files (header block, contents, padding; two zero blocks) is one that the reader's theorems are about. |
| `Tar.NameIs` | src/fs/tar.c:55 | The C string comparison decides equality with the entry's name. |
| `Tar.Open` | src/fs/tar.c:50-76 | Finds the first entry of the name, else the root directory, else nothing. |
| `Tar.TarRead` | src/fs/tar.c:78-96 | Copies the bytes from the offset on, at most len and not past the end; fails exactly when the header lies 128 MB or more into the ramdisk. |
| `Tar.Read` | src/fs/tar.c:98-103 | Reads at the position and advances it by what was read; fails as the read does. |
| `Tar.ReadsConcatenate` | src/fs/tar.c:98-103 | Successive reads of any lengths concatenate to a contiguous part of the contents. |
| `Tar.ReadsReachTheEnd` | src/fs/tar.c:98-103 | Enough reads of positive lengths yield exactly the contents. |
| `Tar.Getdents` | src/fs/tar.c:118-135 | Entry number pos of the archive, then advances. |
| `Tar.ListRoot` | src/fs/tar.c:118-135 | Repeated calls list each entry once, in order, and end. |
| `Args.CopyinArgs` | src/kernel/arg.c:11-45 | Whatever the page held, each argv_out[i], read back from the page's bytes, is an 8-aligned pointer to a string equal to argv_in[i]; the table is NULL-terminated; fails exactly when a copy fails; old bytes stay exactly behind the table and outside the copies. |
| `Args.PointerStored` | src/kernel/arg.c:35 | A stored pointer is read back from its bytes, and the other pointers stay. |
| `Args.Offset` | src/kernel/arg.c:16-37 | The string positions are 8-aligned and behind the pointer table. |
| `Args.OffsetsTight` | src/kernel/arg.c:16-37 | The first string is at 256; each further one at the first multiple of 8 behind the zero of the one before. |
| `Args.FitsMeans` | inc/task.h:12-13 | The limits in numbers: 31 arguments, 128 bytes each, 4096 in all. |
| `Args.PointerBytes` | src/kernel/arg.c:35 | Pointers are stored lowest byte first. |
| `Args.EarlierKept` | src/kernel/arg.c:33-38 | The fixed-length copy of an argument, which may run past its string, leaves the strings before it intact. |
| `Trap.StepKeeps` | src/arch/riscv64/trap.c:34-81 | No assertion of the entry path, the handler, switchto or the exit path fails, and the protocol is kept. |
| `Trap.StackBottomInPage` | inc/defs.h:82 | STACK_BOTTOM is 16 bytes below the end of the page, 16-aligned, with room for the registers below it. |
| `Trap.RegistersInOwnPage` | src/arch/riscv64/trap_entry.s:11-66 | In every run the 280 bytes of a user thread's saved registers lie in its own kernel stack page, apart from those of other threads. |
| `Trap.RunKeepsProtocol` | src/arch/riscv64/cpu.c:25-39 | In every run depths are 0 or 1, a user thread's registers are saved at its stack bottom, returns to user mode have sscratch at the current thread's stack bottom, returns to kernel mode have it 0. |
| `Trap.Hart.TrapEnter` | src/arch/riscv64/trap_entry.s:11-66 | The swap of sp and sscratch lands on the thread's kernel stack from user code and on the current stack from kernel code; takes the specified step. |
| `Trap.Hart.ThreadTrapEnter` | src/kernel/scheduler.c:31-52 | Deepens the current thread by one, records the registers of an outermost trap, and changes no other thread; its mode assertions hold. |
| `Trap.Hart.SwitchTo` | src/kernel/scheduler.c:20-29 | Sets sscratch for the next thread and takes the specified step. |
| `Trap.Hart.TrapLeave` | src/arch/riscv64/trap.c:68-80 | The four assertions before the return hold, and sscratch is what the mode returned to needs. |
| `WholeKernel.StepKeeps` | src/kernel/scheduler.c:87-107 | For every event: the kernel stops exactly where it gives up by design, and otherwise the scheduler, the files and the ttys agree again on the tasks, their stdin, and what is ready to be read. |
| `WholeKernel.ReapedFacts` | src/kernel/scheduler.c:87-98 | The tasks whose files an event frees are exactly those the scheduler reaps, each once. |
| `WholeKernel.ExitAllKeeps` | src/kernel/task.c:155-175 | Freeing them takes away their fds and nobody else's, and no slot is closed twice. |
| `WholeKernel.StepFacts` | src/kernel/scheduler.c:87-107 | An event changes the scheduler's tasks by its spawn and its reaping, and keeps every stdin. |
| `WholeKernel.PartsAgree` | src/kernel/task.c:88-117 | Before the reaping, an event adds the same tasks to the scheduler and to the files. |
| `WholeKernel.TtysAgree` | src/kernel/tty.c:33-86 | After every event a line is ready on a tty exactly when one was typed and not yet read. |
| `WholeKernel.DeviceReady` | src/kernel/tty.c:80-85 | So data_ready of the device is what the scheduler sees. |
| `WholeKernel.KeyMeans` | src/kernel/tty.c:53-86 | Bytes 13 and 10 end a line, 3 interrupts, every other byte only echoes. |
| `WholeKernel.LoadMeans` | src/kernel/task.c:53-110 | A spawn fares for the files as it does for the pages: missing, not loadable, arguments unreadable, or loaded. |
| `WholeRuns.BootJoined` | src/kernel/scheduler.c:132-161 | After boot the scheduler, the files and the ttys agree. |
| `WholeRuns.OneReaderPerTty` | src/kernel/scheduler.c:143-154 | After boot every tty is the stdin of exactly one task, and the fds 0 to 2 of that task are the tty's stdio file. |
| `WholeRuns.OthersReadNothing` | src/kernel/scheduler.c:144-147 | The idle task and the renderer have no stdin and no open file. |
| `WholeRuns.RunSafe` | src/kernel/scheduler.c:20-112 | They agree in every state of every run from boot, and the next event stops the kernel only by design. |
| `WholeRuns.StepPages` | src/kernel/task.c:155-175 | The page events of an event take the slots in use from the tasks before to the tasks after. |
| `WholeRuns.PagesFollow` | src/kernel/task.c:22-175 | In every state of every run the slots in use by the pages are the scheduler's tasks. |
| `WholeRuns.AlwaysSlotLeft` | src/kernel/task.c:25-34 | No spawn of such a run finds the task pool full. |
| `WholeRuns.Follow` | src/kernel/task.c:22-175 | Carried out on an empty task pool, the page events of a run from boot all succeed unless the heap is used up; then the tasks with memory are the scheduler's tasks and the holders of fds, every allocated page is theirs or was nobody's from the start, and every task finds the program and the arguments it was spawned with. |

## Left out

- CopyIo.AccessOk: for kernel-mode callers it is stated for tables that leave the last page of the 64-bit space unmapped, as every task's table does (CopyIo.LastPageFree); otherwise the cursor itself could wrap and the loop need not end.
- Args.CopyinArgs: stated for at most 31 arguments, each shorter than 128 bytes, whose copies fit the page; the source does not check the page's end.
- Elf.LoadSeg: segments lie in the user half and are disjoint by pages.
- Elf.LoadSegments: the ELF header checks are one flag and the program headers are given as records; decoding their bytes is not modelled.
- Vm.AddressSpaces.MapPage: asks that no page of another size covers the address and that no live table hangs at the target entry, as the comment in the source does; overwriting a live table would leak it.
- Page table entry setters are functions on a word; the store into the table is in the method that calls them.
- The trap protocol is modelled for riscv64 only; x86_64 and aarch64 set their kernel stack in other registers.
- Exceptions in kernel mode, and the deliberate crash paths /dev/panic1 and /dev/panic2.
- Sched.SpawnKeeps: a spawn there takes a free slot; the full task pool, where the source stops, is an outcome in Spawn and PageRuns.
- Device paths that stdio_open rejects with a panic.
- copyin and copyout beyond the access check, which is a plain copy; sys_write, sys_uname and printf.
- The large-page heap is the same class at another page size; nothing here allocates from it.
- Device drivers, register save and restore, TLB and cache maintenance, framebuffer drawing, user programs.
