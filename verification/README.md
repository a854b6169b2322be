# Verified models of JOS

JOS is a small exokernel-style operating system: a kernel that hands out pages and environments,
and user-level libraries for fork, files and pipes. This project models its most intricate parts
in Dafny and proves what they are for. The models follow the code; where the code and its comments
disagree, the code is followed, the failing case is shown by a lemma, and a condition under which the
promise holds is proved; where a row says "exactly", the condition is necessary as well.

| part | files |
|---|---|
| physical pages, two-level page tables, address spaces | `Mmu`, `Sets`, `VmSpec`, `VmLemmas`, `VmTables`, `VmBoot`, `VmTheorems`, `Pmap` |
| environments, page and IPC system calls, whole runs of the kernel | `Errors`, `EnvIds`, `EnvStatus`, `Ipc`, `Env`, `KernelRuns` |
| copy-on-write fork | `Cow`, `Fork`, `CowRuns`, `CowSteps` |
| file system: blocks, files, directories, paths | `FsSpec`, `FsLemmas`, `FsBytes`, `Files`, `FsTheorems`, `FsRuns`, `FsDirs`, `PathNames`, `Paths` |
| the image builder | `FormatSpec`, `Format` |
| block cache, open-file table | `BlockCache`, `OpenFiles` |
| kernel lock and scheduler | `KernelLock`, `Sched` |
| pipes | `PipeClose`, `PipeFifo` |
| page-fault upcalls, malloc, symbol search | `Upcall`, `HeapSpec`, `Malloc`, `Stab` |

How it is built. State that the source updates in place is a class whose methods have the source's
loops and branches (`Pmap.PageMap`, `Env.Kernel`, `Files.FileSystem`, `Format.Formatter`,
`BlockCache.Cache`, `OpenFiles.OpenTable`, `Malloc.Allocator`). Each class shows its state as one
value, and the lemmas are about that value. Page tables live in the frames they map, and file
records in blocks of the disk they describe, so both invariants carry a ghost record of who owns
each frame or block. Protocols between CPUs or processes (`KernelLock`, `PipeClose`, `PipeFifo`,
`Ipc`, `CowSteps`) are state machines over their single steps, and their theorems quantify over all sequences
of steps. `RunAll` methods drive arbitrary sequences of calls.

Where the code departs from its comments:

- `env_ipc_perm` is never reset, so a plain message can show an old permission (`Ipc.PermTellsPageIff`, `Ipc.PermTellsPageOverRuns`, `Ipc.StalePermission`).
- A page sent to a receiver that listens at UTOP, as `ipc_recv(NULL)` does, replaces a kernel mapping (`VmTheorems.InsertAboveUtop`).
- A shrink inside a block keeps the block's old bytes (`FsTheorems.GrownPartIsZeroIff`, `Format.StaleByte`).
- Shrinking a directory whose dropped blocks hold files with blocks loses those blocks (`Files.FileSystem.FileSetSize`, `Format.RootCutOff`).
- `file_flush` writes no data block of a file of more than 0x7ffff000 bytes (`BlockCache.FlushBound`, `BlockCache.FlushMisses`, `Format.ByteNotFlushed`).
- An image without files has a root directory whose block is free, and a long file name runs into the record's slots (`Format.FsFormat`, `Format.LongName`).
- The scheduler's first index is not reduced, so slot 0 can starve and the word behind the table is read (`Sched.ChosenSoon`, `Sched.Starved`, `Sched.BeyondChosen`).
- `sys_env_set_status` and a second `env_destroy` can put one environment on two CPUs (`KernelLock.SetStatusShares`, `KernelLock.DestroyTwiceShares`, `KernelLock.WokenEarlyShares`).
- `fork` maps descriptor pages before pipe pages (`PipeClose.MidForkLooksClosed`).
- `dup` of a descriptor to itself closes it and then fails (`PipeClose.DupToItself`).
- `devpipe_read` can return end of file with a byte still in the pipe (`PipeFifo.EndOfFileIff`, `PipeFifo.ByteAfterEnd`), and after 2^31 + 1 bytes the writer's index is negative (`PipeFifo.InBufferIff`).
- Until `duppage` has marked the parent's own page, the parent's stores to it show in the child (`CowSteps.StoreSeenBy`, `CowSteps.ChildGetsMarkedPage`).
- A page fault with the stack pointer at UXSTACKTOP does not return to where it happened (`Upcall.UpcallReturnsIff`, `Upcall.Misled`).
- `malloc` leaks the last page of page-multiple requests, takes a request for 0xfffffffd bytes or more as one for none, and can run past its area and then hand out the null address (`Malloc.WholePageLeaks`, `Malloc.Words`, `Malloc.ReachesMendIff`, `Malloc.FillArea`, `Malloc.PastTheEndIff`, `Malloc.SearchFromMend`).
- `stab_binsearch` can overshoot, and does not cross the bounds for an address below all entries (`Stab.Overshoots`, `Stab.CrossedIff`).
- `pwrite` semantics fail for a gap over stale bytes (`FsTheorems.WriteIsPwriteIff`), and a write of no bytes beyond the end extends the file.

`dafny verify dfyconfig.toml` checks everything.

## Model

| member | source | states |
|---|---|---|
| `Pmap.PageMap.PageInit` | kern/pmap.c:299-346 | the free list holds exactly the pages outside page 0, the I/O hole, the kernel image and the AP entry page; the invariant holds and no environment exists |
| `Pmap.PageMap.BuildFreeList` | kern/pmap.c:322-345 | the loop: which pages are listed and that pp_ref is 0 for those and 1 for the others |
| `Pmap.PageMap.PageAlloc` | kern/pmap.c:360-375 | null exactly when the list is empty; otherwise the head leaves the list, cleared if asked, and nothing else changes |
| `Pmap.PageMap.PageFree` | kern/pmap.c:381-393 | the page goes to the head of the acyclic, duplicate-free list |
| `Pmap.PageMap.PageDecref` | kern/pmap.c:399-403 | the count drops by one and the page is listed exactly when it reaches 0 |
| `Pmap.PageMap.PgdirWalk` | kern/pmap.c:427-445 | null exactly when there is no table and none may or can be made; a new table changes no mapping of any address space |
| `Pmap.PageMap.PageLookup` | kern/pmap.c:536-546 | agrees with the abstract map from virtual page to frame and permissions |
| `Pmap.PageMap.PageRemove` | kern/pmap.c:563-573 | deletes exactly one key of one address space, keeps the contents of pages in use and frees the page with its last reference |
| `Pmap.PageMap.PageInsert` | kern/pmap.c:504-523 | updates exactly one key of one address space, also for a page already mapped there; the processor then lets user mode read or write the page exactly as the permissions say; -E_NO_MEM exactly without a table and a free page, and then nothing changes |
| `Pmap.PageMap.InsertInTable` | kern/pmap.c:509-522 | the part after the walk: replace, re-insert or map afresh, with the right reference counts and with directory entries that forbid nothing |
| `Pmap.PageMap.EnvSetupVm` | kern/env.c:177-217 | a new address space is empty below UTOP and shares the kernel's above, with its own directory at UVPT |
| `Pmap.PageMap.EnvFreeVm` | kern/env.c:433-476 | after the nested loops every page, table and directory of the environment is given back and nobody else's mapping changed |
| `Pmap.PageMap.ClearTable` | kern/env.c:463-468 | the inner loop empties one page table and nothing else |
| `Pmap.PageMap.BootMapRegion` | kern/pmap.c:458-477 | exactly the pages that the size takes, rounded up, become mapped to consecutive frames in the kernel directory; every page in use keeps its count; fails only when no page is free for a table that one of the pages still needs |
| `VmLemmas.LinkInv` | kern/pmap.c:519-521 | mapping a page keeps the whole memory invariant: counts, ownership of tables, free list |
| `VmLemmas.UnlinkInv` | kern/pmap.c:568-572 | unmapping a page keeps it, and frees the page exactly with its last reference |
| `VmLemmas.PutSpace` | kern/pmap.c:504-523 | a write to one page-table word changes one key of one address space, because no table is shared or mapped |
| `VmTables.NewTableInv` | kern/pmap.c:434-443 | attaching a fresh page table keeps the invariant |
| `VmTables.NewTableSpace` | kern/pmap.c:434-443 | attaching a fresh page table changes no address space |
| `VmTables.FreeTableInv` | kern/env.c:470-472 | giving back an empty page table keeps the invariant |
| `VmTables.NewDirInv` | kern/env.c:203-214 | a new page directory keeps the invariant |
| `VmTables.FreeDirInv` | kern/env.c:474-477 | giving back an empty page directory keeps the invariant |
| `VmTables.UserPageIsMapped` | kern/pmap.c:299-403 | a user page always has a mapping somewhere |
| `VmTables.NoEnvsAllFree` | kern/env.c:433-482 | without environments every page outside the kernel is free |
| `VmBoot.RegionAt` | kern/pmap.c:458-477 | the region as a map, entry by entry |
| `VmBoot.PutKernelInv` | kern/pmap.c:473 | a kernel mapping keeps the memory invariant |
| `VmTheorems.RefCountsNames` | kern/pmap.c:299-403 | pp_ref of an allocatable page is the number of present user entries, directory entries and live directories that name it, and is 0 exactly for the free pages |
| `VmTheorems.CountsSurviveIff` | inc/memlayout.h:187 | a 16-bit count holds that number exactly when there are at most 65535 names |
| `VmTheorems.UvptShowsTheTables` | inc/memlayout.h:149-166 | what a program reads through uvpt and uvpd is its own page-table entry |
| `VmTheorems.UserAccessIff` | kern/pmap.c:433-442 | through both levels of the tables user mode reads, and writes, exactly the pages of its address space that have PTE_U, and PTE_W |
| `VmTheorems.AboveUtopIsShared` | kern/env.c:208-214 | every environment has the kernel's entries above UTOP |
| `VmTheorems.InsertAboveUtop` | kern/syscall.c:360-365 | a page sent to a receiver that listens at or above UTOP replaces a kernel mapping in every environment, puts the kernel's own page on the free list, and leaves a count that is wrong whatever the frames are said to be used for |
| `EnvIds.IdClosedForm` | kern/env.c:240-244 | identifiers are positive, carry their slot and run through 524287 generations in order |
| `EnvIds.IdsRepeatOnlyAfterPeriod` | kern/env.c:84-94 | two allocations have the same identifier exactly when they are of the same slot and a multiple of 524287 apart |
| `Env.Kernel.EnvInit` | kern/env.c:117-133 | all slots are free and the first allocation takes slot 0 |
| `Env.Kernel.Envid2Env` | kern/env.c:73-109 | the slot has this identifier and is not free; with permission checking it is the caller or a child of it |
| `Env.ResolvesIff` | kern/env.c:73-109 | an identifier resolves exactly if some environment has it, with permission checking exactly if that is the caller or a child of it |
| `Env.Kernel.EnvAlloc` | kern/env.c:227-289 | each error exactly when due and without effect; on success the head slot gets a fresh identifier and an empty address space, the others keep theirs |
| `Env.Kernel.EnvFree` | kern/env.c:433-482 | the slot is free again, its memory is given back, nobody else's mapping changed |
| `Env.Kernel.EnvDestroy` | kern/env.c:489-507 | a zombie if it runs elsewhere, freed otherwise; the current environment is then gone exactly if it was the one destroyed |
| `Env.Kernel.SysExofork` | kern/syscall.c:81-100 | each error exactly when due and without effect; on success a child that is not runnable and has no pages |
| `Env.Kernel.SysEnvSetStatus` | kern/syscall.c:109-128 | each error exactly when due; only that status changes |
| `Env.Kernel.SysPageAlloc` | kern/syscall.c:192-222 | each error exactly when due and without effect on any address space; on success one page becomes a private page of zeros |
| `Env.Kernel.SysPageMap` | kern/syscall.c:240-275 | each error exactly when due and without effect; on success one page maps the source's frame, never with more write access |
| `Env.Kernel.SysPageUnmap` | kern/syscall.c:284-299 | each error exactly when due; on success one page is unmapped |
| `Env.Kernel.SysIpcRecv` | kern/syscall.c:388-402 | the caller listens at that address, for anybody, and stops being runnable, or -E_INVAL for a misaligned address below UTOP |
| `Env.Kernel.SysIpcTrySend` | kern/syscall.c:339-375 | each error exactly when due and without effect; on success sender, value and, with a page, its permissions are delivered, and a page sent to an address in (0, UTOP) becomes a mapping of the same frame |
| `Env.RecvThenSend` | kern/syscall.c:339-402 | a receive at an address and a send to it: the page appears there, the same frame with the permissions sent, and the receiver is told; or an error exactly when due |
| `KernelRuns.RunAll` | kern/syscall.c:52-402 | over any sequence of calls by any environments counts stay exact and the free list stays the pages with count 0; with no environment before and after, exactly the same pages are free |
| `KernelRuns.FreePagesConserved` | kern/env.c:433-482 | creating and destroying environments neither loses nor gains a page |
| `Ipc.SendsMatchReceives` | kern/syscall.c:339-402 | over every run what receives returned is what was sent, in order, up to one message a woken receiver still holds |
| `Ipc.RecvWaits` | kern/syscall.c:380-402 | a receiver waits at the address it names, and the next message is accepted and wakes it |
| `Ipc.WokenKeepsMessage` | kern/syscall.c:348-349 | no send can overwrite a woken receiver's message |
| `Ipc.ReceiverGetsTheAcceptedMessage` | lib/ipc.c:22-37 | the receiver returns exactly that sender's identifier and value |
| `Ipc.PermTellsPageIff` | lib/ipc.c:10-12 | the stored permission tells whether a page came exactly when one came or the field was zero before |
| `Ipc.PermZeroIffNoPage` | kern/syscall.c:352-371 | over every run the stored permission is zero exactly while no page has ever been accepted in that slot |
| `Ipc.PermTellsPageOverRuns` | lib/ipc.c:10-12 | so after any run from a cleared slot it tells whether a page came exactly when one came or none ever had |
| `Ipc.StalePermission` | kern/syscall.c:360-365 | a plain message after a page shows the old permission |
| `Cow.DupIsolated` | lib/fork.c:62-85 | after duppage no private writable page has a second mapping, whatever the mappings were |
| `Cow.DupInterleaved` | lib/fork.c:74-80 | so too when the parent faults any number of times after duppage has looked at its page and between its two calls |
| `Cow.MarkingIsNeeded` | lib/fork.c:53-57 | without the second call one such fault leaves the parent a writable page that the child maps too |
| `Cow.HandledIsOwnFault` | lib/fork.c:14-49 | the faults that the handler deals with are of that kind |
| `Cow.FaultHandled` | lib/fork.c:14-49 | the two halves of the fault handler leave a private writable copy and disturb nobody |
| `Cow.StoreIsPrivate` | lib/fork.c:62-85 | a store shows through another mapping only if both are PTE_SHARE mappings of the page |
| `Cow.ForkReadsAlike` | lib/fork.c:103-138 | right after fork parent and child read what the parent read before; shared pages are mapped alike |
| `Cow.ForkKeepsStores` | lib/fork.c:62-85 | after fork both sides can store to exactly the pages that the parent could store to before |
| `Fork.Store` | lib/fork.c:42 | a store to a user page reaches no page table and changes no address space |
| `Fork.CopyPage` | lib/fork.c:42 | memmove of a page copies all of it and changes nothing else |
| `Fork.PgFault` | lib/fork.c:14-49 | succeeds exactly if the page is copy-on-write and there are pages for the copy at PFTEMP; then the page is a private writable copy and PFTEMP is unmapped; a failure has no effect; nobody else is affected |
| `Fork.Duppage` | lib/fork.c:62-85 | both mappings as prescribed, or each error exactly when due and no effect; isolation is kept |
| `Fork.DupAll` | lib/fork.c:118-127 | the loop duplicates exactly the parent's pages from UTEXT to USTACKTOP |
| `Fork.Fork` | lib/fork.c:103-138 | on success a runnable copy-on-write twin with its own exception stack; a failure leaves a page that the child lacks and cannot get; nobody else is affected |
| `Fork.ForkedRefs` | lib/fork.c:118-127 | fork at most doubles a page's reference count |
| `CowRuns.UserWrite` | lib/fork.c:14-49 | a store instruction with its fault: succeeds exactly on a writable page, or a copy-on-write one if there are pages for the copy; every environment's memory afterwards, word by word |
| `CowRuns.StoreAfterFork` | lib/fork.c:14-138 | after a fork, with two pages left, a store by parent or child to a page that the parent could store to succeeds and is read back |
| `CowRuns.ChildWriteSeenByParent` | lib/fork.c:103-138 | after fork the parent sees a store by the child exactly on a writable shared page |
| `CowRuns.RunAll` | lib/fork.c:14-138 | over any run of allocate, fork, write, unmap and exit: a private writable page has one mapping, and an environment that does nothing keeps its address space and private memory |
| `CowSteps.StepInv` | lib/fork.c:14-138 | every load and call of duppage, every fault, store, allocation, unmapping and exit of any environment keeps the invariant: a private page with two mappings is writable only between duppage's two calls for it |
| `CowSteps.IsolatedOverRuns` | lib/fork.c:62-85 | over every interleaving of all these, no private writable page has a second mapping whenever no environment is between those calls |
| `CowSteps.StoreSeenBy` | lib/fork.c:74-80 | a store shows at another mapping only if both are shared, or if it is that of the child whose page is between the two calls |
| `CowSteps.FaultUnseen` | lib/fork.c:36-48 | a fault leaves every page of the faulting environment, but PFTEMP, reading as it did, and the page itself writable |
| `CowSteps.OwnActs` | kern/syscall.c:170-310 | an allocated page is mapped as asked and zero, an unmapped one is gone, an exit leaves nothing, a fork begins with an embryo, and no other page of the actor changes |
| `CowSteps.FinishGivesStack` | lib/fork.c:128-136 | the child ends up with what it was given and a zeroed exception stack of its own |
| `CowSteps.UndisturbedOverRuns` | lib/fork.c:103-138 | over every such run an environment that runs but does nothing keeps its private pages, whatever the others do and however their forks are interleaved |
| `CowSteps.ChildGetsMarkedPage` | lib/fork.c:74-80 | the child starts with each page as it was when the parent marked its own |
| `CowSteps.UninterruptedDup` | lib/fork.c:62-85 | without anything in between, the look and the calls are the one step of Cow.Dup |
| `Files.FileSystem.AllocBlock` | fs/fs.c:54-73 | the first free block from 1 on, or -E_NO_DISK exactly when there is none |
| `Files.FileSystem.FreeBlock` | fs/fs.c:38-44 | that block and no other becomes free |
| `Files.FileSystem.FileBlockWalk` | fs/fs.c:135-171 | each error exactly when due; a new indirect block is the only block that stops being free, and changes nothing that any file contains |
| `Files.FileSystem.FileGetBlock` | fs/fs.c:181-201 | afterwards the file has the block, or still has none and the disk is full; of the free blocks at most that one and the file's indirect block are taken; nothing that any file contains changes |
| `Files.FileSystem.FileRead` | fs/fs.c:370-393 | returns exactly the clipped range, and then every byte of it has its block; -E_NO_DISK only with a byte of the range still in a hole on a full disk, -E_INVAL only past the largest file; it succeeds whenever all the blocks were there; no contents change |
| `Files.FileSystem.FileWrite` | fs/fs.c:399-421 | exactly the written range of that file changes and the size becomes the maximum; a failure, for the same reasons as of a read, has written a prefix; it succeeds whenever all the blocks were there |
| `Files.FileSystem.FileFreeBlock` | fs/fs.c:425-439 | each error exactly when due; that block of the file is marked free and no longer named |
| `Files.FileSystem.FileTruncateBlocks` | fs/fs.c:450-467 | for any file type, exactly the blocks from the new size on, and the indirect block when due, are marked free and no longer named |
| `Files.FileSystem.FileSetSize` | fs/fs.c:470-477 | for any file type: every block still has its owner exactly if no dropped block holds a record with blocks, and otherwise no assignment of owners does; kept blocks keep their bytes, other files are unchanged |
| `Files.CheckBitmap` | fs/fs.c:79-93 | passes exactly if block 0, the super block and every bitmap block are marked in use |
| `Files.FsInit` | fs/fs.c:99-117 | start-up passes exactly for the right magic number, a size within the cache's range and reserved blocks in use; what passes satisfies the invariant exactly if its records agree with the bitmap beyond the reserved blocks |
| `FsLemmas.NewDataInv` | fs/fs.c:189-196 | a new data block keeps ownership: every block named by one slot, every slot below the size |
| `FsLemmas.NewTableInv` | fs/fs.c:159-164 | a new indirect block keeps it |
| `FsLemmas.ForgottenInv` | fs/fs.c:450-477 | giving back blocks that hold no record with blocks keeps it, for files and directories |
| `FsLemmas.LostOwner` | fs/fs.c:450-477 | otherwise a block in use is named by nobody, whatever the blocks are said to be used for |
| `FsBytes.PutBytesInv` | fs/fs.c:415 | a store to one block changes the bytes of one block of one file |
| `FsTheorems.OneOwner` | fs/fs.c:28-73 | the boot block, the super block and the bitmap are in use and named nowhere; of the other blocks a free one is named nowhere and one in use in exactly one place of one file |
| `FsTheorems.InvConserves` | fs/fs.c:28-93 | so no block is lost or used twice on a disk that satisfies the invariant |
| `FsTheorems.Reachable` | fs/fs.c:282-333 | every record can be reached from the root directory |
| `FsTheorems.TruncateFrees` | fs/fs.c:450-467 | for any file type, a block is free after a change of size exactly if it was, or lay beyond the new size, or was the indirect block no longer needed |
| `FsTheorems.ReadIsPread` | fs/fs.c:367-393 | a successful read is pread on the file's bytes |
| `FsTheorems.WriteIsPwriteIff` | fs/fs.c:395-421 | a successful write is pwrite exactly when the gap it leaves held zeros |
| `FsTheorems.WriteKeepsOthers` | fs/fs.c:399-421 | every other file keeps its bytes |
| `FsTheorems.ResizeKeepsTailIff` | fs/fs.c:470-477 | bytes beyond the end stay zero exactly when the rest of the new last block is zero |
| `FsTheorems.GrownPartIsZeroIff` | fs/fs.c:456-460 | after a shrink and a growth the new part reads zero exactly when the kept block's rest was zero |
| `FsRuns.RunAll` | fs/fs.c:341-477 | any run of reads, writes, changes of size and creations, on the files present at each point, behaves as on a store of byte strings that keeps what a shrink leaves in the last block; every failure is explained by the disk at that point; every block has its one owner throughout |
| `FsRuns.StepIsPlain` | fs/fs.c:367-477 | on files with nothing left over beyond their ends, an operation that leaves nothing over is pread, pwrite or ftruncate |
| `FsRuns.RunIsPlain` | fs/fs.c:367-477 | and so a whole run of such operations is a run of a plain store |
| `Format.StaleByte` | fs/fs.c:456-460 | a two-byte file cut to one byte and grown again reads the byte that was cut off |
| `Format.RootCutOff` | fs/serv.c:188-208 | setting the size of a root directory with one file to 0 leaves that file's block without owner |
| `PathNames.SlashSeparates` | fs/fs.c:267-310 | the components of a/b are those of a followed by those of b, for all strings: extra slashes make no difference |
| `PathNames.OneComponent` | fs/fs.c:303-309 | a name without slashes is one component |
| `FsDirs.KeepsWalk` | fs/fs.c:282-333 | if names keep their meaning so does every path |
| `FsDirs.GrownKeepsNames` | fs/fs.c:207-233 | blocks that a search allocates change no name's meaning |
| `FsDirs.RenameAddsName` | fs/fs.c:354 | naming a blank record adds that one name and changes no other |
| `FsDirs.AddedWalk` | fs/fs.c:341-358 | a path to the new name leads to it and every path that led somewhere still does |
| `FsDirs.ChangedDirsOk` | fs/fs.c:370-477 | reading, writing and resizing a file keep names distinct and records in order |
| `FsDirs.ResizeKeepsDirsIff` | fs/fs.c:216-218 | setting a directory's size keeps directories in order exactly if the size is whole blocks |
| `FsDirs.GrownUnblocks` | fs/fs.c:207-233 | a search that is blocked after holes have been filled was blocked before |
| `FsDirs.WholeIsClear` | fs/fs.c:282-333 | if no directory has a hole or is overlong, no path is blocked |
| `FsDirs.AddedClear` | fs/fs.c:341-358 | the way to a file just created is clear |
| `Paths.DirLookup` | fs/fs.c:207-233 | finds the one file of that name or reports that there is none; breaks off only at a missing block that it comes to, which is still missing on a full disk, or at one beyond the largest file; once done, the blocks it reads are there |
| `Paths.BlankEntry` | fs/fs.c:245-258 | the first nameless record, or none in the directory, or broken off for the same reasons |
| `Paths.DirAllocFile` | fs/fs.c:237-265 | the first nameless record of the directory, which grows by a block only if it has none; no name, entry or byte changes |
| `Paths.SkipSlashAt` | fs/fs.c:268-274 | skips exactly the slashes |
| `Paths.WalkPath` | fs/fs.c:282-333 | what it reports is a function of the component list: file and directory, missing last component, not found or bad path; it breaks off only where one of the searches on that path was blocked and still is, and otherwise leaves the path clear |
| `Paths.FileOpen` | fs/fs.c:362-365 | the file that the components lead to, or the error that they call for, exactly if the path is clear afterwards |
| `Paths.FileCreate` | fs/fs.c:341-358 | afterwards the path leads to a new empty file and is clear, and all other paths still lead where they did; it fails for want of a block only if the path is blocked, or the directory had no nameless record, and the block is still missing; an error changes no path and no byte |
| `Paths.CreateThenOpen` | fs/fs.c:341-365 | after a successful creation, opening any path with the same components yields that file |
| `FormatSpec.RoundUps` | fs/fsformat.c:34 | the macro on unsigned and on int: equal but for 0, which the int version rounds up to a block |
| `Format.Formatter.Alloc` | fs/fsformat.c:81-89 | hands out consecutive blocks; the panic exactly when the disk is exceeded |
| `Format.Formatter.OpenDisk` | fs/fsformat.c:91-120 | the three system blocks and nothing else are laid out |
| `Format.Formatter.FinishFile` | fs/fsformat.c:134-148 | the record names the consecutive blocks, through an indirect block from ten blocks on; other slots keep what they held |
| `Format.Formatter.WriteFile` | fs/fsformat.c:180-209 | fails exactly for a large file, too many files or a full disk; otherwise one more record and, if the name ends before the slots that are not used, one more file with its data |
| `Format.AddedRecord` | fs/fsformat.c:158-167 | the copied name leaves the unused slots zero if it ends before them, and spoils one if it does not |
| `Format.Formatter.FinishDir` | fs/fsformat.c:169-178 | the records go behind the files; the root's size and slots |
| `Format.Formatter.FinishDisk` | fs/fsformat.c:122-128 | exactly the blocks laid out are marked in use |
| `FormatSpec.AddedSound` | fs/fsformat.c:134-148 | adding a file keeps every block owned by one slot |
| `FormatSpec.FinishedInv` | fs/fsformat.c:122-178 | the finished image with at least one file satisfies the file system's invariant |
| `FormatSpec.FinishedFile` | fs/fsformat.c:180-209 | every file is found under its name and holds its data |
| `Format.FsFormat` | fs/fsformat.c:218-243 | succeeds exactly when everything fits; the image satisfies the invariant exactly if there is a file and no name runs into an unused slot, and then holds every file's data, found by name if the name has less than 128 bytes |
| `Format.EmptyImageIsUnsound` | fs/fsformat.c:169-178 | without files the root names a free block, so no assignment of uses satisfies the invariant |
| `Format.SpoiledImageIsUnsound` | fs/fsformat.c:164 | a record with a slot beyond its size breaks the invariant as well |
| `Format.LongName` | fs/fsformat.c:164 | a one-byte file with a name of 200 bytes gives such an image |
| `BlockCache.Cache.DiskAddr` | fs/bc.c:5-11 | an address exactly for blocks 1 up to the disk's size |
| `BlockCache.Cache.BcPgfault` | fs/bc.c:27-66 | the page is mapped clean with the disk's contents; the view is unchanged; the panic exactly for a block off the disk or free |
| `BlockCache.Cache.FlushBlock` | fs/bc.c:75-95 | the block on disk equals the view, which is unchanged, as are all other blocks |
| `BlockCache.Cache.FileFlush` | fs/fs.c:483-498 | the record's block and the indirect block of the file are on disk; so are all its data blocks if it has at most 0x7ffff000 bytes, and otherwise every other block stays as it was, on disk and in the cache; the view is unchanged and no free block is read |
| `BlockCache.FlushBound` | fs/fs.c:488 | the loop's bound in signed 32-bit arithmetic is the number of blocks up to that size, and negative beyond it |
| `BlockCache.FlushMisses` | fs/fs.c:488-494 | beyond that size a dirty data block is not on disk after the call |
| `Format.ByteNotFlushed` | fs/fs.c:483-498 | a file written, set to 0x7fffffff bytes and flushed, whose first block is not on disk |
| `BlockCache.Cache.Record` | fs/fs.c:483-498 | the record read through the cache is the file's, without a panic |
| `BlockCache.Cache.Slot` | fs/fs.c:135-171 | so is the slot, directly or through the indirect block |
| `BlockCache.ReachedInUse` | fs/bc.c:60-64 | no block that the file system comes to, from the reserved ones, a record, a slot or an indirect block number, is free |
| `BlockCache.Cache.FsSync` | fs/fs.c:501-506 | every block from 1 up is on disk; the view is unchanged |
| `BlockCache.Cache.Load` | fs/bc.c:27-66 | a load sees the view, whether or not it faults; the panic exactly for a block that is free and not mapped |
| `BlockCache.Cache.Store` | fs/bc.c:27-66 | a store changes the view at that block only; the panic exactly for a block that is free and not mapped |
| `BlockCache.Cache.Evict` | kern/pmap.c:510-516 | unmapping a clean page leaves the view unchanged |
| `BlockCache.RunAll` | fs/bc.c:27-95 | over any run of loads, stores, flushes, evictions and changes of the bitmap every load returns what a plain disk would hold; a run ends early only at a load or store of a block that is free then |
| `OpenFiles.OpenTable.ServeInit` | fs/serv.c:50-60 | identifiers start at the slot number |
| `OpenFiles.OpenTable.OpenfileAlloc` | fs/serv.c:63-84 | the first slot that no client maps gets its next identifier; -E_MAX_OPEN exactly when all are mapped, -E_NO_MEM only for a slot whose page is not allocated yet |
| `OpenFiles.OpenTable.ResolvesIff` | fs/serv.c:87-96 | an identifier resolves exactly while some client maps the page of the open that it was given for |
| `OpenFiles.OpenTable.MapFd` | fs/serv.c:178-181 | one more client has the page |
| `OpenFiles.OpenTable.UnmapFd` | lib/fd.c:100-119 | one client less has it |
| `OpenFiles.OpenTable.ClientResolves` | fs/serv.c:63-96 | a client's identifier resolves to its own open while it keeps the page |
| `OpenFiles.OpenTable.OnlyOwnOpen` | fs/serv.c:63-96 | an identifier resolves exactly to the open it was given for, if that is the slot's last and still mapped |
| `OpenFiles.OpenTable.UsableIff` | fs/serv.c:80 | the identifier is non-negative as an int exactly for the first 2097151 opens of a slot |
| `OpenFiles.IdsRepeatIff` | fs/serv.c:77 | identifiers of a slot repeat exactly every 4194304 opens |
| `KernelLock.StepInv` | kern/trap.c:317-377 | every step of every CPU keeps the lock, the CPUs' positions and the environments' states consistent |
| `KernelLock.StaysReady` | kern/env.c:539-570 | an environment that is runnable or running stays so under every step of every CPU, unless it waits for a message itself or the step sets its status or destroys it |
| `KernelLock.StaysParked` | kern/syscall.c:339-402 | one that waits goes on waiting until a message makes it runnable |
| `KernelLock.PickSwaps` | kern/env.c:559-562 | a context switch leaves the environment that ran on the CPU runnable and concerns nobody else |
| `KernelLock.ReadyOverRuns` | kern/env.c:539-570 | both over every run |
| `KernelLock.Lifecycle` | inc/env.h:32-39 | every way that the status of an environment can change, and by which step |
| `KernelLock.TakesEffect` | kern/trap.c:342-377 | what is asked for happens: a status is set, a destroyed environment goes or is left to be collected, a zombie is collected when it traps, and a trap returns to an environment that still runs |
| `KernelLock.IdleOnlyIfNobodyReady` | kern/sched.c:33-50 | a CPU halts or keeps its environment only if no environment is runnable |
| `KernelLock.MutualExclusion` | kern/spinlock.c:60-116 | for any number of CPUs and every interleaving: the lock is held exactly when one CPU is in the kernel, released by its holder, never taken twice, and no environment is current on two CPUs |
| `KernelLock.StartInv` | kern/init.c:48-53 | the state at boot |
| `KernelLock.SetStatusShares` | kern/syscall.c:120-125 | setting the status of an environment on another CPU lets two CPUs share it |
| `KernelLock.DestroyTwiceShares` | kern/env.c:494-500 | destroying a dying environment lets two CPUs share its slot |
| `KernelLock.WakeReceiver` | kern/syscall.c:120-125 | making a blocked receiver runnable lets it run while it still counts as waiting |
| `KernelLock.WokenEarlyShares` | kern/syscall.c:366-369 | then a message to it lets two CPUs share it |
| `Sched.Scan` | kern/sched.c:32-42 | the first runnable slot in scan order, or none exactly if there is none among the scanned |
| `Sched.SchedYield` | kern/sched.c:11-50 | the next environment: the first in scan order, else the current one, else none; none exactly if no scanned slot is runnable and the current one is not running |
| `Sched.ChosenSoon` | kern/sched.c:32-47 | an environment that stays runnable is chosen within NENV - 1 yields, or NENV if none was current, provided that with the last slot current it is not in slot 0 and the word behind the table does not read as runnable |
| `Sched.Closer` | kern/sched.c:33-37 | a yield that passes over it gets strictly closer, under the same condition |
| `Sched.SlotZeroSkipped` | kern/sched.c:33-35 | with the last slot current the scan never looks at slot 0 |
| `Sched.Starved` | kern/sched.c:33-35 | and a runnable slot 0 can be passed over any number of times |
| `Sched.BeyondChosen` | kern/sched.c:33-37 | with the last slot current and that word reading as runnable the scan ends outside the table |
| `PipeClose.StepInv` | lib/fd.c:100-119 | every system call of dup, close and fork, and every load of the check, keeps the invariant |
| `PipeClose.DupOverRuns` | lib/fd.c:174-202 | dup, whatever other processes do between its calls: the new slot is what the old one is, or empty if a call failed, and no other slot of the process changes |
| `PipeClose.DupRun` | lib/fd.c:174-202 | without interruption nothing else changes at all, and the descriptor page gains exactly the new slot as a reference |
| `PipeClose.DupToItself` | lib/fd.c:174-202 | dup of a slot to itself loses it |
| `PipeClose.EndsBelowData` | lib/pipe.c:185-190 | the pipe page has at least as many references as both ends together, unless a fork is going on or has failed |
| `PipeClose.EndsEqualData` | lib/fd.c:174-202 | and exactly as many when no dup or close is in flight |
| `PipeClose.ClosureDetection` | lib/pipe.c:75-89 | over every run, forks included: never "closed" while the other end is open anywhere, unless a fork is going on or has failed, and exact when no dup or close is in flight |
| `PipeClose.CheckEnds` | lib/pipe.c:75-89 | the check returns exactly with counts that belong together and otherwise starts over |
| `PipeClose.MidForkLooksClosed` | lib/fork.c:118-127 | a run in which a process is told that the write end is closed while a process that is just forking has it open |
| `PipeClose.ForkAll` | lib/fork.c:118-137 | a fork whose calls all succeed gives the child what the parent has |
| `PipeFifo.StepInv` | lib/pipe.c:104-172 | every load and store of reader and writer, with positions that wrap at 32 bits, keeps the invariant |
| `PipeFifo.Fifo` | lib/pipe.c:104-172 | for every interleaving what came out is a prefix of what went in, with at most 32 bytes between, and the positions are the counts as signed integers |
| `PipeFifo.InBufferIff` | lib/pipe.c:152-168 | the writer's index lies in the buffer exactly for the first 2^31 + 1 bytes; the reader's always does |
| `PipeFifo.SeesTheTruth` | lib/pipe.c:118-153 | a byte or room is seen exactly when there is one |
| `PipeFifo.EndOfFileIff` | lib/pipe.c:118-125 | over every run, when a read returns end of file the writer has closed, and all bytes have been delivered exactly if none was written between the look at the positions and the question whether the writer is gone |
| `PipeFifo.EndAfterClose` | lib/pipe.c:118-125 | in particular if the writer had closed when the reader looked |
| `PipeFifo.ByteAfterEnd` | lib/pipe.c:118-125 | a run with end of file and an undelivered byte, which another read finds |
| `Upcall.Push` | kern/trap.c:424-460 | the frame holds the trap-time context and nothing but the frame is written; or the environment is destroyed, exactly if it has no upcall or cannot write there; with an unmapped page below the exception stack the frame fits its page |
| `Upcall.Restore` | lib/pfentry.S:68-93 | when its store does not fault: the context in the frame is back and only the word below its stack pointer and the frame's copy of it are written, if that word is outside the frame; if it is that copy, the stack pointer becomes the instruction pointer |
| `Upcall.UpcallReturnsIff` | lib/pfentry.S:34-93 | to any depth of nested faults, those of the return code's own store included, the faulting code resumes with its registers, flags, stack pointer and instruction exactly if its stack pointer was not UXSTACKTOP, or its instruction was at UXSTACKTOP - 4 |
| `Upcall.UpcallKeepsMemory` | kern/trap.c:424-460 | on the exception stack everything from the trap-time stack pointer up is untouched; elsewhere everything that the handlers' own steps leave alone, but for the word below the stack pointer |
| `Upcall.Misled` | kern/trap.c:427-436 | with the stack pointer at UXSTACKTOP even a handler that does nothing does not get back |
| `Upcall.GoesBelow` | kern/trap.c:428-437 | a handler, with all faults inside it, never disturbs its own frame or what its own steps leave alone; an instruction that only faults is tried again in the same context |
| `Upcall.HandledIntact` | lib/pfentry.S:68-72 | the frame, with its stack pointer already lowered, survives the faults of the store of the return address |
| `Upcall.FramesApart` | kern/trap.c:428-437 | a nested frame lies wholly below the outer one |
| `Malloc.Allocator.IsFree` | lib/malloc.c:29-39 | exactly whether all the pages are unmapped and below mend |
| `Malloc.Allocator.FindSpace` | lib/malloc.c:83-93 | terminates with the first free address space, looking from the bump pointer to the end and then from the beginning, or after having looked everywhere in vain |
| `Malloc.Allocator.MapPages` | lib/malloc.c:98-105 | all the pages, or none when memory runs out |
| `Malloc.Allocator.Malloc` | lib/malloc.c:41-112 | a new live chunk, on the current page if it fits and else on the first pages in a row that were unmapped, that keeps the heap in order; null exactly if the request is too large, or does not fit the page and there are too few pages or holes |
| `Malloc.Allocator.Free` | lib/malloc.c:114-139 | the chunk is gone, its pages with it, the last one exactly with its last reference |
| `Malloc.ChunksAreSafe` | lib/malloc.c:29-139 | live chunks overlap neither each other nor a reference count and lie in mapped pages |
| `Malloc.RunAll` | lib/malloc.c:29-139 | any sequence of calls keeps the heap in order; without page-multiple requests every count is exact |
| `Malloc.WholePageLeaks` | lib/malloc.c:107-110 | a request that is a multiple of the page size leaves its last page with a count nobody drops |
| `Malloc.ReachesMendIff` | lib/malloc.c:70-75 | leaving a page takes the bump pointer to mend exactly if it was in the last page, and otherwise keeps the heap in order |
| `Malloc.FillArea` | lib/malloc.c:41-112 | a run of 128 requests after which a request for two words makes it reach mend |
| `Malloc.PastTheEndIff` | lib/malloc.c:29-39 | from mend on an address counts as free exactly if the chunk's end wraps around, and such an address is above UTOP |
| `Malloc.SearchFromMend` | lib/malloc.c:83-93 | the search from mend on ends, for a page or more, at the first page from which the chunk wraps around, where nothing can be allocated; for less, at address 0, exactly if nothing is mapped there |
| `HeapSpec.BumpInv` | lib/malloc.c:64-68 | a chunk on the current page keeps the heap invariant |
| `HeapSpec.MoveOnInv` | lib/malloc.c:73-74 | leaving the current page keeps it |
| `HeapSpec.PlaceInv` | lib/malloc.c:98-110 | a chunk on new pages keeps it |
| `HeapSpec.ReleaseInv` | lib/malloc.c:124-138 | freeing a chunk keeps it |
| `Stab.TurnShrinks` | kern/kdebug.c:65-98 | every turn of the loop decreases the measure, also the exact match that leaves the bounds alone |
| `Stab.StabBinsearch` | kern/kdebug.c:59-111 | terminates with the outcome of the search, for every table and address |
| `Stab.FindsTheEntry` | kern/kdebug.c:23-57 | with sorted entries, one at or below the address, and not both the address and its successor present: the last such entry, and the bound before the next |
| `Stab.CrossedIff` | kern/kdebug.c:41-43 | for sorted entries, not both the address and its successor among them, the bounds come back crossed exactly when no entry has the type |
| `Stab.Overshoots` | kern/kdebug.c:90-97 | with both present the search can return the successor |

## Left out

- Env.Kernel.SysPageMap: pp_ref is a 16-bit field; the call is modelled for pages with fewer than 65535 references, and VmTheorems.CountsSurviveIff says when a count fits.
- Env.Kernel.SysExofork: the copy of the caller's trap frame, with 0 as its result, is not modelled.
- Cow.ForkReadsAlike: the stores that fork itself makes to its stack while it copies are not part of this statement; CowSteps.ChildGetsMarkedPage says what they do to the child.
- Env.Kernel.SysIpcTrySend: a page is sent only to a receiver that listens below UTOP; VmTheorems.InsertAboveUtop says what the code does otherwise. The same 16-bit guard applies.
- Fork.Fork: reference counts leave room for doubling; set_pgfault_handler and the upcall address are not modelled; nothing else happens during the call, which is what `CowSteps` is about; a page marked PTE_SHARE without PTE_U makes it fail.
- CowRuns.UserWrite: not for a store to the page PFTEMP, which the fault handler itself uses.
- CowSteps.StepInv: the fault handler is one act; no page is both PTE_SHARE and PTE_COW; pages do not travel by IPC.
- Fork.PgFault: the fault is taken to be a write, which the handler cannot check because the kernel overwrites the error code with the trap number.
- Files.FileSystem.FileRead: regular files only; reading a directory's records as bytes is not modelled.
- Files.FileSystem.FileWrite: regular files only, and offset plus count within a signed 32-bit integer.
- Files.FileSystem.FileSetSize: non-negative sizes.
- Files.FileSystem.FileGetBlock: only for blocks below the file's size, as all its callers ask for; beyond it a block could be allocated that truncation would not find.
- Files.FileSystem.AllocBlock: the bitmap is one flag per block rather than bits of 32-bit words, and its flush belongs to the block cache.
- BlockCache.Cache.BcPgfault: the bitmap is a field of its own, so the fault that reading the bitmap may itself take is not modelled; disk reads and writes do not fail.
- BlockCache.Cache.Record: the contents of the super block, which hold the root's record, are a parameter.
- Format.FsFormat: base names are given, and that a long one spoils the image is stated for names of at most 255 bytes, which is what host file systems allow; the entries that malloc returns are taken to be zero, as the image needs them to be; host file errors are left out.
- Malloc.Allocator.Malloc: the bump pointer does not step from the last page to mend; Malloc.ReachesMendIff and Malloc.SearchFromMend say when it would and where the search ends then. How many pages the kernel has left is a parameter.
- Upcall.Push: stack pointers are multiples of four, and at most UXSTACKTOP.
- PipeFifo.EndOfFileIff: that the question whether the writer is gone is answered rightly is PipeClose.ClosureDetection; what follows a store outside the buffer is not modelled.
- PipeClose.ClosureDetection: one CPU, no spawn, env_runs does not wrap around.
- KernelLock.MutualExclusion: the guard on sys_env_set_status and env_destroy is a precondition; the three lemmas named above show that each part of it is needed. Which runnable environment the scheduler picks is left open there and settled in `Sched`.
- Stab.FindsTheEntry: the condition that the address and its successor do not both occur is sufficient; whether the search overshoots otherwise depends on which entries it happens to compare with.
- Device drivers, boot code, console, PCI and network card: hardware protocols.
- TLB invalidation, segment registers, saved trap frames other than for upcalls, and the accessed and dirty bits outside the block cache.
- ELF loading, spawn, the shell, the user programs and the self-checks in the source.
- The network stack.
- ipc_send's retry loop, the file server's request loop and its one-page reply buffer.
- Crash consistency of the file system.
- Fairness of the spin lock, and progress in general apart from the scheduler's bound.
