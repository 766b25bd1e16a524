# Verified models of xv6's storage, memory and user-level algorithms

This project models, in Dafny, the parts of the xv6 teaching kernel and of a small link-state router
whose correctness is not visible in any one function, and proves it. Verify everything with

    dafny verify dfyconfig.toml

## What is modelled

**Crash-safe storage.** `LogFormat` treats a disk as blocks with atomic, ordered writes and proves
the all-or-nothing property of one commit at every crash point. `BufferCache` is bio.c, with its
pointer ring, reference counts and recycling. `Log` is the code of log.c over that cache, as a class
whose methods perform exactly those disk writes and give back exactly the references they take.
`LogRuns` is the protocol: any interleaving of operations, references to buffers, evictions, group
commits, crashes and recoveries that may themselves be cut; `LogProgress` has the runs that get
through to the end. `LogClients` is what the log gives to whoever changes the disk in operations.

**File system.** `FsBitmap`, `FsLayout` and `FsOps` are the bitmap's bytes, block allocation, the
direct and indirect block map, and byte-level reading and writing, with everything an operation
logs. `Links` is directories and link counts over create, link, unlink, the freeing of inodes and
the sweep at boot. `DirFormat` and `Volume` put the two together: directories as the content of
files, and the system calls on them. `FsCrash` runs those as clients of the log, so that every disk
a crash can leave holds, once recovered, a sound file system.

**Memory.** `Kalloc` is the page allocator, with its list threaded through the free pages. `Sv39` is
the three-level tree in physical memory and the map it stands for; `Vm`, `VmSpace` and `VmFree` are
the operations of vm.c over them, from walk to fork and exit. `ProcMem` puts all processes into one
memory: who owns which page, over every operation that changes it.

**Protocols.** `SleepLock` is a step system for sleep-locks over sleep and wakeup, with kill,
preemption, and processes that hold several locks or sleep for other reasons; `SleepCalls` is what
the callers of acquiresleep and releasesleep see of it. `Virtio` is the descriptor table and the two
rings shared with the disk device (sections 2.6 and 5.2 of Virtio 1.1).

**Algorithms.** `Umalloc` is the Kernighan and Ritchie allocator, `LinkState` the router's
shortest-path search, `ShellGrammar` and `ShellParser` the shell's command parser, `ShellSyntax` the
language it accepts, and `Grep` the regular-expression matcher.

## How to read the model

Where the source changes state in place, the model is a class or a method over arrays, sequences and
maps with the source's own loops, and `Valid()` (or `Sound()`) says what every operation keeps. A
panic of the source is an outcome of its own where a run can reach it, with the exact condition;
elsewhere it is a precondition of the method that would reach it, or an `assert`, and its callers
are proved to meet it. Error returns are modelled as results. C's wrap-around is written out where
it matters: 16-bit ring indices and link counts, 32-bit sectors and file offsets, the int argument
of sbrk. Ghost state (page-table shape, block owners, the free list as a sequence, links still
pending, the history of a run) appears in specifications only.

Findings, stated as exact conditions:

- `LogRuns.CommitProceeds`, `Log.Log.Commit`, `LogRuns.FullLogPanics`: NBUF and LOGBLOCKS are both
  30, so a transaction that fills the log pins every buffer, and end_op's commit panics in bget. Up
  to its header write it goes on exactly while logged blocks plus other held blocks stay below NBUF;
  afterwards each installed block loses its pin, and it goes on with more.
- `ProcMem.Machine.FreeProc`, `Fault`, `Fork`, `Grow`, `Shrink`: sbrk does not bound a size that
  grows lazily. Exit panics exactly above MAXVA, a fault exactly from MAXVA on, fork and eager
  growth when they come to the trapframe page with memory left, and shrinking from above TRAPFRAME
  frees the trapframe that is still in use. `ProcMem.FreePanics` and the runs after it reach each.
- `Links.CreateKeeps`, `Links.WholeLinkKeeps`, `Volume.Files.Link`: link counts stay right exactly
  while the 16-bit count has room and the directory is still linked. create() and link() in a
  directory that has been removed but is still open break them: sysfile.c does not test the
  directory's count. `Links.CreateInRemoved` and `Links.LinkInRemoved` are runs that do it.
- `FsOps.FileSystem.TruncOp`, `FsOps.FileSystem.UnlinkOp`, `FsOps.ScatteredFile`: freeing a file logs
  the bitmap blocks its blocks lie in, so it stays within MAXOPBLOCKS exactly when these are at most
  nine; for an unlink at most seven are always enough. A disk with ten bitmap blocks or more can hold
  a file that breaks it. Writes, links and creations always stay within.
- `Umalloc.SbrkArgFits`, `Umalloc.Heap.Malloc`: a malloc that must grow, for more than 2^31 - 32
  bytes, asks sbrk for less than it then uses, because sbrk's parameter is an int.
- `LinkState.GetShortestPath`: an unreachable destination gives the source router alone, as if it
  had been found, and one advertised link to an unknown router on any route makes every query throw.
- `ShellParser.ParserInvertsPrinter`, `ShellSyntax.TooManyWords`: MAXARGS is 10, but a tenth argument
  is refused.
- `Virtio.SectorsApart`: a block number from 2^31 on is told to the device as the sector of another
  block, because the product is computed in 32 bits.
- `Virtio.RoomForTwo`: eight descriptors allow two requests in flight, never three.
- `Vm.MapPages`: a failing mappages leaves the pages before the failure mapped; `VmSpace.UvmAlloc`
  and `VmSpace.UvmCopy` undo them, `VmFree.ProcPagetable` gives them back with the table. Its second
  error exit is dead: once the trampoline is mapped, the trapframe needs no page.
- `ProcMem.Machine.Grow`: a size in the last page below 2^64 rounds up to 0, so growing from it maps
  from page 0 and never succeeds; a sum that wraps is reported as success and adds nothing.

## Model

| member | source | states |
|---|---|---|
| `LogFormat.HeadRoundTrip` | xv6-labs-2025/kernel/log.c:88-115 | reading a header block that write_head filled gives back exactly the block list it was given; the count is in the first word, block i of the list in word i + 1, and the words behind stay |
| `LogFormat.RecoveredIsImage` | xv6-labs-2025/kernel/log.c:118-124 | a finished recovery leaves at every home block what the header and log promised, and an empty header |
| `LogFormat.CutRecoveryKeepsImage` | xv6-labs-2025/kernel/log.c:67-84 | a recovery cut after any of its disk writes changes nothing of what a later recovery will produce |
| `LogFormat.CutRecoveriesKeepImage` | xv6-labs-2025/kernel/log.c:118-124 | the same for any number of recoveries one after the other, each cut anywhere |
| `LogFormat.CommitCutEarly` | xv6-labs-2025/kernel/log.c:195-204 | a commit cut before its header write leaves every home block's recovered value old |
| `LogFormat.CommitCutLateImage` | xv6-labs-2025/kernel/log.c:195-204 | a commit cut anywhere after its header write leaves every home block's recovered value new |
| `LogFormat.CommitComplete` | xv6-labs-2025/kernel/log.c:195-204 | an uncut commit installs exactly the logged blocks and leaves the header empty |
| `LogFormat.CommitIsAtomic` | xv6-labs-2025/kernel/log.c:66-204 | a commit cut after any prefix of its writes, any number of cut recoveries, then a finished one: home blocks are all old or all new, all new exactly when the first header write reached the disk, and the header ends with n = 0 |
| `LogRuns.StepInv` | xv6-labs-2025/kernel/log.c:127-236 | every step of every operation, buffer reference, eviction, commit, crash and recovery keeps the protocol invariant |
| `LogRuns.RunInv` | xv6-labs-2025/kernel/log.c:127-236 | so every run does |
| `LogRuns.BootsAndCrashes` | xv6-labs-2025/kernel/log.c:53-63 | every disk with a legal header boots; the machine can crash in every state, and then only the disk is left of it and the durable groups are what they were |
| `LogRuns.RecoveredIsWholeGroups` | xv6-labs-2025/kernel/log.c:127-236 | in every state of every run, recovering the disk gives the boot content with a whole number of group commits played over it |
| `LogRuns.OperationsAreAtomic` | xv6-labs-2025/kernel/log.c:127-176 | each operation's writes are all, in order, in one durable group, or in none |
| `LogRuns.RunningView` | xv6-labs-2025/kernel/log.c:216-236 | while the system runs, bread shows the durable groups plus the open transaction, whatever has been evicted |
| `LogRuns.EvictionIsHarmless` | xv6-labs-2025/kernel/bio.c:72-83 | outside a recovery every unpinned block shows what the disk holds, so recycling the buffer of an unreferenced block changes nothing that bread shows, also between the writes of a commit |
| `LogRuns.DurableForever` | xv6-labs-2025/kernel/log.c:195-204 | a durable operation stays durable through every later step, crash and recovery |
| `LogRuns.CommittedOpsAreDurable` | xv6-labs-2025/kernel/log.c:148-176 | when a commit ends, every operation of its transaction that logged anything is durable |
| `LogRuns.NoPanic` | xv6-labs-2025/kernel/log.c:127-176 | the log plus all unspent budgets fits in LOGBLOCKS, committing excludes open operations, and no panic of log_write or end_op itself can be reached by a client within its budget |
| `LogRuns.WaitersAreWoken` | xv6-labs-2025/kernel/log.c:127-176 | a sleeping begin_op always has an open operation or a commit left that wakes it, and when the commit ends there is room |
| `LogRuns.CommitProceeds` | xv6-labs-2025/kernel/log.c:178-204 | a commit under way always has a next step, and takes it exactly when the blocks still pinned and the other blocks held are fewer than NBUF: while logged blocks plus other held blocks stay below NBUF it never panics in bget, and before its header write that is exact |
| `LogRuns.RecoveryProceeds` | xv6-labs-2025/kernel/log.c:117-124 | a recovery under way can always take its next step: nothing is referenced and it reads at most two buffers at a time |
| `LogRuns.FullLogPanics` | xv6-labs-2025/kernel/log.c:127-204 | from every boot there is a run of three operations that log ten blocks each, within budget, and end, and whose commit panics in bget with all NBUF buffers pinned |
| `LogProgress.CommitRun` | xv6-labs-2025/kernel/log.c:178-204 | a commit under way, with a buffer left beside those of logged and held blocks, can be run to its end, and makes the open transaction one durable group exactly once |
| `LogProgress.OperationRun` | xv6-labs-2025/kernel/log.c:127-236 | with nothing else going on, any operation of up to MAXOPBLOCKS log_writes can be run from begin_op to the end of its commit, and becomes the next durable group, whole and in order |
| `LogProgress.FirstOperation` | xv6-labs-2025/kernel/log.c:53-236 | from every boot there is such a run, after which a recovery gives what the first one gave with exactly these writes played over it |
| `LogClients.MoveInv` | xv6-labs-2025/kernel/log.c:127-236 | every step of the log, and every start and end of an operation's changes, keeps a client's property of the home blocks durable and in view |
| `LogClients.RecoveredIsGood` | xv6-labs-2025/kernel/log.c:127-236 | if every operation turns home blocks with a property into ones with it and logs each block in which they differ, recovering the disk of any reachable state gives home blocks with the property, however many operations are open and wherever crashes fall |
| `LogClients.WithinBudget` | xv6-labs-2025/kernel/log.c:215-236 | an operation that has to change at most MAXOPBLOCKS blocks can log each of them: its reservation lasts and log_write does not panic |
| `LogClients.OperationRuns` | xv6-labs-2025/kernel/log.c:127-236 | such an operation can be carried through when as many buffers are left, and bread then shows exactly what it was to bring about |
| `Log.Log.constructor` | xv6-labs-2025/kernel/log.c:53-63 | initlog over an empty cache: afterwards cache and disk show the recovered disk, reached by exactly recovery's writes, and nothing is referenced |
| `Log.SpareIffFewer` | xv6-labs-2025/kernel/bio.c:72-88 | a buffer is unreferenced exactly when the pinned and held blocks are fewer than the buffers |
| `Log.Log.ReadHead` | xv6-labs-2025/kernel/log.c:87-98 | the in-memory list becomes the one encoded on disk, and the buffer is given back |
| `Log.Log.WriteHead` | xv6-labs-2025/kernel/log.c:103-115 | one disk write, of the encoded list, through one buffer; it fails exactly when none is unreferenced |
| `Log.Log.LogBlock` | xv6-labs-2025/kernel/log.c:184-190 | one turn of write_log's loop over two buffers: the log block is written, both are given back, and it panics exactly when no buffer is unreferenced |
| `Log.Log.WriteLog` | xv6-labs-2025/kernel/log.c:179-192 | writes the cached blocks, in order, to the log, and changes no home block; fails exactly when no buffer is unreferenced, before writing anything |
| `Log.Log.InstallBlock` | xv6-labs-2025/kernel/log.c:71-83 | one turn of install_trans's loop over two buffers: the home block is written and, when not recovering, loses its pin |
| `Log.Log.InstallTrans` | xv6-labs-2025/kernel/log.c:66-84 | writes log blocks, in order, to their homes, and unpins exactly them when not recovering; it cannot fail |
| `Log.Log.RecoverFromLog` | xv6-labs-2025/kernel/log.c:117-124 | performs exactly the disk writes of the recovery that the crash proofs are about, through the cache |
| `Log.Log.Commit` | xv6-labs-2025/kernel/log.c:194-204 | performs exactly the disk writes, in order, of the commit that the crash proofs are about, and leaves every reference as it was; it fails exactly when something is logged and no buffer is unreferenced, before writing anything |
| `Log.Log.BeginOp` | xv6-labs-2025/kernel/log.c:126-143 | admits exactly when no commit runs and the log has room for one more full budget |
| `Log.Log.Read` | xv6-labs-2025/kernel/bio.c:92-103 | a client's bread of a home block: the buffer shows the block, and it panics exactly when the block is not cached and every buffer is referenced |
| `Log.Log.LogWrite` | xv6-labs-2025/kernel/log.c:215-236 | the block shows the data, is appended or absorbed, and a new one is pinned |
| `Log.Log.Release` | xv6-labs-2025/kernel/bio.c:116-137 | a client's brelse: the pins of log_write ensure that the last reference to a buffer goes only when it holds what the disk holds |
| `Log.Log.EndOp` | xv6-labs-2025/kernel/log.c:147-166 | the last operation out sets committing, any other only counts down |
| `Log.Log.FinishOp` | xv6-labs-2025/kernel/log.c:168-176 | the commit of the whole transaction, with begin_op refusing until it is over |
| `Log.FullLogPanics` | xv6-labs-2025/kernel/log.c:127-204 | three operations of ten blocks each, run on the code through the cache, end in that panic |
| `Sv39.PteRoundTrip` | xv6-labs-2025/kernel/riscv.h:385-390 | frame and flags come back out of a page-table entry, the frame from bit 10 up |
| `Sv39.FlagBits` | xv6-labs-2025/kernel/riscv.h:372-376 | V is bit 0 of an entry, R, W and X the next three, U bit 4: an entry is valid, a leaf, or writable by the user, exactly as these say |
| `Sv39.PxInjective` | xv6-labs-2025/kernel/riscv.h:392-395 | pages with the same three indices are the same page |
| `Sv39.PxSurjective` | xv6-labs-2025/kernel/riscv.h:392-395 | every index triple below MAXVA belongs to a page |
| `Sv39.HardwareAgrees` | xv6-labs-2025/kernel/vm.c:84-115 | a three-level walk as the MMU does it (section 4.4 of the RISC-V Privileged Architecture) finds exactly the entry the tree's map holds, and faults elsewhere |
| `Sv39.SetLeaf` | xv6-labs-2025/kernel/vm.c:159-168 | storing one leaf entry changes the translation of its page and of no other; table pages do not alias |
| `Sv39.AddTable` | xv6-labs-2025/kernel/vm.c:102-112 | hanging a zeroed table into the tree changes no translation |
| `Kalloc.PhysMem.constructor` | xv6-labs-2025/kernel/kalloc.c:33-40 | freerange puts exactly the pages of the range on the free list, each once |
| `Kalloc.PhysMem.Kalloc` | xv6-labs-2025/kernel/kalloc.c:68-82 | pops one page, filled with junk, or reports 0 exactly when the list is empty |
| `Kalloc.PhysMem.Kfree` | xv6-labs-2025/kernel/kalloc.c:46-63 | pushes the page and changes no other page |
| `Vm.NewTable` | xv6-labs-2025/kernel/vm.c:105-110 | a kalloc'ed zeroed table: no translation changes, and 0 only when memory is used up |
| `Vm.Walk` | xv6-labs-2025/kernel/vm.c:97-115 | finds the leaf slot of the page; with alloc it changes no translation and fails only when memory is used up; without alloc it changes nothing |
| `Vm.MapPage` | xv6-labs-2025/kernel/vm.c:159-168 | one turn of mappages' loop |
| `Vm.MapPages` | xv6-labs-2025/kernel/vm.c:145-174 | on success exactly the range is mapped, to consecutive frames with the flags plus V; on failure exactly a prefix of it; all other pages keep their translation |
| `Vm.UnmapPage` | xv6-labs-2025/kernel/vm.c:202-210 | one turn of uvmunmap's loop |
| `Vm.UvmUnmap` | xv6-labs-2025/kernel/vm.c:192-212 | exactly the range is unmapped, and with do_free exactly the frames it mapped return to the free list, each once |
| `VmSpace.UvmAlloc` | xv6-labs-2025/kernel/vm.c:216-240 | ends exactly as GrowOutcome says from the free pages, the missing tables and the first page that is mapped or beyond MAXVA: done, failed or panicked; done, the range is mapped to fresh zeroed frames; failed, every translation is as before and every frame taken is back |
| `VmSpace.GrowEnough` | xv6-labs-2025/kernel/vm.c:216-240 | growing over unmapped pages below MAXVA succeeds with three free pages for each of them, whatever tables are missing, and fails with less than one |
| `VmSpace.UvmDealloc` | xv6-labs-2025/kernel/vm.c:246-258 | unmaps the whole pages above the new size and frees exactly their frames; panics exactly when one of them is beyond MAXVA or maps a frame outside allocatable memory |
| `VmSpace.VmFault` | xv6-labs-2025/kernel/vm.c:452-473 | panics exactly for a fault from MAXVA up to a larger size; else maps one zeroed page at the address exactly when it is below sz, unmapped and memory suffices, and otherwise changes no translation |
| `VmSpace.UvmCopy` | xv6-labs-2025/kernel/vm.c:296-324 | ends exactly as CopyOutcome says: done, the child maps the same pages with the same flags and bytes in fresh frames; failed, it has no new mapping and every frame is back; the parent keeps its tree |
| `VmSpace.CopyEnough` | xv6-labs-2025/kernel/vm.c:296-324 | copying into an empty space succeeds with three free pages for each page the parent maps, and fails with less than one |
| `VmSpace.ForkIsolates` | xv6-labs-2025/kernel/vm.c:296-324 | after a fork no store through one space can change what the other reads: its bytes, its tables and its translations stay |
| `VmSpace.OwnedGrows` | xv6-labs-2025/kernel/vm.c:228-236 | mapping a fresh frame keeps every user frame owned by one page |
| `VmSpace.GrownUndone` | xv6-labs-2025/kernel/vm.c:234-236 | undoing a partial growth restores the translations and the frames |
| `VmSpace.CopiedUndone` | xv6-labs-2025/kernel/vm.c:321-323 | undoing a partial copy restores the child and the frames |
| `VmFree.FreeWalk` | xv6-labs-2025/kernel/vm.c:262-278 | frees every table page of an emptied tree exactly once, never meeting a leaf |
| `VmFree.UvmFree` | xv6-labs-2025/kernel/vm.c:282-288 | returns all user frames below PGROUNDUP(sz) and all table pages, each once; panics exactly for sizes above MAXVA |
| `VmFree.UvmCreate` | xv6-labs-2025/kernel/vm.c:178-187 | an empty tree on one fresh page, or nothing |
| `VmFree.ProcPagetable` | xv6-labs-2025/kernel/proc.c:176-206 | trampoline and trapframe are mapped and nothing else, exactly when three pages are free; a failure returns every page it took, and only its first error exit can be taken |
| `VmFree.ProcFreePagetable` | xv6-labs-2025/kernel/proc.c:210-216 | for every size up to MAXVA every page the process owned returns to the free list exactly once and freewalk's panic is not reached; it panics exactly for larger sizes |
| `ProcMem.OnePlace` | xv6-labs-2025/kernel/kalloc.c:46-82 | while the partition holds, every physical page is in exactly one place: the free list, the kernel, or one table, one mapping or the trapframe of one process |
| `ProcMem.Replaced` | xv6-labs-2025/kernel/proc.c:110-216 | an operation of one process that touches only free pages and its own keeps the partition, and every other process sees the same translations and bytes |
| `ProcMem.Removed` | xv6-labs-2025/kernel/proc.c:155-172 | so does freeing a process whose pages are all back on the free list |
| `ProcMem.OtherKept` | xv6-labs-2025/kernel/vm.c:145-174 | a process none of whose pages is touched keeps its translations, its bytes and its pages |
| `ProcMem.AllPagesAre` | xv6-labs-2025/kernel/proc.c:110-216 | the pages of the processes, added up process by process, are as many as the pages any process owns: none is counted twice |
| `ProcMem.PagesAddUp` | xv6-labs-2025/kernel/kalloc.c:46-82 | conservation: in every state that keeps the partition, free pages, kernel pages and the pages of each process add up to the memory there is; with no process left every page is back |
| `ProcMem.PairOk` | xv6-labs-2025/kernel/proc.c:256-275 | the partition gives fork what it needs: nothing the parent maps is free or a table of the child |
| `ProcMem.GrownKept` | xv6-labs-2025/kernel/proc.c:243-246 | growing without a clash leaves the process owning its frames one page each, and accounts for every page |
| `ProcMem.ShrunkKept` | xv6-labs-2025/kernel/proc.c:247-249 | shrinking below the trapframe likewise |
| `ProcMem.CopiedKept` | xv6-labs-2025/kernel/proc.c:268-275 | copying into a new process likewise |
| `ProcMem.FaultKept` | xv6-labs-2025/kernel/vm.c:464-472 | mapping one page on a fault likewise |
| `ProcMem.Machine.constructor` | xv6-labs-2025/kernel/kalloc.c:26-40 | the partition holds at boot, when every page is free or the kernel's |
| `ProcMem.Machine.AllocProc` | xv6-labs-2025/kernel/proc.c:109-151 | allocproc keeps the partition and all other processes; it succeeds exactly when four pages are free, and otherwise takes none |
| `ProcMem.Machine.Grow` | xv6-labs-2025/kernel/proc.c:236-252 | growproc by n > 0 for every 64-bit size: keeps the partition and all other processes unless it panics, and ends exactly as GrowOutcome says from the rounded size on; a sum that wraps changes nothing |
| `ProcMem.Machine.Shrink` | xv6-labs-2025/kernel/proc.c:236-252 | growproc by n < 0 for every 64-bit size: panics exactly when the size reaches the trampoline page, and keeps the partition exactly when it does not free the trapframe under the process; a request for more than the size changes nothing |
| `ProcMem.Machine.Fork` | xv6-labs-2025/kernel/proc.c:255-303 | kfork: the child holds the same memory exactly when the size stays below the trapframe and the stated number of pages is free; it panics exactly when the size covers the trapframe and memory lasts to there; a failure leaves nothing behind |
| `ProcMem.Machine.CopySpace` | xv6-labs-2025/kernel/proc.c:268-275 | uvmcopy from one process to an empty one keeps the partition and all other processes unless it panics |
| `ProcMem.Machine.GrowLazily` | xv6-labs-2025/kernel/sysproc.c:50-61 | a lazy sbrk keeps the partition and takes no page; it refuses exactly sizes that wrap |
| `ProcMem.Machine.Fault` | xv6-labs-2025/kernel/vm.c:452-473 | vmfault keeps the partition and all other processes, and panics exactly for a fault from MAXVA up to a larger size |
| `ProcMem.Machine.UserStore` | xv6-labs-2025/kernel/vm.c:145-174 | a user's store through any virtual address, as the MMU carries it out: it goes through exactly at a page below the size whose entry has W and U, changes one word of a frame of the process's own, and keeps the partition, the process's translations and all other processes |
| `ProcMem.Machine.FreeProc` | xv6-labs-2025/kernel/proc.c:155-172 | every page of the process returns to the free list, for every size up to MAXVA; it panics exactly beyond |
| `ProcMem.FreePanics` | xv6-labs-2025/kernel/proc.c:155-172 | a run: a process that sbrk has lazily brought one byte past MAXVA cannot be freed |
| `ProcMem.FaultPanics` | xv6-labs-2025/kernel/vm.c:452-473 | a run: a fault at MAXVA in that process panics |
| `ProcMem.GrowPanics` | xv6-labs-2025/kernel/proc.c:236-252 | a run: growing by one byte from a lazily reached TRAPFRAME panics while a page is free |
| `ProcMem.ShrinkLosesTrapframe` | xv6-labs-2025/kernel/proc.c:236-252 | a run: shrinking from one page above TRAPFRAME puts the process's own trapframe on the free list |
| `ProcMem.ForkPanics` | xv6-labs-2025/kernel/proc.c:255-275 | a run: forking from that size panics |
| `SleepLock.StepInv` | xv6-labs-2025/kernel/proc.c:539-608 | every step of acquire, sleep, wakeup, release, kill and preemption keeps the invariant |
| `SleepLock.RunInv` | xv6-labs-2025/kernel/proc.c:539-608 | so every interleaving does |
| `SleepLock.LeavesWithLock` | xv6-labs-2025/kernel/sleeplock.c:25-30 | in every reachable interleaving a process about to return from acquiresleep has set locked and pid, and no other process has |
| `SleepLock.NoLostWakeup` | xv6-labs-2025/kernel/sleeplock.c:21-41 | when the inner spinlock is free and locked is 0, nobody is asleep on the lock or committed to sleeping on it |
| `SleepLock.SleeperHasHolder` | xv6-labs-2025/kernel/sleeplock.c:21-41 | a sleeper's lock has a holder; a holder that is asleep itself is in a sleep for another reason, or for a sleep-lock that is taken or whose waker has not yet passed it |
| `SleepLock.OrderedLocksDoNotDeadlock` | xv6-labs-2025/kernel/fs.c:302-305 | when processes wait only for locks of higher rank than those they hold, as inode before buffer, behind every sleeper some holder waits for no sleep-lock |
| `SleepLock.ReleaseWakesAll` | xv6-labs-2025/kernel/proc.c:570-584 | when releasesleep comes to its end no process is left asleep on the lock |
| `SleepCalls.MutualExclusion` | xv6-labs-2025/kernel/sleeplock.c:21-41 | over every run, told by the calls made and returned from alone: between the return of an acquiresleep and the call of its releasesleep no other process is there for the same lock, which is locked and names it |
| `SleepCalls.LockedBySomebody` | xv6-labs-2025/kernel/sleeplock.c:21-41 | a lock that is taken is so by a process between the two calls, about to return from the first, or just inside the second |
| `SleepCalls.SleepersAreAcquiring` | xv6-labs-2025/kernel/sleeplock.c:25-27 | a process asleep on a lock is inside a call of acquiresleep for it |
| `SleepCalls.WhoIsWoken` | xv6-labs-2025/kernel/proc.c:570-608 | a step wakes a sleeper exactly if it kills it, ends its sleep for another reason, or is the wakeup of its channel that has come to it |
| `SleepCalls.KillWakes` | xv6-labs-2025/kernel/proc.c:589-608 | kill makes a sleeper runnable and changes nothing else |
| `SleepCalls.PreemptAndResume` | xv6-labs-2025/kernel/proc.c:490-498 | a preempted process resumes as it was |
| `SleepCalls.AwayAndBack` | xv6-labs-2025/kernel/proc.c:539-567 | a process can sleep for another reason, be woken from that, and go on as it was |
| `SleepCalls.Boots` | xv6-labs-2025/kernel/sleeplock.c:12-19 | any number of running processes and free locks can start |
| `SleepCalls.AcquireFree` | xv6-labs-2025/kernel/sleeplock.c:21-31 | undisturbed, acquiresleep of a free lock takes it and returns, and changes nothing else |
| `SleepCalls.AcquireTaken` | xv6-labs-2025/kernel/sleeplock.c:21-27 | undisturbed, acquiresleep of a taken lock leaves the caller asleep on it, with the inner lock free, and changes nothing else |
| `SleepCalls.Release` | xv6-labs-2025/kernel/sleeplock.c:33-41 | undisturbed, releasesleep frees the lock, makes exactly the processes asleep on it runnable, and returns |
| `SleepCalls.WokenTakes` | xv6-labs-2025/kernel/sleeplock.c:25-31 | a process woken while the lock is free takes it and returns |
| `SleepCalls.HandOver` | xv6-labs-2025/kernel/sleeplock.c:21-41 | from every boot, for any two running processes and any lock: a run in which one has the lock while the other is asleep on it, and goes on until the other, woken, has it |
| `BufferCache.Unlinked` | xv6-labs-2025/kernel/bio.c:128-129 | taking a buffer out of the doubly linked ring leaves a ring of the others in order |
| `BufferCache.Pushed` | xv6-labs-2025/kernel/bio.c:130-133 | linking it behind the head leaves a ring with it first |
| `BufferCache.SortedMoved` | xv6-labs-2025/kernel/bio.c:124-134 | moving to the front keeps the ring ordered by last release |
| `BufferCache.ReplacedView` | xv6-labs-2025/kernel/bio.c:72-82 | replacing one buffer changes what the cache and disk show for no other block |
| `BufferCache.BCache.constructor` | xv6-labs-2025/kernel/bio.c:36-53 | binit: a ring of all buffers, none valid |
| `BufferCache.BCache.FindLru` | xv6-labs-2025/kernel/bio.c:72-83 | the least recently released of the free buffers, or none exactly when none is free |
| `BufferCache.BCache.Bget` | xv6-labs-2025/kernel/bio.c:58-89 | the buffer that caches the block, or the least recently released free one recycled; a buffer in use is never recycled, uniqueness is kept, and it fails only when the block is not cached and every buffer is in use |
| `BufferCache.BCache.Bread` | xv6-labs-2025/kernel/bio.c:92-103 | the buffer returned holds the block's content, and nothing any block shows has changed |
| `BufferCache.BCache.Bwrite` | xv6-labs-2025/kernel/bio.c:106-112 | the disk block becomes the buffer's data and no other |
| `BufferCache.BCache.Brelse` | xv6-labs-2025/kernel/bio.c:116-137 | drops one reference; the last one moves the buffer to the most recent end; no block's content changes |
| `BufferCache.BCache.Bpin` | xv6-labs-2025/kernel/bio.c:139-144 | one more reference and nothing else |
| `BufferCache.BCache.Bunpin` | xv6-labs-2025/kernel/bio.c:146-151 | one reference less and nothing else, while another is held |
| `FsLayout.WordRoundTrip` | xv6-labs-2025/kernel/fs.c:425-436 | a block number stored in an indirect block is read back, and its neighbours stay |
| `FsLayout.WordBytes` | xv6-labs-2025/kernel/fs.c:425-436 | its four bytes are stored low byte first, and no other byte of the block changes |
| `FsLayout.BitmapIsOwnership` | xv6-labs-2025/kernel/fs.c:66-106 | a bitmap bit is set exactly when its block is metadata or held by an inode slot, and then by one slot only |
| `FsLayout.LinkAddr` | xv6-labs-2025/kernel/fs.c:411-423 | giving a fresh block to an empty direct or indirect slot keeps ownership exact |
| `FsLayout.LinkEntry` | xv6-labs-2025/kernel/fs.c:426-437 | giving a fresh block to an empty indirect entry keeps ownership exact |
| `FsLayout.StoreData` | xv6-labs-2025/kernel/fs.c:545-549 | writing a data block changes no block address anywhere |
| `FsOps.FileSystem.Balloc` | xv6-labs-2025/kernel/fs.c:66-89 | the first free block, marked in the bitmap's bytes and zeroed; 0 exactly when every bit is set |
| `FsBitmap.MaskedBits` | xv6-labs-2025/kernel/fs.c:77-79 | setting or clearing a bit of a byte through its mask leaves the other seven |
| `FsBitmap.BitPlace` | xv6-labs-2025/kernel/fs.c:75-78 | block b's bit is bit b % 8, from the low end, of byte b % BPB / 8 of bitmap block b / BPB |
| `FsBitmap.BitSet` | xv6-labs-2025/kernel/fs.c:92-106 | setting or clearing block b's bit in the bitmap's bytes changes the bit of b and of no other block, across bytes and bitmap blocks |
| `FsBitmap.Mirrored` | xv6-labs-2025/kernel/fs.c:66-106 | so the bytes go on saying exactly which blocks are in use |
| `FsOps.FirstBitmap` | xv6-labs-2025/mkfs/mkfs.c:236-250 | mkfs's balloc marks exactly the first `used` blocks, which are those of the metadata, the root directory and the files |
| `FsOps.FileSystem.constructor` | xv6-labs-2025/mkfs/mkfs.c:93-111 | a disk of metadata only, before mkfs adds the root directory and the files, meets the invariant |
| `FsOps.FileSystem.Bfree` | xv6-labs-2025/kernel/fs.c:92-106 | clears, in the bitmap's bytes, exactly the bit of the block, which was set |
| `FsOps.FileSystem.Bmap` | xv6-labs-2025/kernel/fs.c:405-444 | the block's address, allocated if missing; ownership stays exact and no file's data changes, also when the disk is full half way; it fails exactly when fewer blocks are free than it needs, and takes exactly these |
| `FsOps.FileSystem.Readi` | xv6-labs-2025/kernel/fs.c:494-519 | exactly the slice of the file's bytes, allocating nothing |
| `FsOps.FileSystem.Writei` | xv6-labs-2025/kernel/fs.c:528-562 | the file becomes its old bytes overwritten from off by the bytes written, which are as many as the free blocks allow and no fewer: every missing block of the range takes one, and the indirect block one; -1 exactly out of bounds; other files unchanged; a write within the file allocates nothing |
| `FsOps.RoomForLess` | xv6-labs-2025/kernel/fs.c:539-555 | a shorter write never needs more free blocks, so what was written is the longest that had room |
| `FsOps.FileSystem.Itrunc` | xv6-labs-2025/kernel/fs.c:448-476 | the inode owns nothing any more, exactly the blocks it owned are free, exactly the bitmap blocks of these are logged, and other files are unchanged; "freeing free block" is not reached |
| `FsOps.FileSystem.WriteOp` | xv6-labs-2025/kernel/file.c:148-172 | one of filewrite's operations logs every block it changes and at most MAXOPBLOCKS distinct ones, on every path and from every file, so it stays within what begin_op reserved |
| `FsOps.FileSystem.TruncOp` | xv6-labs-2025/kernel/fs.c:448-476 | a truncation logs exactly the bitmap blocks of the file's blocks and the inode's block, so it stays within what begin_op reserved exactly when the file lies in at most nine bitmap blocks |
| `FsOps.ScatteredFile` | xv6-labs-2025/kernel/fs.c:448-476 | a sound disk with a file in ten bitmap blocks, which cannot be freed within the reservation |
| `FsOps.OverwriteReads` | xv6-labs-2025/kernel/fs.c:528-562 | what was written is read back, and every other byte as before |
| `FsOps.FileSystem.PutEntry` | xv6-labs-2025/kernel/fs.c:623-628 | an entry written into a directory is there whole or not at all, exactly as file size and free blocks allow; over an existing one it always succeeds and allocates nothing |
| `FsOps.FileSystem.LinkOp` | xv6-labs-2025/kernel/sysfile.c:123-170 | link logs every block it changes, at most six, and on its bad exit the bitmap blocks of a file that was unlinked meanwhile; it succeeds exactly when the entry has room |
| `FsOps.FileSystem.CreateOp` | xv6-labs-2025/kernel/sysfile.c:265-300 | create logs every block it changes, at most MAXOPBLOCKS; it succeeds exactly when its entries have room in the file size and the free blocks; its failure gives back all that the new inode had got, in bitmap blocks already logged |
| `FsOps.FileSystem.UnlinkOp` | xv6-labs-2025/kernel/sysfile.c:188-243 | unlink logs every block it changes: at most three and the bitmap blocks of the file it frees; its panic on the write is not reached |
| `FsOps.NewIsMarked` | xv6-labs-2025/kernel/sysfile.c:295-300 | every block that a new inode has come to own lies in a bitmap block that the operation has logged |
| `FsOps.TruncatedOwned` | xv6-labs-2025/kernel/fs.c:448-476 | truncation keeps ownership exact |
| `FsOps.WrittenStep` | xv6-labs-2025/kernel/fs.c:539-555 | one turn of writei's loop extends the written range by its chunk and touches no other byte |
| `FsOps.WrittenDone` | xv6-labs-2025/kernel/fs.c:557-559 | the loop's result and the new size together are the overwritten byte sequence |
| `Links.LinkKeeps` | xv6-labs-2025/kernel/sysfile.c:146-152 | entering a link already counted keeps the link-count invariant exactly when the directory is still linked |
| `Links.WholeLinkKeeps` | xv6-labs-2025/kernel/sysfile.c:120-162 | a whole link() keeps the invariant, with nothing left pending, exactly when the directory is still linked and the 16-bit count has room |
| `Links.LinkBreaks` | xv6-labs-2025/kernel/sysfile.c:146-152 | in a directory that has lost its links the result is inconsistent whatever links are taken to be pending and whatever depths are assigned |
| `Links.CountOverflows` | xv6-labs-2025/kernel/sysfile.c:140-142 | so is the result of counting a link when the 16-bit count is full |
| `Links.CreateKeeps` | xv6-labs-2025/kernel/sysfile.c:266-289 | create keeps it exactly when the directory is still linked and, for a new directory, its 16-bit count has room |
| `Links.CreateBreaks` | xv6-labs-2025/kernel/sysfile.c:266-289 | otherwise the result is inconsistent whatever links are taken to be pending and whatever depths are assigned |
| `Links.MadeConsistent` | xv6-labs-2025/mkfs/mkfs.c:117-170 | the root directory that mkfs writes is a consistent tree |
| `Links.Tree.constructor` | xv6-labs-2025/mkfs/mkfs.c:117-170 | so the invariant holds at first |
| `Links.CreateInRemoved` | xv6-labs-2025/kernel/sysfile.c:245-302 | a run: create a directory, unlink it while it is in use, create in it; the result is no tree however it is explained |
| `Links.LinkInRemoved` | xv6-labs-2025/kernel/sysfile.c:119-170 | a run: create a directory, unlink it while it is in use, link a file of the root into it; likewise |
| `Links.EmptyDirCounts` | xv6-labs-2025/kernel/sysfile.c:213-228 | an empty directory has one link, from its parent, so that unlink leaves it none |
| `Links.UnlinkKeeps` | xv6-labs-2025/kernel/sysfile.c:210-236 | unlink keeps the invariant and its panic is not reached |
| `Links.RecountKeeps` | xv6-labs-2025/kernel/sysfile.c:140-142 | a file's count may change exactly together with the links pending for it |
| `Links.ReclaimKeeps` | xv6-labs-2025/kernel/fs.c:337-363 | freeing an inode without links leaves no entry naming a free inode |
| `Links.DirectoryHasPath` | xv6-labs-2025/kernel/fs.c:674-707 | every linked directory is found from the root by some path |
| `Links.ReachableIffLinked` | xv6-labs-2025/kernel/fs.c:674-707 | an inode can be reached by a path exactly when its count exceeds the links still pending |
| `Links.Tree.DirLookup` | xv6-labs-2025/kernel/fs.c:574-598 | finds the first used slot with the name, or reports that there is none |
| `Links.Tree.DirLink` | xv6-labs-2025/kernel/fs.c:602-629 | enters a new name in the first vacant slot, or changes nothing; says exactly when |
| `Links.Tree.IsDirEmpty` | xv6-labs-2025/kernel/sysfile.c:173-186 | whether a directory holds nothing but "." and ".." |
| `Links.Tree.Iput` | xv6-labs-2025/kernel/fs.c:337-363 | the last reference to an inode without links frees it |
| `Links.Tree.LinkStart` | xv6-labs-2025/kernel/sysfile.c:123-143 | counts a link to come; keeps the invariant exactly when the 16-bit count has room |
| `Links.Tree.LinkFinish` | xv6-labs-2025/kernel/sysfile.c:145-170 | the entry is made in the first vacant slot, exactly when the name is new and has room, or the count is taken back, and the inode goes with its last link and reference |
| `Links.Tree.Create` | xv6-labs-2025/kernel/sysfile.c:245-302 | a name that exists gives its inode exactly when a file is asked for and it is a file or a device, and changes nothing; a new name gives the first free inode with exactly its entry and counts, or, exactly when there is none or no room, nothing |
| `Links.Tree.Unlink` | xv6-labs-2025/kernel/sysfile.c:188-243 | takes out exactly the named entry and one link; changes nothing exactly for a dot name, an absent name or a directory with entries; keeps the invariant |
| `Links.Tree.IReclaim` | xv6-labs-2025/kernel/fs.c:373-393 | frees exactly the inodes without links; after it every allocated inode is reachable |
| `DirFormat.DirentRoundTrip` | xv6-labs-2025/kernel/fs.h:56-59 | a struct dirent that dirlink wrote is read back with its inode number and name, for every name of at most DIRSIZ bytes |
| `DirFormat.DirentBytes` | xv6-labs-2025/kernel/fs.h:56-59 | the inode number is in the first two bytes, low byte first, the name in the bytes behind, and NULs to the end |
| `DirFormat.SlotsPut` | xv6-labs-2025/kernel/fs.c:616-626 | writing an entry over slot k of a directory's bytes is placing it in slot k of its entries |
| `DirFormat.SlotsDots` | xv6-labs-2025/kernel/sysfile.c:276-280 | the bytes of a new directory are its two entries |
| `Volume.NodesLinked` | xv6-labs-2025/kernel/sysfile.c:140-152 | what link writes into the directory's file is what `Links.LinkResult` says of the tree |
| `Volume.NodesCreated` | xv6-labs-2025/kernel/sysfile.c:265-289 | what create writes is what `Links.CreateResult` says |
| `Volume.NodesUnlinked` | xv6-labs-2025/kernel/sysfile.c:222-233 | what unlink writes is what `Links.UnlinkResult` says |
| `Volume.Files.ReadEntry` | xv6-labs-2025/kernel/fs.c:583-585 | readi gives the entry; dirlookup's panic is not reached |
| `Volume.Files.Find` | xv6-labs-2025/kernel/fs.c:574-598 | dirlookup on the bytes: the first used entry with the name, or none exactly when the name is not present |
| `Volume.Files.FindFree` | xv6-labs-2025/kernel/fs.c:616-621 | dirlink's search on the bytes: the first empty entry, or the end |
| `Volume.Files.IsDirEmpty` | xv6-labs-2025/kernel/sysfile.c:173-186 | isdirempty on the bytes |
| `Volume.Files.Write` | xv6-labs-2025/kernel/file.c:148-172 | a write into a file keeps the file system and the tree sound, changes no directory and no other file, logs all it changes and stays within the reservation; -1 exactly out of bounds, and short exactly as the free blocks run out |
| `Volume.Files.Truncate` | xv6-labs-2025/kernel/sysfile.c:363-365 | so does truncation on open, which frees exactly the blocks of the file, within the reservation exactly when it lies in at most nine bitmap blocks |
| `Volume.Files.Reclaim` | xv6-labs-2025/kernel/fs.c:337-363 | the last reference to an inode without links frees it and its blocks; file system and tree stay sound |
| `Volume.Files.Link` | xv6-labs-2025/kernel/sysfile.c:119-170 | link on the bytes ends as `Links` says, exactly when the inode is no directory, the name is new and the entry has room, or gives everything back; no other file changes; it keeps file system and tree sound exactly when the directory is still linked and the count has room |
| `Volume.Files.Create` | xv6-labs-2025/kernel/sysfile.c:245-302 | create on the bytes: a name that exists gives the inode its entry names, exactly when a file is asked for and that is a file or a device; a new name gives the first free inode with its entry and counts, or, exactly when there is no inode, no room in the directory or too few free blocks, nothing; no other file changes; sound exactly when the directory is still linked and has room in its count; always within the reservation |
| `Volume.Files.Unlink` | xv6-labs-2025/kernel/sysfile.c:188-243 | unlink on the bytes: refuses exactly a dot name, an absent name and a directory with entries; else exactly the named entry and one link go, and the inode with its blocks if nobody holds it; no other file changes; always sound |
| `Volume.Mkfs` | xv6-labs-2025/mkfs/mkfs.c:117-170 | mkfs's disk with its root directory is sound, and its tree is the root alone |
| `FsCrash.OnlyLoggedDiffer` | xv6-labs-2025/kernel/fs.h:45-51 | a block of the disk that a system call has not logged holds the same inodes, bitmap bytes or data as before |
| `FsCrash.WhereOnDisk` | xv6-labs-2025/kernel/fs.h:42-51 | inode n is in place n % IPB of block inodestart + n / IPB, and the bitmap bytes for block b are in block bmapstart + b / BPB |
| `FsCrash.DiskDetermines` | xv6-labs-2025/kernel/fs.h:32-51 | the disk determines bitmap, inodes and data, for every way of writing them into blocks that loses nothing |
| `FsCrash.FilesAreGood` | xv6-labs-2025/kernel/sysfile.c:119-302 | what a system call leaves, whenever it leaves `Files` valid, is a sound file system in the sense of the crash theorem |
| `FsCrash.EveryCrashLeavesGood` | xv6-labs-2025/kernel/log.c:117-236 | if the disk recovered at boot holds a sound file system (ownership exact, no holes, bitmap right, tree and link counts consistent), so does the disk recovered after any run of operations that each keep it sound, of commits, crashes and cut recoveries |
| `FsCrash.SystemCallRuns` | xv6-labs-2025/kernel/log.c:127-236 | a system call that logged at most MAXOPBLOCKS blocks can be carried through as a client of the log, and bread then shows the file system it left |
| `Virtio.Conserved` | xv6-labs-2025/kernel/virtio_disk.c:156-213 | free descriptors plus three for each chain in flight are always NUM |
| `Virtio.RoomForTwo` | xv6-labs-2025/kernel/virtio_disk.c:201-213 | at most two requests are in flight, and three descriptors can be had exactly when fewer are |
| `Virtio.SectorsApart` | xv6-labs-2025/kernel/virtio_disk.c:218 | the sector of a block starts at the block's own first byte exactly for block numbers below 2^31, so that these never overlap on the disk; from there on the product wraps to the sector of another block |
| `Virtio.SlotOf` | xv6-labs-2025/kernel/virtio_disk.c:272-277 | a 16-bit index and the unbounded count pick the same ring slot, also across the wrap |
| `Virtio.RoomInRing` | xv6-labs-2025/kernel/virtio_disk.c:272-274 | distinct waiting heads and a new one never fill the ring beyond its size |
| `Virtio.RingEmpty` | xv6-labs-2025/kernel/virtio_disk.c:308-324 | equal indices mean an empty queue, for both rings |
| `Virtio.RingPut` | xv6-labs-2025/kernel/virtio_disk.c:271-277 | a new head is written behind the waiting ones and overwrites none |
| `Virtio.RingTake` | xv6-labs-2025/kernel/virtio_disk.c:308-324 | the reader gets the oldest head and the rest stay |
| `Virtio.Disk.Alloc3` | xv6-labs-2025/kernel/virtio_disk.c:201-213 | three distinct free descriptors, or the free set exactly as before |
| `Virtio.Disk.FreeChain` | xv6-labs-2025/kernel/virtio_disk.c:185-197 | frees exactly the three descriptors of the chain, none of them already free |
| `Virtio.Disk.Submit` | xv6-labs-2025/kernel/virtio_disk.c:216-281 | must sleep exactly when two requests are in flight and then takes nothing; else publishes the request last in the ring |
| `Virtio.Disk.DeviceFetch` | xv6-labs-2025/kernel/virtio_disk.c:232-281 | the device, walking the chain from its head, finds exactly the request that was submitted: its direction, the 512-byte sector where its block begins for every block number below 2^31, its buffer, writable exactly for a read, and its status byte |
| `Virtio.Disk.DeviceComplete` | xv6-labs-2025/kernel/virtio_disk.c:258-261 | any taken request may complete; its status byte becomes 0 |
| `Virtio.Disk.Intr` | xv6-labs-2025/kernel/virtio_disk.c:294-327 | every completed request's buffer, and no other, stops waiting, each once; the status panic is not reached |
| `Virtio.Disk.Finish` | xv6-labs-2025/kernel/virtio_disk.c:283-291 | a requester that stops waiting finds its request complete and gives back its three descriptors, disturbing no other |
| `Umalloc.InsertedOk` | xv6-labs-2025/user/umalloc.c:33-42 | putting a block back and merging it keeps the list ordered and fully coalesced |
| `Umalloc.InsertedCells` | xv6-labs-2025/user/umalloc.c:33-42 | it covers exactly the old free units and the block's |
| `Umalloc.FreeLinks` | xv6-labs-2025/user/umalloc.c:33-42 | the pointer stores of free build exactly that list's circular chain |
| `Umalloc.Heap.Search` | xv6-labs-2025/user/umalloc.c:30-32 | the walk from freep ends at the one right place, also across the wrap point |
| `Umalloc.Heap.Free` | xv6-labs-2025/user/umalloc.c:24-44 | the block becomes free, nothing else does, and no unit is lost |
| `Umalloc.Heap.Morecore` | xv6-labs-2025/user/umalloc.c:46-61 | the new region joins the list and a large enough block exists; what sbrk has granted afterwards follows its int argument, which for a negative one is less than before; the heap stays within it exactly when that argument holds the request |
| `Umalloc.UnitsHold` | xv6-labs-2025/user/umalloc.c:69 | the units asked for have room for nbytes behind a header, and one unit less would not |
| `Umalloc.Heap.Malloc` | xv6-labs-2025/user/umalloc.c:63-90 | terminates; a fresh block with room for the bytes asked for and less than a unit to spare, the high end of a free block, disjoint from all live ones, with all units conserved; sbrk is asked at most once and only when nothing fits; 0 only when sbrk fails; the heap stays within what sbrk granted exactly for requests up to 2^31 - 32 bytes |
| `Umalloc.SbrkArgFits` | xv6-labs-2025/user/umalloc.c:51-55 | the int that sbrk receives is the size morecore goes on to use exactly for requests of at most 2^31 - 32 bytes |
| `LinkState.Relax` | LinkState_routing/src/main/java/socs/network/node/LinkStateDatabase.java:63-76 | one router's links: distances only fall, and the tree and queue invariants stay |
| `LinkState.Pop` | LinkState_routing/src/main/java/socs/network/node/LinkStateDatabase.java:57-61 | a pair of least distance leaves the queue |
| `LinkState.Search` | LinkState_routing/src/main/java/socs/network/node/LinkStateDatabase.java:45-77 | terminates; fails exactly when a route leads to a link that is not stored; else every reached router is settled |
| `LinkState.TreePath` | LinkState_routing/src/main/java/socs/network/node/LinkStateDatabase.java:73-86 | the parent chain is a route from the source no longer than the distance, so it has no cycle |
| `LinkState.Bounded` | LinkState_routing/src/main/java/socs/network/node/LinkStateDatabase.java:55-77 | no route is shorter than the distance found |
| `LinkState.ReadBack` | LinkState_routing/src/main/java/socs/network/node/LinkStateDatabase.java:79-91 | following parents and reversing gives a route of exactly the distance |
| `LinkState.Render` | LinkState_routing/src/main/java/socs/network/node/LinkStateDatabase.java:93-101 | the routers joined by "->" |
| `LinkState.FirstArrow` | LinkState_routing/src/main/java/socs/network/node/LinkStateDatabase.java:93-101 | one router alone is rendered as its name; of more, the first name ends at the first arrow and the rest is rendered behind it |
| `LinkState.JoinSnoc` | LinkState_routing/src/main/java/socs/network/node/LinkStateDatabase.java:93-101 | a further router adds an arrow and its name |
| `LinkState.JoinInjective` | LinkState_routing/src/main/java/socs/network/node/LinkStateDatabase.java:93-101 | the text determines the route, when no name has an arrow in it |
| `LinkState.GetShortestPath` | LinkState_routing/src/main/java/socs/network/node/LinkStateDatabase.java:34-105 | a reachable destination gets a route along stored links with fewest hops; a missing key's exception is thrown exactly when the destination is not stored or a route dangles; an unreachable one yields the source alone |
| `ShellGrammar.LineBack` | xv6-labs-2025/user/sh.c:350-365 | a written command at line level parses back to itself, leaving what follows |
| `ShellGrammar.ExecBack` | xv6-labs-2025/user/sh.c:405-452 | the same for simple commands, blocks and their redirections |
| `ShellGrammar.ParseInvertsPrint` | xv6-labs-2025/user/sh.c:333-452 | parsing a written command gives it back exactly when no command in it has more than nine arguments |
| `ShellGrammar.MapParseLine` | xv6-labs-2025/user/sh.c:333-452 | the parser never looks into words: renaming them commutes with parsing |
| `ShellSyntax.SimpleCommand` | xv6-labs-2025/user/sh.c:421-452 | words and redirections in any order: the words become the arguments and the redirections go around them, each in line order; ten words, a redirection without a file and a token that cannot follow each end in their own panic |
| `ShellSyntax.RedirectionSigns` | xv6-labs-2025/user/sh.c:390-400 | < opens for reading, > truncates, >> keeps what is there |
| `ShellSyntax.LineAccepted` | xv6-labs-2025/user/sh.c:350-452 | every line of the grammar, in front of whatever can follow a line, parses to what it means, or dies for the words of one of its commands |
| `ShellSyntax.AcceptsTheLanguage` | xv6-labs-2025/user/sh.c:333-452 | the parser accepts exactly the lines of the grammar with at most nine words in every command, each with its meaning |
| `ShellSyntax.TooManyWords` | xv6-labs-2025/user/sh.c:441-446 | a line of the grammar with ten words in one command dies for that |
| `ShellSyntax.Unbalanced` | xv6-labs-2025/user/sh.c:333-419 | a parenthesis that is not closed and one that was not opened end in their panics |
| `ShellParser.CharClasses` | xv6-labs-2025/user/sh.c:268-269 | which characters are skipped and which are part of words |
| `ShellParser.LexLaid` | xv6-labs-2025/user/sh.c:271-314 | for any blanks, tabs, newlines, carriage returns and vertical tabs around the tokens, at least one where two would run together, the tokens of the line are the ones written, with the same text |
| `ShellParser.LineIsLaid` | xv6-labs-2025/user/sh.c:271-314 | every line is such a writing of its tokens: nothing but blanks is ever dropped |
| `ShellParser.ParseLaid` | xv6-labs-2025/user/sh.c:333-348 | the parse of a line depends on its tokens alone, not on its blanks |
| `ShellParser.LinesMean` | xv6-labs-2025/user/sh.c:271-452 | every line of the grammar, with any blanks, is parsed to what it means, with the text of its words |
| `ShellParser.ParserInvertsPrinter` | xv6-labs-2025/user/sh.c:271-452 | for every command of legal words, parsing it as written with any blanks gives back the same tree and words, exactly when no command has more than nine arguments |
| `ShellParser.WordsAreStrings` | xv6-labs-2025/user/sh.c:455-499 | for every line that parses, once the ends are written each word is a C string of exactly its own characters |
| `ShellParser.Parser.GetToken` | xv6-labs-2025/user/sh.c:271-314 | returns the next token of the line and moves the cursor behind it |
| `ShellParser.Parser.Peek` | xv6-labs-2025/user/sh.c:316-326 | says whether the next token starts with one of the symbols, moving over white space only |
| `ShellParser.Parser.ParseAll` | xv6-labs-2025/user/sh.c:333-348 | ends as the grammar says: the tree, or the right panic |
| `ShellParser.Parser.ParseLine` | xv6-labs-2025/user/sh.c:350-365 | agrees with the grammar on the result and on the tokens left, for every input |
| `ShellParser.Parser.ParsePipe` | xv6-labs-2025/user/sh.c:367-378 | likewise |
| `ShellParser.Parser.ParseRedirs` | xv6-labs-2025/user/sh.c:380-403 | likewise, wrapping the command in the redirections in order |
| `ShellParser.Parser.ParseBlock` | xv6-labs-2025/user/sh.c:405-419 | likewise |
| `ShellParser.Parser.ParseSimple` | xv6-labs-2025/user/sh.c:421-452 | likewise, for the argument loop and its limit |
| `ShellParser.NulTerminate` | xv6-labs-2025/user/sh.c:455-499 | writes a NUL at the end of every word of the command and nowhere else |
| `ShellParser.RunParser` | xv6-labs-2025/user/sh.c:333-348 | parsecmd on a buffer: the grammar's result, with every word left as its own C string |
| `Grep.ParseInvertsWritten` | xv6-labs-2025/user/grep.c:84-96 | a pattern written down, with no item that would be read as something else, is parsed to itself |
| `Grep.WrittenInvertsParse` | xv6-labs-2025/user/grep.c:84-96 | every expression is such a writing of the pattern it is parsed to |
| `Grep.FirstItem` | xv6-labs-2025/user/grep.c:84-96 | a match of a pattern is a word of its first item followed by a match of the rest |
| `Grep.Specials` | xv6-labs-2025/user/grep.c:72-106 | a dot fits any character, a leading ^ ties the match to the start, and every other character of an item stands for itself |
| `Grep.Match` | xv6-labs-2025/user/grep.c:72-82 | true exactly when some part of the text is a word of the expression, anchored as ^ and $ say |
| `Grep.MatchHere` | xv6-labs-2025/user/grep.c:84-96 | true exactly when the text starts with a word of the pattern |
| `Grep.MatchStar` | xv6-labs-2025/user/grep.c:98-106 | true exactly when some run of fitting characters is followed by a match of the rest |

## Left out

- The sleep-lock of each buffer and blocking inside bget: log.c is proved as sequential methods in `Log`, and as a step system in `LogRuns`, where changing a held buffer and log_write are one step.
- Log.Log.BeginOp: is one round of begin_op's loop, with sleeping reported to the caller; `LogRuns` has the sleepers and their wakeups.
- Log.Log.LogWrite: asks its caller for room in the header, as log.c tests it before looking for absorption; `LogRuns.NoPanic` shows that clients within their budget always have it.
- A disk that tears a single block write, or reorders writes: writes are atomic and in order, as virtio_disk_rw waits for each.
- Page-table entries as machine words: they are arithmetic on numbers.
- Virtual addresses are page numbers, sizes stay in bytes; alignment panics of vm.c are not stated.
- VmFree.UvmFree: sizes within a page of 2^64, which take 2^33 calls of sbrk to reach, are not rounded up with wrap-around.
- VmSpace.UvmDealloc: its page count is not cut to an int, as callers shrink by at most 2^31 bytes.
- ProcMem.Machine.FreeProc: asks for a size below that last page.
- ProcMem.Machine.UserStore: the accessed and dirty bits that an MMU may set in the entry are left out.
- ProcMem.Machine.Fork: the process table, file descriptors and the copied trapframe registers are not modelled; exec's exchange of page tables is not either.
- copyin, copyout, copyinstr and walkaddr: byte copying over the translations that are modelled.
- kvmmake and the kernel's own page table.
- SleepLock.NoLostWakeup: the scheduler is any switch-in of a runnable process; sleeping on another channel may end at any time, and wakeups of other channels are not told apart.
- SleepCalls.HandOver: is a run that exists; that a waiting process is served in every fair schedule is not stated, and does not hold of the code, as a released lock may be taken by another first.
- LogProgress.OperationRun: is a run with no other operation open; fairness between operations is not stated.
- Fences and the spin loop of spinlock.c: taking and releasing a spinlock are atomic steps.
- The in-memory inode table (iget, ilock, iupdate) and its reference counts: `FsOps` and `Links` keep one copy of each inode, and "last reference" is a parameter.
- FsOps.FileSystem.Writei: copies from user memory do not fail; a failing one can leave a changed buffer unlogged in the source.
- FsOps.FileSystem.Readi: copies to user memory do not fail either.
- FsOps.FileSystem.constructor: has neither root directory nor files; `Volume.Mkfs` adds the root directory.
- FsCrash.EveryCrashLeavesGood: any number of operations may be open, but they change blocks one at a time; changes of two operations interleaved under inode locks are not modelled.
- Volume.Files.Link: path walking is left out, and with it the iput of directories met on the way and of the parent; "last reference" is a parameter of Volume.Files.Unlink too.
- Links.Tree.Create: path walking, device numbers and the in-kernel locks are left out; the parent directory is a parameter, and whether a directory can grow by a block is one too. Directory contents are slots; `Volume` has the bytes and the room on the disk.
- Links.Tree.constructor: the files that mkfs adds to the root are left out.
- Links.Tree.DirLink: slots instead of bytes, and whether the directory can grow by a block is a parameter; `Volume` has both.
- Links.Tree.Iput: whether the reference is the last one is a parameter, as the inode table is left out.
- Links.Tree.LinkFinish: takes a parent on another device as a missing one.
- Virtio feature negotiation, MMIO registers and the data itself; the device completes with status 0, as a failing disk panics.
- Virtio.Disk.Submit: sleeping for descriptors or for completion is an early return or a precondition of the next method, to be called again.
- Umalloc.Heap.Malloc: sbrk's answer is a parameter, at increasing addresses; other callers of sbrk are not modelled.
- LinkState.Search: the priority queue is a list searched for a least element, and routes of 10^9 hops or more count as none. Flooding and sequence numbers in Server.java and Router.java are not modelled.
- ShellParser.Parser.ParseSimple: the argument array is filled through the redirections around it by rebuilding the tree; allocation and running of commands are left out.
- The line splitting of grep() and its buffer of 1024 bytes.
- UART, PLIC, traps, exec, pipes, the console, the files that mkfs adds, the thread library and the two small shells: hardware access, input and output, or easier members.
