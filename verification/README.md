# xv6-riscv with kernel threads: a verified model

This project models the parts of the kernel and of three user programs whose
correctness spans many functions or many steps, and proves what they promise. Code that
works in place is written in place (classes, arrays, loops); protocols between CPUs,
devices and crashes are state machines whose steps lie between two lock operations or two
block writes. `dafny verify dfyconfig.toml` checks everything.

- **Redo log** (`Log`, `LogMachine`): a commit is a sequence of single-block writes. A crash
  after any of them, and any crashes inside recovery, leave exactly the state before or
  exactly the state after the group of operations. The machine interleaves any number of
  operations with commit, crashes and recovery.
- **Buffer cache** (`BufferCache`, `CacheMachine`): the doubly linked ring refines a plain
  map from blocks to contents.
- **File system** (`FsLayout`, `FileSys`, `Mkfs`): every block is owned by one pointer, the
  bitmap says exactly which, and reads and writes are slices and splices of byte sequences.
- **Names and links** (`Links`, `LinkRuns`, `LinkCalls`): link counts, which are 16-bit numbers,
  equal the entries that name an inode, in runs from the tree mkfs makes.
- **Page tables** (`PageTable`, `TableTree`, `VmRelations`, `VmSpaces`, `VmCounts`, `VirtualMemory`):
  three-level trees in physical memory, as in section 4.4 (Sv39) of the RISC-V Privileged
  Architecture manual, refine maps from pages to entries. Every physical page has one owner, and
  user spaces map nothing but frames of their own.
- **User heap** (`Heap`): the allocator of section 8.7 of The C Programming Language.
- **Scheduler** (`Sched`, `SchedInv`, `SchedSteps`, `SchedMoves`, `SchedMachine`, `SchedThreads`):
  eight CPUs, up to eight threads per process under one process lock that passes across `swtch`,
  sleep and wakeup, sleep-locks, thread creation and ending, fork, exit and wait.
- **Virtio disk** (`VirtioDesc`, `Virtio`, `VirtioMachine`): driver, device and interrupt handler
  over the rings of sections 2.6 and 5.2 of the VIRTIO 1.1 specification.
- **Shell and grep** (`Shell`, `ShellParser`, `ShellPrint`, `ShellStrings`, `Grep`, `GrepLines`).
- **Pipe and console** (`Rings`): byte rings with wrapping 32-bit counters.

How ownership is modelled: wherever blocks, pages, units or descriptors must not be shared,
a ghost map gives each of them its one owner. Distinctness and conservation are then
statements about that map, and the invariant ties it to the pointers in memory.

What turned out not to hold of the code, with the exact condition:

- `mkfs` gives the log LOGSIZE blocks including the header block. Appending log writes never
  panic in any run iff there is one block more (`LogMachine.AppendsFitIff`,
  `LogMachine.MkfsLogTooShort`).
- `log_write` tests for a full log before it looks for the block, so it panics on a block that
  needs no slot (`LogMachine.FullLogRefusesAbsorption`); the panic comes iff the log looks full,
  whatever the block (`Log.LogState.LogWrite`).
- `mkfs` rounds the root directory up by a whole block when its entries already end on a block
  boundary; the directory then has a hole, exactly in that case (`Mkfs.Image.Build`). With 62
  files it does (`Mkfs.HoleImage`).
- A link count is a signed 16-bit number and `link` does not bound it. A step keeps counts equal to
  names iff the count is below 0x7fff (`Links.LinkKeeps`); over whole runs, iff every step is like
  that (`LinkRuns.RunInvIff`), and then unlink never panics (`LinkRuns.NoPanic`). 32768 names for one
  file fit in two directories; unlink of any of them panics (`LinkRuns.CountWraps`,
  `LinkCalls.UnlinkCanPanic`).
- `create` and `link` do not look whether the directory they resolved has been removed meanwhile. What
  they enter there is counted but has no name; the tree stays in order iff the directory is still
  linked (`Links.CreateFileKeeps`, `Links.CreateDirKeeps`, `Links.LinkKeeps`).
- `kthread_exit` counts free slots of the thread table as threads. The last thread of a process that
  leaves this way ends the process iff no slot is free (`SchedThreads.LastThreadLeaves`); otherwise
  the process never exits and its parent waits for ever (`SchedThreads.DoomedForEver`,
  `SchedThreads.ChildNeverExits`).
- `kfree` of a page that is free already makes the free list a cycle, exactly then
  (`VirtualMemory.Memory.KFree`, `VmRelations.DoubleFree`).
- `uvmdealloc` holds its page count in an int; it removes the pages between the two sizes iff their
  number, as a 52-bit number, fits an int (`VmRelations.RemovedIsSpan`).
- `malloc` passes its request to `sbrk` as an int; the count is right iff the request is at most
  0x7fffffe0 bytes (`Heap.SbrkArgument`). `Heap.Allocator.Malloc` says when a larger request gets so far.
- `grep` stops at a line that does not fit its buffer or holds a NUL; up to there its output is right
  for every way of chunking the input (`GrepLines.GrepInput`, `GrepLines.BadLineEndsOutput`).

Panics are results or named outcomes; a contract says when they occur. Clocks, devices and
callers are parameters: whether `sbrk` grants memory, how many bytes a read returns, which CPU
moves next, where a crash falls.

## Model

| member | source | states |
|---|---|---|
| `Log.HeaderRoundTrip` | kernel/log.c:86-114 | reading a header block just written gives back the same block list |
| `Log.CommitTraceAt` | kernel/log.c:178-203 | the k-th disk of a commit run is the state after exactly k single-block writes, so cutting a commit anywhere is covered by `CommitDisk` |
| `Log.CommitAtomic` | kernel/log.c:178-203 | after any number of commit's block writes the disk recovers to the old contents, or to the new contents exactly when the header write is among them |
| `Log.CommitFinished` | kernel/log.c:193-203 | a commit that runs to its end empties the log and leaves the new contents in every home block |
| `Log.RecoveryRestartable` | kernel/log.c:68-83 | a crash after any block write of recovery leaves a disk that still recovers to the same contents |
| `Log.RecoveryCompletes` | kernel/log.c:116-123 | recovery that runs to its end empties the log and puts the recoverable contents in every home block |
| `Log.Boots` | kernel/log.c:116-123 | any number of recoveries, each cut anywhere, keeps the recoverable contents |
| `Log.CommitThenCrashes` | kernel/log.c:68-123 | commit cut anywhere, then any number of recoveries cut anywhere, then one full recovery: all home blocks are from before, or all from after iff the header write was done |
| `Log.LogState.WriteHead` | kernel/log.c:102-114 | writes the in-memory list over the header block, one block write, other words kept |
| `Log.LogState.ReadHead` | kernel/log.c:86-97 | the in-memory list becomes the one on disk |
| `Log.LogState.WriteLog` | kernel/log.c:178-191 | cached blocks go to the log slots in order; the trace of disks is the one the crash lemmas speak about |
| `Log.LogState.InstallTrans` | kernel/log.c:68-83 | log slots go to their home blocks in order, with the trace of disks |
| `Log.LogState.Commit` | kernel/log.c:193-203 | performs exactly the block writes of `CommitTrace`, none when nothing is logged |
| `Log.LogState.RecoverFromLog` | kernel/log.c:116-123 | performs exactly the block writes of `RecoverTrace` and leaves the log empty |
| `Log.LogState.TryBeginOp` | kernel/log.c:126-142 | keeps the reservation: whatever the open operations, this one included, still add within their promises, the log holds it; an operation waits only for a commit or when those promises could exceed the log |
| `Log.LogState.LogWrite` | kernel/log.c:214-235 | appends a new block, absorbs a logged one, panics exactly when the log looks full or no operation is open; within its promise an operation never meets LOGSIZE, and the reservation is kept |
| `Log.LogState.EndOp` | kernel/log.c:146-175 | the last operation out commits the whole group, any other writes nothing; unused promises are given back and the reservation is kept |
| `LogMachine.RunInv` | kernel/log.c:116-235 | the reservation, whole-operation and recoverability invariants hold at every point of every interleaving with crashes |
| `LogMachine.CrashSafety` | kernel/log.c:116-235 | at every point of every run, commit and recovery included, recovering gives exactly the committed updates, and no operation is split |
| `LogMachine.CommittedIsDurable` | kernel/log.c:146-175 | whenever the log is idle and empty, disk, cache and history agree and nothing can be lost |
| `LogMachine.AppendHasSlot` | kernel/log.c:126-142 | an appending write that keeps its reservation finds fewer than LOGSIZE blocks logged |
| `LogMachine.AppendsFitIff` | kernel/log.c:214-235 | appending writes never panic in any run iff the on-disk log has at least LOGSIZE+1 blocks |
| `LogMachine.MkfsLogTooShort` | mkfs/mkfs.c:20-28 | the log mkfs lays out is one block short of that |
| `LogMachine.FullLogRefusesAbsorption` | kernel/log.c:214-235 | a reachable state where rewriting an already logged block panics, because the size test comes first |
| `BufferCache.UnlinkLinked` | kernel/bio.c:116-137 | the two unlinking assignments leave a well-linked ring without the buffer |
| `BufferCache.PushLinked` | kernel/bio.c:116-137 | the four linking assignments leave a well-linked ring with the buffer first |
| `BufferCache.Bcache.constructor` | kernel/bio.c:36-53 | the initial ring holds every buffer once |
| `BufferCache.Bcache.Bget` | kernel/bio.c:58-89 | returns the cached buffer, else recycles the last unused one in ring order, else panics; nothing else changes |
| `BufferCache.Bcache.Brelse` | kernel/bio.c:116-137 | drops a reference and, at zero, moves the buffer to the front |
| `CacheMachine.RunInv` | kernel/bio.c:58-151 | in every run the ring is a permutation in order of last release, no block is cached twice, and counts equal users plus the log pin |
| `CacheMachine.BreadReturnsLogical` | kernel/bio.c:92-103 | whoever holds a valid buffer holds it alone, it is the block asked for, with the latest logical contents |
| `CacheMachine.LogicalChangesOnlyByModify` | kernel/bio.c:58-151 | bget, eviction, disk traffic, pins and releases never change what callers see |
| `CacheMachine.LoggedStaysCached` | kernel/bio.c:139-151 | in every run, every block in the log header that is not home yet has a pinned buffer with the latest contents |
| `CacheMachine.PinnedNotRecycled` | kernel/log.c:68-83 | a pinned buffer keeps its block through every step, and loses its pin only to install_trans, which leaves the latest contents on disk |
| `CacheMachine.NoUnderflow` | kernel/bio.c:116-151 | a reference about to be dropped is always still counted |
| `CacheMachine.RecyclesLeastRecent` | kernel/bio.c:72-87 | a miss recycles the unused buffer released longest ago |
| `CacheMachine.BgetPanicsOnlyWhenAllReferenced` | kernel/bio.c:72-88 | bget panics iff the block is not cached and every buffer is referenced |
| `FsLayout.PutByteBit` | kernel/fs.c:64-103 | setting or clearing one bit of a byte leaves the other seven |
| `FsLayout.PointersDistinct` | kernel/fs.c:377-437 | direct, indirect and indirect-entry pointers of all inodes hold pairwise different blocks |
| `FsLayout.BitmapIsReachability` | kernel/fs.c:64-103 | the set bits are exactly the metadata blocks and the blocks some pointer reaches |
| `FsLayout.LinkKeeps` | kernel/fs.c:377-405 | storing a fresh block in an empty pointer keeps ownership and bitmap in step |
| `FsLayout.UnlinkKeeps` | kernel/fs.c:409-437 | freeing a block as its pointer is cleared keeps them in step |
| `FileSys.WroteIsSplice` | kernel/fs.c:486-517 | block-wise copying across the direct/indirect boundary amounts to one splice of the byte sequence |
| `FileSys.ChunkFitsReservation` | kernel/file.c:149-175 | one filewrite chunk touches at most 7 distinct blocks, within MAXOPBLOCKS, when one block holds the bitmap |
| `FileSys.SpliceTwice` | kernel/file.c:155-175 | splicing two consecutive chunks is splicing their concatenation |
| `FileSys.FileSystem.BAlloc` | kernel/fs.c:64-86 | takes the first free block, zeroed, or finds every block in use; no pointer changes |
| `FileSys.FileSystem.BFree` | kernel/fs.c:89-103 | clears the bit; the panic on a free block happens iff the bit was clear |
| `FileSys.FileSystem.constructor` | kernel/fs.c:41-48 | a file system found consistent on disk |
| `FileSys.FileSystem.BMap` | kernel/fs.c:377-405 | returns the block of the slot, allocating at most the slot and its indirect block; an allocated slot changes nothing; panics only past MAXFILE or when full |
| `FileSys.FileSystem.ReadI` | kernel/fs.c:455-477 | returns the slice of the file contents for every offset and length, and never allocates in a file without holes; panics only when the disk is full or the file longer than its block map |
| `FileSys.FileSystem.WriteI` | kernel/fs.c:486-517 | is a splice of the contents, leaves all other files alone, keeps files free of holes, and logs only the blocks accounted for; panics only when the disk is full |
| `FileSys.FileSystem.ITrunc` | kernel/fs.c:409-437 | returns precisely the file's blocks to the bitmap and leaves every other file as it was, holes included |
| `FileSys.FileSystem.FileWrite` | kernel/file.c:134-181 | a write in chunks equals one splice of what was written, all of it unless the source faults, the offset is past the end or the file would be too long; each transaction stays within its reservation |
| `Mkfs.RoundingHole` | mkfs/mkfs.c:164-171 | rounding a file size up to the next block leaves no hole iff the size was not on a block boundary |
| `Mkfs.Image.constructor` | mkfs/mkfs.c:67-125 | the empty image satisfies the ownership invariant |
| `Mkfs.Image.Map` | mkfs/mkfs.c:263-285 | maps a block of a growing file without disturbing any other pointer, with exactly the blocks missing; fails iff past MAXFILE or past the end of the image |
| `Mkfs.Image.IAppend` | mkfs/mkfs.c:263-305 | appends exactly the data, takes exactly the blocks it needs and leaves the other files alone; fails iff the file would be too long or the blocks run out |
| `Mkfs.Image.WriteBitmap` | mkfs/mkfs.c:245-259 | marks exactly the blocks handed out; fails iff they do not fit one bitmap block |
| `Mkfs.Image.Build` | mkfs/mkfs.c:67-176 | goes through iff root directory and files fit the image and its bitmap block; then the image satisfies the kernel's ownership invariant, files read back as given, and the root directory has a hole iff its entries fill whole blocks |
| `Mkfs.Image.Mount` | kernel/fs.c:41-48 | the kernel's file system on the finished image is consistent and has its contents |
| `Mkfs.HoleImage` | mkfs/mkfs.c:164-171 | the image with 62 empty files is built, has a hole in its root directory, and is consistent all the same |
| `PageTable.IndicesRoundTrip` | kernel/riscv.h:342-351 | the three 9-bit indices determine the page |
| `PageTable.PageOfRoundTrip` | kernel/riscv.h:342-351 | and any three indices come from one page |
| `PageTable.EntriesDistinct` | kernel/vm.c:80-98 | different pages, of one address space or of two, never share a leaf entry |
| `PageTable.LinkMid` | kernel/vm.c:86-96 | linking a zeroed second-level table changes no address map |
| `PageTable.LinkLow` | kernel/vm.c:86-96 | nor does linking a zeroed last-level table |
| `PageTable.MapKeeps` | kernel/vm.c:146-154 | writing a leaf changes the map at exactly that page of that space |
| `PageTable.UnmapKeeps` | kernel/vm.c:171-183 | clearing a leaf unmaps exactly that page |
| `PageTable.PlainKeeps` | kernel/kalloc.c:46-82 | pages outside every tree can be rewritten and change hands without any map changing |
| `TableTree.ReadyFrame` | kernel/vm.c:263-279 | what freewalk needs of a subtree depends on that subtree alone |
| `TableTree.TreeReady` | kernel/vm.c:263-289 | a live address space is a well-formed tree, free of leaves iff nothing is mapped |
| `TableTree.FreedKeeps` | kernel/vm.c:283-289 | freeing exactly the pages of one space leaves every other map as it was |
| `VmRelations.PopFree` | kernel/kalloc.c:68-82 | taking the head of the list stored inside the free pages leaves a list of exactly the other free pages |
| `VmRelations.PushFree` | kernel/kalloc.c:46-63 | putting a page at the head leaves a list of exactly the free pages |
| `VmRelations.DoubleFree` | kernel/kalloc.c:46-63 | after freeing a page that is on the list already, no list of pages is left |
| `VmRelations.RemovedIsSpan` | kernel/vm.c:247-259 | uvmdealloc removes the pages between the two sizes iff their number survives conversion to int |
| `VmSpaces.MappedIffOwned` | kernel/vm.c:137-325 | a user space maps a page of RAM at w iff that page is its frame for w |
| `VmSpaces.PagesPartitioned` | kernel/kalloc.c:33-82 | every page is of exactly one of four kinds: on the free list; in a page-table tree, at one place; mapped by user spaces, by one leaf of one space; held by the kernel |
| `VmCounts.NextMissing` | kernel/vm.c:80-98 | the tables missing for one more page are those not yet made for the pages before it |
| `VmRelations.AllocUndo` | kernel/vm.c:217-241 | giving back all fresh frames restores every map and every page in use |
| `VirtualMemory.Memory.constructor` | kernel/kalloc.c:26-40 | all of RAM starts on the free list |
| `VirtualMemory.Memory.FreeRange` | kernel/kalloc.c:33-40 | exactly the whole pages of the range become free |
| `VirtualMemory.Memory.KAlloc` | kernel/kalloc.c:68-82 | takes the first free page, filled with junk; 0 iff none is free |
| `VirtualMemory.Memory.KFree` | kernel/kalloc.c:46-63 | puts a RAM page back, filled with junk; panics iff it is not RAM; the free list stays a list iff the page was not on it |
| `VirtualMemory.Memory.Walk` | kernel/vm.c:80-98 | finds or makes the leaf slot, with exactly the missing tables; never changes any address map, also when it fails halfway, which is iff fewer pages are free than tables missing; panics iff past MAXVA |
| `VirtualMemory.Memory.MapPages` | kernel/vm.c:137-157 | adds exactly the mapped pages, in order, with exactly the missing tables; says why it stopped; wraps as 64-bit arithmetic does; keeps user spaces closed when it maps fresh pages into them |
| `VirtualMemory.Memory.UvmUnmap` | kernel/vm.c:162-184 | removes exactly its range, in 64-bit arithmetic, and frees exactly its own frames; succeeds iff aligned and every page is a mapped leaf; user spaces stay closed |
| `VirtualMemory.Memory.UvmDealloc` | kernel/vm.c:247-259 | unmaps and frees exactly the pages counted, which are those between the sizes as `VmRelations.RemovedIsSpan` says |
| `VirtualMemory.Memory.UvmAlloc` | kernel/vm.c:217-241 | grows by exactly the missing pages with zeroed frames of its own, using exactly those pages and the missing tables; or leaves every map and page in use as it was, because fewer than that were free |
| `VirtualMemory.Memory.UvmCopy` | kernel/vm.c:297-325 | equal contents and flags in frames of its own for every page; or everything as it was, because too few pages were free; panics only for a page that cannot be copied, never while undoing |
| `VirtualMemory.Memory.FreeWalk` | kernel/vm.c:263-279 | frees the table and exactly the tables below it; panics iff a leaf is still mapped |
| `VirtualMemory.Memory.UvmFree` | kernel/vm.c:283-289 | goes through iff exactly the given pages are mapped; then all pages of the space are free and no other map changed |
| `VirtualMemory.Memory.UvmCreate` | kernel/vm.c:188-197 | a new empty space, or 0 iff no page is free; no map changes |
| `VirtualMemory.Memory.ProcPagetable` | kernel/proc.c:296-327 | a space with the trampoline and a trapframe and nothing else, from three pages; or nothing, and every owner and map as before, iff fewer than three pages are free |
| `VirtualMemory.Memory.ProcFreePagetable` | kernel/proc.c:331-336 | goes through iff the space holds its memory, the trampoline and the trapframe and nothing else; then all its pages are free, except the trapframe, which the caller holds |
| `Heap.BlocksDisjoint` | user/umalloc.c:24-90 | different blocks, free or live, share no unit |
| `Heap.UnitsTiled` | user/umalloc.c:24-90 | free and live blocks together cover exactly the memory obtained from sbrk |
| `Heap.StopsThere` | user/umalloc.c:30-32 | free's wrap-around search stops exactly at the last free block below the one freed |
| `Heap.FreedKeeps` | user/umalloc.c:33-43 | linking and joining keeps one cycle in address order with no two free blocks touching, and writes to no live block |
| `Heap.UnlinkKeeps` | user/umalloc.c:74-75 | taking a whole block keeps the heap invariant |
| `Heap.CarveKeeps` | user/umalloc.c:76-80 | taking the tail of a block keeps the heap invariant |
| `Heap.GrantKeeps` | user/umalloc.c:46-61 | new memory from sbrk joins the heap as one block |
| `Heap.SbrkArgument` | user/umalloc.c:46-61 | the byte count survives conversion to sbrk's int iff the request is at most 0x7fffffe0; the next one asks to shrink by 2 GiB |
| `Heap.Allocator.FindPlace` | user/umalloc.c:30-32 | the search finds that block from wherever freep is, and ends |
| `Heap.Allocator.Free` | user/umalloc.c:24-44 | the block becomes free and joins its neighbours; no other live block is touched |
| `Heap.Allocator.Morecore` | user/umalloc.c:46-61 | a granted request yields a free block of at least that size; a refused one changes nothing |
| `Heap.Allocator.Take` | user/umalloc.c:73-83 | the block handed out was not live and has exactly the units asked for |
| `Heap.Allocator.Malloc` | user/umalloc.c:63-90 | returns a new live block disjoint from all others; 0 iff no free block fits and sbrk refuses; its loop ends, also after morecore; says exactly when sbrk would be asked for a wrong amount |
| `Heap.Allocator.UserStore` | user/umalloc.c:63-90 | programs may write anything inside their blocks without breaking the heap |
| `SchedMachine.NextKeeps` | kernel/proc.c:719-867 | every step of scheduler, yield, sleep, wakeup, sleep-locks, thread creation and ending, fork, exit and wait keeps the hand-off and wakeup invariants |
| `SchedMachine.RunInv` | kernel/proc.c:719-867 | so they hold in every state of every multi-CPU run |
| `SchedMachine.RunningOnOneCpu` | kernel/proc.c:719-794 | a running thread is current on exactly one CPU, and a CPU whose process lock is free runs a running thread |
| `SchedMachine.VisibleOnlyWhenSaved` | kernel/proc.c:719-794 | with p->lock free, a runnable, sleeping or exited thread has its context saved, and an exited process is on no CPU |
| `SchedMachine.SwitchesToSavedContext` | kernel/proc.c:737-752 | the scheduler never switches to a thread without a saved context |
| `SchedMachine.SchedDoesNotPanic` | kernel/proc.c:766-783 | at every swtch the thread holds p->lock and no other spinlock, and its state has been changed |
| `SchedMachine.NoLostWakeup` | kernel/sleeplock.c:21-41 | when a sleep-lock is free and its spinlock is not held, nobody sleeps on it |
| `SchedMachine.NoZombieUnnoticed` | kernel/proc.c:551-614 | when wait_lock is free, nobody asleep in wait has an exited child, children handed to init included |
| `SchedMachine.ReapedOnce` | kernel/proc.c:660-710 | each exit is reaped at most once, and a zombie is exactly an exit not yet reaped |
| `SchedThreads.TwoThreadsRun` | kernel/proc.c:1021-1045 | a run after which two threads of one process run on two CPUs with its lock free |
| `SchedThreads.LastThreadLeaves` | kernel/proc.c:894-923 | when the last live thread calls kthread_exit the process goes on to exit iff no slot of its thread table is free |
| `SchedThreads.DoomedStays` | kernel/proc.c:894-923 | a process whose threads have all left by kthread_exit is changed by no step of any CPU: not run, not exited, not reaped |
| `SchedThreads.DoomedForEver` | kernel/proc.c:660-710 | so in every run from there on wait never reaps it |
| `SchedThreads.ChildNeverExits` | kernel/proc.c:894-923 | a run that leads there: a forked child whose only thread calls kthread_exit |
| `SchedMoves.RunnableIsSaved` | kernel/proc.c:719-758 | what p->lock passed across swtch guarantees the scheduler |
| `SchedMoves.ZombieIsOff` | kernel/proc.c:667-697 | an exited child whose lock wait can take runs nowhere, so it may be freed |
| `SchedMoves.WakeStepKeeps` | kernel/proc.c:849-867 | one process of wakeup's loop, with sleepers of other processes still to come |
| `SchedMoves.AdoptKeeps` | kernel/proc.c:551-563 | handing a child to init while init is woken |
| `SchedMoves.ExitSetKeeps` | kernel/proc.c:598-606 | becoming a zombie after the parent was woken, under wait_lock |
| `SchedMoves.ScanReapKeeps` | kernel/proc.c:672-697 | reaping |
| `SchedMoves.ThreadNewKeeps` | kernel/proc.c:1021-1045 | kthread_create under p->lock, with other threads of the process running |
| `SchedMoves.StillGone` | kernel/proc.c:615-659 | while a process exits no thread of it comes back |
| `SchedSteps.EndSetKeeps` | kernel/proc.c:915-920 | a thread becomes a zombie under p->lock while its process lives on |
| `SchedSteps.SleepDropKeeps` | kernel/proc.c:833-838 | sleep gives up the condition lock only after taking p->lock |
| `SchedSteps.CheckKeeps` | kernel/sleeplock.c:21-31 | taking a free sleep-lock or going to sleep on a taken one |
| `SchedSteps.GiveKeeps` | kernel/sleeplock.c:33-41 | releasing a sleep-lock and starting the wakeup |
| `VirtioDesc.FreeThree` | kernel/virtio_disk.c:172-185 | freeing a chain of three frees and blanks exactly those |
| `VirtioDesc.TakingCount` | kernel/virtio_disk.c:188-201 | taking descriptors one by one succeeds exactly as long as some are free |
| `VirtioDesc.GiveBack` | kernel/virtio_disk.c:188-201 | giving back a taken descriptor restores it and no other |
| `VirtioDesc.Descriptors.AllocDesc` | kernel/virtio_disk.c:143-154 | takes the first free descriptor, or -1 iff there is none |
| `VirtioDesc.Descriptors.FreeDesc` | kernel/virtio_disk.c:156-170 | blanks and frees; panics iff out of range or already free |
| `VirtioDesc.Descriptors.FreeChain` | kernel/virtio_disk.c:172-185 | frees along the chain and always ends, in a panic if it meets a free descriptor |
| `VirtioDesc.Descriptors.Alloc3Desc` | kernel/virtio_disk.c:188-201 | three descriptors iff three are free; a failure restores the table exactly |
| `Virtio.ChainsDisjoint` | kernel/virtio_disk.c:203-280 | chains in flight share no descriptor with each other or with the free set |
| `Virtio.DecodeIsRequest` | kernel/virtio_disk.c:221-251 | what the device reads from a chain is the request that was issued |
| `Virtio.AvailRoom` | kernel/virtio_disk.c:255-263 | the avail slot written next holds no entry the device has yet to take |
| `Virtio.Wrapped` | kernel/virtio.h:56-79 | 16-bit positions at most a ring apart compare and index like unbounded ones |
| `Virtio.DeviceFindsJob` | kernel/virtio_disk.c:255-263 | the device finds the oldest job it has not taken |
| `Virtio.UsedNamesIssuer` | kernel/virtio_disk.c:282-315 | a used entry names the oldest unseen completion, its status is good and its buffer is the one that issued it |
| `Virtio.FinishFreesChain` | kernel/virtio_disk.c:274-276 | finishing frees exactly the request's three descriptors, without a panic |
| `VirtioMachine.NextKeeps` | kernel/virtio_disk.c:203-315 | every driver, device and interrupt step keeps the protocol invariant |
| `VirtioMachine.RunInv` | kernel/virtio_disk.c:203-315 | so it holds in every interleaving, through index wrap-around |
| `VirtioMachine.ProtocolSafe` | kernel/virtio_disk.c:203-315 | in every state of every run: next entries are right, requests decode as issued, no job completes twice, chains are disjoint |
| `VirtioMachine.HistoryGrows` | kernel/virtio_disk.c:255-315 | what was posted or completed stays so |
| `Shell.Tok` | user/sh.c:265-308 | a token is a maximal word or one symbol, NUL exactly at the end, and every other token moves forward |
| `Shell.PLine` | user/sh.c:344-359 | parsing ends on every input, at a position no earlier than it began |
| `ShellParser.Parser.GetToken` | user/sh.c:265-308 | the loops compute the token function and leave the position after it |
| `ShellParser.Parser.PeekFor` | user/sh.c:310-320 | skips white space and looks at one character |
| `ShellParser.Parser.ParseRedirs` | user/sh.c:374-397 | the loop collects the redirections of the grammar in order |
| `ShellParser.Parser.ParseExec` | user/sh.c:415-446 | a simple command or block as the grammar says, with the argument limit |
| `ShellParser.Parser.ParseBlock` | user/sh.c:399-413 | a block with its redirections |
| `ShellParser.Parser.ParsePipe` | user/sh.c:361-372 | pipes associate to the right |
| `ShellParser.Parser.ParseLine` | user/sh.c:344-359 | background marks and lists as the grammar says |
| `ShellParser.Parser.ParseCmd` | user/sh.c:327-342 | accepts iff the whole line is one command |
| `ShellPrint.ArgsAt` | user/sh.c:415-446 | words separated by spaces read back as those words |
| `ShellPrint.LineAt` | user/sh.c:344-446 | a printed tree, anywhere in a line, parses as that tree, open modes and descriptors included, and ends where its printing ends |
| `ShellPrint.PrintParse` | user/sh.c:327-446 | parsing the parenthesised printing of any tree of at most 9 words per command gives that tree back, with the mode and descriptor of every redirection |
| `ShellStrings.LineSpans` | user/sh.c:344-446 | every word of a parsed command is a whole word of the line |
| `ShellStrings.WordsReadBack` | user/sh.c:449-493 | after nulterminate every argument and file name reads back as exactly its text |
| `ShellStrings.AcceptedWordsReadBack` | user/sh.c:327-493 | the same for every line the shell accepts |
| `ShellStrings.NulTerminate` | user/sh.c:449-493 | writes NULs at exactly the ends of the words |
| `ShellStrings.ParseLineBuffer` | user/sh.c:327-342 | parses a line and leaves its words as C strings |
| `Grep.FromOne` | user/grep.c:83-94 | one plain step of matching against the declarative language |
| `Grep.FromStar` | user/grep.c:97-104 | a star matches iff the rest matches after some run of fitting characters |
| `Grep.MatchHere` | user/grep.c:83-94 | true iff some prefix from here is in the pattern's language; ends on every input |
| `Grep.MatchStar` | user/grep.c:97-104 | true iff the rest matches after some run |
| `Grep.Match` | user/grep.c:70-80 | true iff the text contains a match, anchored as the pattern says |
| `GrepLines.FittingLinesAllWritten` | user/grep.c:10-34 | if every line with its newline fits the buffer and holds no NUL, all matching lines are written |
| `GrepLines.BadLineEndsOutput` | user/grep.c:10-34 | a line that does not fit or holds a NUL ends the output: nothing from it on is written |
| `GrepLines.FindNewline` | user/grep.c:21 | the first newline, or the first NUL if that comes earlier |
| `GrepLines.GrepInput` | user/grep.c:10-34 | whatever sizes read returns and whatever bytes, the output is the matching lines in order up to the first that does not fit or holds a NUL |
| `Rings.Counters` | kernel/pipe.c:13-20 | 32-bit counters at most a ring apart compare, subtract and index like unbounded ones |
| `Rings.Put` | kernel/pipe.c:95 | storing a byte overwrites none that is still to be read |
| `Rings.Pipe.Write` | kernel/pipe.c:76-103 | stores the next bytes in order until done, full or unreadable, with their number as result; -1 and nothing stored iff the reader is gone or the writer killed |
| `Rings.Pipe.Read` | kernel/pipe.c:105-130 | takes the oldest bytes; no bytes means the writer is gone and everything stored was consumed |
| `Rings.Pipe.Close` | kernel/pipe.c:58-74 | frees the pipe when both ends are closed |
| `Rings.Pipe.WaitsOnlyWhenEmpty` | kernel/pipe.c:113-119 | a reader waits iff nothing is buffered and the write end is open |
| `Rings.Console.Intr` | kernel/console.c:135-179 | after any number of keys and reads the committed stream and the line are the fold over them |
| `Rings.Console.KillLine` | kernel/console.c:144-150 | ^U erases exactly the uncommitted line, since it holds no newline |
| `Rings.Console.Append` | kernel/console.c:159-173 | a character is stored and committed at newline, ^D or a full buffer |
| `Rings.Console.Read` | kernel/console.c:79-127 | delivers the committed stream up to a newline, an end-of-file mark or a byte that cannot be copied out, which is lost |
| `Rings.DeliverLine` | kernel/console.c:99-122 | a delivery holds no end-of-file mark and a newline only at its end; a mark is skipped only by a read that delivers nothing, another character only when its copy fails |
| `Rings.Console.FullIsReadable` | kernel/console.c:168-173 | a full buffer is fully committed, so its reader is not stuck |
| `Links.CountChange` | kernel/sysfile.c:119-284 | changing one entry changes the number of names by exactly what it named |
| `Links.LinkKeeps` | kernel/sysfile.c:141-153 | a new name and a higher count keep counts equal to names iff the directory is still linked and the count is below 0x7fff |
| `Links.CreateFileKeeps` | kernel/sysfile.c:261-283 | a new file starts with one link and one name, iff the directory is still linked |
| `Links.CreateDirKeeps` | kernel/sysfile.c:270-281 | a new directory, its `..` and its parent's extra link keep the tree in order iff the parent is still linked |
| `Links.FewNames` | kernel/sysfile.c:270-281 | a directory's own count cannot wrap |
| `Links.EnteredLinks` | kernel/sysfile.c:207-216 | whatever is named has a link, an empty directory exactly one, its parent at least two |
| `Links.UnlinkFileKeeps` | kernel/sysfile.c:218-229 | removing a name and a link |
| `Links.UnlinkDirKeeps` | kernel/sysfile.c:211-229 | removing an empty directory brings its count to zero and its parent's down by one |
| `Links.FreeKeeps` | kernel/fs.c:337-359 | freeing an inode without links keeps counts equal to names |
| `LinkRuns.MkfsInOrderIff` | mkfs/mkfs.c:110-171 | the tree mkfs makes is in order iff the names it was given differ from each other and from the dots |
| `LinkRuns.NextKeepsIff` | kernel/sysfile.c:119-284 | a step of create, link, unlink or freeing keeps the tree in order iff it is safe |
| `LinkRuns.ShapeKeeps` | kernel/sysfile.c:119-284 | every step, safe or not, keeps dots and ranges of directory entries |
| `LinkRuns.RunInvIff` | kernel/sysfile.c:119-284 | in every run from a good image counts equal names in all states iff every step is safe |
| `LinkRuns.NoPanic` | kernel/sysfile.c:207-216 | in a run of safe steps unlink never finds a count below one |
| `LinkRuns.CountWraps` | kernel/sysfile.c:141-153 | a run of successful calls that gives one file 32768 names, after which its count is negative |
| `LinkCalls.Directories.DirLookup` | kernel/fs.c:529-553 | the first entry with the name, or none |
| `LinkCalls.Directories.constructor` | mkfs/mkfs.c:110-171 | the directory tree of a new image |
| `LinkCalls.Directories.DirLink` | kernel/fs.c:556-583 | refuses a taken name, else fills the first free slot; panics iff the directory is full and cannot grow |
| `LinkCalls.Directories.IsDirEmpty` | kernel/sysfile.c:169-182 | true iff there is nothing but the dots |
| `LinkCalls.Directories.SysLink` | kernel/sysfile.c:119-166 | a new name with its count, as a step of the runs; refuses exactly a directory, a missing parent or a taken name, restoring everything; panics iff the directory is full |
| `LinkCalls.Directories.SysUnlink` | kernel/sysfile.c:184-239 | removes one name and one link; refuses exactly dots, unknown names and directories that are not empty; panics iff the count is below one, which cannot be while counts equal names |
| `LinkCalls.UnlinkCanPanic` | kernel/sysfile.c:211-212 | a tree that successful calls lead to where unlink of a file panics |
| `LinkCalls.Directories.Create` | kernel/sysfile.c:241-284 | returns an existing file, refuses other names in use, else makes the inode with its links and entries, as a step of the runs; panics iff no inode is free or the directory is full |

## Left out

- Signals, binary semaphores, kthread_join and killthreads: a thread slot becomes free again only when its
  process is reaped, and exit goes on once the other threads of the process have ended.
- allocproc and freeproc beyond their effect on states, parents and contexts: page accounting is
  stated for kernel/vm.c and kernel/kalloc.c.
- copyin, copyout, copyinstr, walkaddr, uvmclear and uvminit: loops over pages already covered by
  the address maps; they would add easier members.
- Path names: skipelem and namex; the calls in `LinkCalls` take the directory they resolve to. Running
  out of disk blocks for a directory is the file model's.
- The inode cache (iget, iput, ilock): inodes are a sequence, and the byte layout written by iupdate
  is not modelled.
- Spinlock implementation, interrupts, traps, registers and assembly: a lock operation is one step.
- Directory contents as bytes: `Links` keeps entries as a sequence; their storage is the file model's.
- Device failure: a disk request that ends with a bad status is not a step of `Virtio`.
- Wakeups of readers and writers in kernel/pipe.c and kernel/console.c: `Rings` states what the stretches
  between two sleeps do, in any order.
- FileSys.FileSystem.WriteI: a source that cannot be read stops the copy at the chunk where it fails, and
  nothing of that chunk reaches the buffer.
- VirtualMemory.Memory.UvmCopy: the memory copied ends below the trampoline, as the sizes of processes do.
- VirtualMemory.Memory.UvmAlloc: rounding the old size up does not overflow 64 bits.
- Heap.Allocator.Malloc: what sbrk does with an argument that is not the number of bytes wanted is not followed.
- Mkfs.Image.Build: the files given fit the inode table; mkfs does not look.
- Rings.Console.Read: the exit of a killed reader, who takes nothing, is not modelled.
- SchedMachine.ReapedOnce: says at most once, since nothing forces a parent to call wait.
- Execution of commands (runcmd), file descriptors, pipes between processes, exec and the remaining user
  programs.
