# A model of the xv6 kernel of this repository

This project models the parts of the xv6-riscv kernel and of its user programs in which correctness is a
matter of state: crash recovery, sharing of memory, interleaving of CPUs, linked structures. Every claim
is for all inputs, all runs or all interleavings.

- `RedoLog.dfy` is the redo log as a machine whose steps are single disk writes, with a crash possible
  after every one of them, recovery included. It refines `AtomicStore`, a store with atomic commits.
  `FsLog.dfy` has the functions of `log.c` as methods whose contracts name the steps they take.
  `LogHeader.dfy` is the header block, byte for byte. The disk is kept as three parts that the superblock
  keeps apart: home blocks, log blocks, and the header, decoded.
- `BufferCache.dfy` is the buffer cache with its linked list, its users, locks and the log's pins;
  `LogBuffers.dfy` is what commit needs of it.
- `BlockMap.dfy` and `FileSystem.dfy` are block allocation, block maps, truncation, reading and writing of
  files. A file's meaning is its byte sequence. `logged` collects the blocks of a transaction.
  `LongPass.dfy` is a disk on which a longer pass of `filewrite` would log too much.
- `Cow.dfy` is copy-on-write memory as a machine whose steps are single changes of an entry, a count or a
  frame; it refines `EagerMemory`, where fork copies. `KfreeAsWritten.dfy` is the same machine with the code's
  order in `kfree`. `UserMemory.dfy` has the functions of `vm.c`, `trap.c` and `kalloc.c` as methods;
  `UserCopy.dfy` has `copyout` over bytes.
- `PageTable.dfy` has three-level page tables (section 4.4 of the RISC-V Privileged Architecture, Sv39)
  that mean a flat map from page to frame and flags.
- `PageLists.dfy` is the per-CPU page allocator, as a machine and as methods.
- `Scheduler.dfy` is the hand-over of `p->lock` across `swtch`; `ExitWait.dfy` is fork, exit and wait.
- `Virtqueue.dfy` is the disk driver against its device (sections 2.6 and 5.2.6 of VIRTIO 1.1).
- `Umalloc.dfy`, `Pipe.dfy` and `Grep.dfy` are the user allocator, pipes and the pattern matcher.

`dafny verify dfyconfig.toml` verifies all of it.

## Where the code departs from its intent

- `freerange` in `xv6/kernel/kalloc.c` has a loop of one statement, so its `kfree` comes once, after the
  loop. `Freerange` is the intent in the notes; `FreerangeAsWritten` is the code.
- `kfree` fills a page with junk before it looks at the count. The memory model fills it on the last drop;
  `JunkFillExact` says exactly when the code's order makes no difference, `StepAsWrittenExact` and
  `RunAsWrittenRefines` what follows for steps and runs, and `StoreFaultHarms`, `ExitHarms` and `UndoHarms` that a
  store fault, an exit and fork's error path can put junk into another process's page.
- `kalloc` stores a count also when it found no page: `KallocAsWritten`.
- `log_write` tests for a full log before it looks for absorption: `NewBlockHasRoom` says what still holds,
  `FullLogRefusesAbsorption` shows the case. The model has the code's test.
- `LOGBLOCKS` equals `NBUF`, so with a full log every buffer is pinned and `write_log` finds none for a log
  block: `CommitFindsBuffers` says when commit finds its buffers, `FullLogCommits` reaches a full log. The
  panic is a crash with nothing written, so atomicity is not touched.
- `copyout` refuses copy-on-write pages, which are read-only. `Copyout` has the code's test and says exactly when
  it departs from eager fork; `CopyoutAfterFork` is the case after every fork.
- `pipewrite` of a killed process returns without a wakeup: `HarmExact`, `KilledWriterStrandsReader`.
- `malloc` of more than 2 GB passes `sbrk` a number its `int` parameter cannot hold: `RequestExact`,
  `LabelExact`, `LargestRequest`.
- `grep` takes a full buffer for the end of its input: `ExactWhenLinesFit`.

## Model

| member | source | states |
|---|---|---|
| AtomicStore.DurableIsLastCommit | xv6/kernel/log.c:196-206 | in every run of the atomic store, what survives a crash is exactly what readers saw at the last commit, a moment with no active operation |
| RedoLog.StepKeepsInv | xv6/kernel/log.c:66-238 | every step of callers, commit, crash and recovery keeps the invariant: buffers differ from disk only while pinned or being changed, the log holds what it must for the phase, reservations fit |
| RedoLog.StepRefines | xv6/kernel/log.c:66-206 | each step is the step of the atomic store that EventOf names; disk writes other than the commit header are invisible |
| RedoLog.RedoneStep | xv6/kernel/log.c:118-125 | what recovery will leave in a block changes only when a commit writes its header, and then to what readers see |
| RedoLog.PendingStep | xv6/kernel/log.c:66-206 | what readers see changes only by a caller's change, at once, and by a crash, which falls back to the durable contents |
| RedoLog.RunInv | xv6/kernel/log.c:66-206 | the invariant holds in every state of every run |
| RedoLog.RunRefines | xv6/kernel/log.c:66-206 | crash atomicity: along every run, with crashes between any two disk writes and inside recovery, the log behaves as a store whose commits are atomic |
| RedoLog.RecoveryYieldsLastCommit | xv6/kernel/log.c:118-125 | whenever recovery ends, the home blocks on disk are exactly what readers saw at the last commit before, or the first disk if there was none |
| RedoLog.CommitAllOrNothing | xv6/kernel/log.c:196-206 | a crash after any number of a commit's disk writes keeps the whole group if the header write was among them, else nothing of it |
| RedoLog.CommitRun | xv6/kernel/log.c:196-206 | write_log, write_head, install_trans and the erasing write_head make up the disk writes of one commit, in that order |
| RedoLog.NewBlockHasRoom | xv6/kernel/log.c:217-238 | an operation within its budget that logs a new block never finds the log full; log_write stops the machine exactly when every slot is taken, and then no operation has any reservation left |
| RedoLog.LogWriteBudget | xv6/kernel/log.c:217-238 | logging a block, new or absorbed, keeps log.lh.n plus the unused reservations of all active operations within LOGBLOCKS |
| RedoLog.CommitFindsNoOperation | xv6/kernel/log.c:148-178 | during commit no operation is active and no change is pending |
| RedoLog.FullLogRefusesAbsorption | xv6/kernel/log.c:223-231 | from any disk with enough home blocks a run reaches a full log where writing a block already logged stops the machine, although it would be absorbed |
| RedoLog.FillRun | xv6/kernel/log.c:128-144 | from any disk with enough home blocks three operations, admitted together, log ten different blocks each, so that all LOGBLOCKS slots are taken |
| RedoLog.FullLogCommits | xv6/kernel/log.c:148-178 | that run goes on to where the three have ended and commit starts with a full log |
| LogHeader.WriteHead | xv6/kernel/log.c:104-116 | whatever the header block held before, it afterwards records exactly the logged blocks |
| LogHeader.ReadHead | xv6/kernel/log.c:88-99 | the list read back is the one the header block records, so it inverts WriteHead |
| FsLog.Log.BeginOp | xv6/kernel/log.c:128-144 | admits an operation exactly when no commit runs and one more full reservation fits; otherwise nothing changes |
| FsLog.Log.Absorb | xv6/kernel/log.c:228-236 | the block joins the list exactly when it is not there |
| FsLog.Log.LogWrite | xv6/kernel/log.c:217-238 | is the LogWrite step of RedoLog, refused exactly when the log is full |
| FsLog.Log.Bread | xv6/kernel/bio.c:90-102 | returns the latest contents of the block; at most the cache changes |
| FsLog.Log.WriteLog | xv6/kernel/log.c:181-194 | one LogBlock step for each logged block and nothing else, if nothing is logged or the logged blocks and the other buffers in use are fewer than NBUF; otherwise bread panics with nothing written |
| FsLog.Log.InstallOne | xv6/kernel/log.c:72-84 | one pass is an InstallBlock step, or a RedoBlock step in recovery |
| FsLog.Log.InstallTrans | xv6/kernel/log.c:66-85 | a step for each logged block and nothing else |
| FsLog.Log.CommitHead | xv6/kernel/log.c:201-201 | is the commit step: the header on disk records every logged block |
| FsLog.Log.EraseHead | xv6/kernel/log.c:203-204 | empties the log in memory and on disk, in commit and in recovery |
| FsLog.Log.Commit | xv6/kernel/log.c:196-206 | under that same condition its disk writes are exactly CommitSteps, none if nothing was logged; otherwise it panics and nothing has changed |
| FsLog.Log.LeaveOp | xv6/kernel/log.c:153-166 | is the End step; true exactly for the last operation |
| FsLog.Log.DoneCommitting | xv6/kernel/log.c:172-176 | is the Finish step |
| FsLog.Log.EndOp | xv6/kernel/log.c:148-178 | the last operation to end runs End, the steps of one commit, Finish; any other just End; it fails exactly if it is the last and commit finds no buffer |
| FsLog.Log.ReadHead | xv6/kernel/log.c:88-99 | the list in memory becomes the one on disk |
| FsLog.Log.RecoverFromLog | xv6/kernel/log.c:118-125 | is ReadHead, a RedoBlock step for each block the header records, and RedoDone |
| Ring.Unlink | xv6/kernel/bio.c:128-129 | taking out any node leaves a circular doubly linked list of the others, in order |
| Ring.LinkFront | xv6/kernel/bio.c:130-133 | linking in after the head leaves a circular doubly linked list with the node second |
| BufferCache.RecycleKeepsLatest | xv6/kernel/bio.c:76-86 | recycling a clean buffer for another block changes the latest contents of no block |
| BufferCache.FillKeepsLatest | xv6/kernel/bio.c:97-100 | reading a block into its buffer changes the latest contents of no block |
| BufferCache.LatestIs | xv6/kernel/bio.c:57-102 | a valid buffer of a block holds that block's latest contents, since it is its only buffer |
| BufferCache.MovedPos | xv6/kernel/bio.c:126-134 | moving a buffer to the front keeps the list a permutation of all buffers |
| BufferCache.Cache.constructor | xv6/kernel/bio.c:36-52 | the list holds every buffer once, and readers see the disk |
| BufferCache.Cache.BuildList | xv6/kernel/bio.c:43-51 | after binit's loop the list is circular, doubly linked, and has each buffer once, the last one first |
| BufferCache.Cache.PutFirst | xv6/kernel/bio.c:46-50 | the buffer comes right after the head and the rest keep their order |
| BufferCache.Cache.Lookup | xv6/kernel/bio.c:64-72 | finds the buffer of a block exactly if there is one |
| BufferCache.Cache.LeastRecent | xv6/kernel/bio.c:74-87 | finds an unused buffer with every less recently used one in use; none exactly if all are in use |
| BufferCache.Cache.Bget | xv6/kernel/bio.c:57-88 | the block's buffer, else the least recently used unused one; a buffer in use is never recycled, no block gets two buffers, readers see no change; it fails exactly when the C code panics |
| BufferCache.Cache.Bread | xv6/kernel/bio.c:90-102 | the buffer returned is locked, valid and holds the latest contents; no block's latest contents change; it fails exactly when the block has no buffer and all are in use |
| BufferCache.Cache.FillIfInvalid | xv6/kernel/bio.c:97-100 | under the buffer's lock: afterwards the buffer is valid and holds the latest contents |
| BufferCache.Cache.Change | xv6/kernel/log.c:208-216 | the lock holder's change is the new latest contents of that block, and of no other |
| BufferCache.Cache.Bwrite | xv6/kernel/bio.c:106-112 | the disk block becomes the buffer's contents, the buffer is clean, no latest contents change |
| BufferCache.Cache.Bpin | xv6/kernel/bio.c:139-145 | the buffer is the log's too, with one reference more; a count is always the number of users plus the log's pin |
| BufferCache.Cache.Bunpin | xv6/kernel/bio.c:147-153 | the log gives its pin back: the count was above 0 and is one less, and no other buffer's references change |
| BufferCache.Cache.Brelse | xv6/kernel/bio.c:116-137 | one user less and the lock free; the last reference's buffer becomes the most recently used, otherwise the list stays; a changed buffer, which the log has pinned, keeps a count above 0 |
| BufferCache.Cache.AcquireSleep | xv6/kernel/bio.c:69-69 | a user of an unlocked buffer gets its lock |
| BufferCache.Cache.AddUser | xv6/kernel/bio.c:67-67 | one user and one reference more |
| BufferCache.Unreferenced | xv6/kernel/bio.c:76-86 | a buffer with count 0 has no user, is not locked, not pinned and not changed, so it may be recycled |
| LogBuffers.ReadLogBlock | xv6/kernel/log.c:187-187 | write_log gets a buffer for its log block if and only if some buffer is not in use; readers see no change |
| LogBuffers.ReadHomeBlock | xv6/kernel/log.c:188-188 | the logged block has its pinned buffer, so this bread cannot fail, and gives its latest contents |
| LogBuffers.CopyOver | xv6/kernel/log.c:189-192 | the log block on disk becomes the logged block's contents, both buffers are released, no other block changes |
| LogBuffers.WriteLogPass | xv6/kernel/log.c:186-193 | one pass copies one logged block to its log block, if and only if a buffer is spare, and leaves all counts as they were |
| LogBuffers.WriteLog | xv6/kernel/log.c:181-194 | over the buffer cache: the latest contents of the logged blocks go to the log in order and nothing else of the disk changes, if nothing is logged or a buffer is spare; otherwise nothing changes |
| LogBuffers.SpareExact | xv6/kernel/bio.c:74-87 | some buffer is unused if and only if fewer than all are in use |
| LogBuffers.CommitFindsBuffers | xv6/kernel/param.h:10-11 | commit finds its buffers if and only if the logged blocks and the other buffers in use are fewer than NBUF; so never with a full log, since LOGBLOCKS equals NBUF |
| BufferCache.Cache.MoveToFront | xv6/kernel/bio.c:128-133 | relinks one buffer to the front; the others keep their order |
| BlockMap.GainBlock | xv6/kernel/fs.c:406-445 | giving a free block to an empty slot keeps ownership exact |
| BlockMap.LoseBlock | xv6/kernel/fs.c:449-477 | taking a block out of a slot finds it in use and keeps ownership exact |
| BlockMap.NoBlockSharedOrLeaked | xv6/kernel/fs.c:406-477 | exact ownership means: a data block is in use if and only if some inode names it, every address is in the data area, and no two slots name the same block |
| FileSystem.WithEntrySameBut | xv6/kernel/fs.c:431-439 | writing an entry of one inode's indirect block changes no other address of any inode |
| FileSystem.PatchByte | xv6/kernel/fs.c:544-553 | copying into one block of a file changes exactly those bytes of that file, and no byte of another |
| FileSystem.GrownKeepsByte | xv6/kernel/fs.c:406-445 | allocating zeroed blocks changes no byte of any file |
| FileSystem.Finish | xv6/kernel/fs.c:540-562 | writei's loop and its size update together splice the stored bytes into the file, and no other file changes |
| FileSystem.SplicedTwice | xv6/kernel/file.c:155-172 | splicing at the end of what was just spliced is one splice of both |
| FileSystem.PassFitsShare | xv6/kernel/file.c:149-153 | a write of at most max bytes at any offset needs at most MAXOPBLOCKS blocks, counting a bitmap block for every allocation |
| FileSystem.LongerPassDoesNotFit | xv6/kernel/file.c:149-153 | for one block more per pass the bound on logged blocks of every unaligned write is above MAXOPBLOCKS |
| LongPass.LongerPassOverflows | xv6/kernel/file.c:149-153 | and it is reached: on a disk whose free blocks lie under different bitmap blocks, a write of one block more than filewrite's largest logs more than MAXOPBLOCKS blocks |
| LongPass.DiskExact | xv6/kernel/fs.c:406-445 | that disk is sound: every block in use is named by exactly one slot |
| LongPass.AllLogged | xv6/kernel/fs.c:67-90 | blocks that were free under different bitmap blocks and are used now put twice their number, and the inode's block, into the log |
| FileSystem.RecordedTwice | xv6/kernel/log.c:208-216 | two steps that logged every block they changed have done so together |
| FileSystem.AddrGrown | xv6/kernel/fs.c:412-430 | a zeroed free block in an empty slot of an inode: ownership stays exact and all that was there stays |
| FileSystem.EntryGrown | xv6/kernel/fs.c:431-441 | the same for an entry of its indirect block |
| FileSystem.ChunkWritten | xv6/kernel/fs.c:540-553 | mapping a block and copying into it stores exactly those bytes at that offset of that file |
| FileSystem.FreedExactly | xv6/kernel/fs.c:449-477 | with all slots of an inode empty, exactly the blocks it owned have become free |
| FileSystem.EmptiedFile | xv6/kernel/fs.c:475-476 | with its size set to 0 the file is empty and every other file has the contents it had |
| FileSystem.Files.constructor | xv6/kernel/fs.c:67-90 | a mounted disk with exact ownership and files without holes |
| FileSystem.Files.StoreBytes | xv6/kernel/fs.c:547-552 | the block has the bytes patched in and is logged |
| FileSystem.Files.WriteNext | xv6/kernel/fs.c:540-554 | one pass, in the loop's own variables; it stands still only on a full disk |
| FileSystem.Files.FreeEntries | xv6/kernel/fs.c:466-469 | the blocks of all entries are free, and only this inode has lost blocks |
| FileSystem.Files.FreeIndirect | xv6/kernel/fs.c:471-472 | the indirect block is free and unnamed, with ownership exact again |
| FileSystem.Files.TruncBlocks | xv6/kernel/fs.c:456-473 | the inode names no block, only its blocks were freed, and every block that changed was logged |
| FileSystem.Files.Balloc | xv6/kernel/fs.c:67-90 | the first free block, marked and zeroed; 0 exactly when none is free; logs its bitmap block and itself |
| FileSystem.Files.Bzero | xv6/kernel/fs.c:52-61 | the block is zero and logged |
| FileSystem.Files.Bfree | xv6/kernel/fs.c:93-107 | the block is free and its bitmap block logged; refused exactly where the C code panics |
| FileSystem.Files.BmapDirect | xv6/kernel/fs.c:412-420 | an address below NDIRECT, allocated if missing, with exact ownership kept |
| FileSystem.Files.BmapIndirect | xv6/kernel/fs.c:425-430 | the indirect block, allocated if missing |
| FileSystem.Files.BmapEntry | xv6/kernel/fs.c:431-441 | an entry of it, allocated if missing |
| FileSystem.Files.BmapAbove | xv6/kernel/fs.c:421-442 | both together, with every file's bytes kept |
| FileSystem.Files.Bmap | xv6/kernel/fs.c:406-445 | the block's address; 0 only when no block is free; what was there stays, ownership stays exact, every block that changed is logged, and only the allowed ones are |
| FileSystem.Files.ReadChunk | xv6/kernel/fs.c:506-518 | one pass reads that part of the file in one block and changes nothing |
| FileSystem.Files.Readi | xv6/kernel/fs.c:495-520 | exactly the slice of the file's bytes asked for, cut at its end, across direct and indirect blocks; nothing is allocated, logged or changed |
| FileSystem.Files.WriteChunk | xv6/kernel/fs.c:540-553 | one pass stores what fits in one block, or nothing when no block is free |
| FileSystem.Files.WritePass | xv6/kernel/fs.c:540-554 | one pass keeps the loop's account of bytes stored and blocks logged |
| FileSystem.Files.WriteLoop | xv6/kernel/fs.c:540-554 | how many bytes were stored: all unless the disk filled up |
| FileSystem.Files.Iupdate | xv6/kernel/fs.c:227-243 | the inode on disk is the one in memory; its block is logged |
| FileSystem.Files.WriteEnd | xv6/kernel/fs.c:556-564 | the size covers what was written and the file is the old one with the bytes spliced in |
| FileSystem.Files.Writei | xv6/kernel/fs.c:529-565 | refuses exactly as the C code does; else splices the first tot bytes into the file at off, all unless the disk filled up; every other file is as it was and no block of any file moves; every block that changed was logged, and at most the budget of that write |
| FileSystem.Files.FilewritePass | xv6/kernel/file.c:155-172 | one transaction stores the next bytes after those before, logs every block it changes, and at most MAXOPBLOCKS |
| FileSystem.Files.Filewrite | xv6/kernel/file.c:148-173 | the file has the first bytes spliced in, all unless off was past the end, the file would be too long or the disk filled up; no transaction logs more than MAXOPBLOCKS blocks |
| FileSystem.Files.FreeAddr | xv6/kernel/fs.c:456-461 | the direct slot is empty and its block free |
| FileSystem.Files.FreeEntry | xv6/kernel/fs.c:466-469 | the entry's block is free |
| FileSystem.Files.TruncDirect | xv6/kernel/fs.c:456-461 | all direct slots are empty, exactly their blocks freed |
| FileSystem.Files.TruncIndirect | xv6/kernel/fs.c:463-473 | all entries' blocks and the indirect block are free |
| FileSystem.Files.Itrunc | xv6/kernel/fs.c:449-477 | the file is empty, exactly its blocks are free again, every other file is unchanged, every block that changed was logged, and no block was found already free |
| CowMemory.StepKeepsInv | xv6/kernel/vm.c:355-397 | every step of fork, store fault, lazy fault, unmap and store, interleaved over all processes, keeps: counts are numbers of holders, a frame someone may write has one holder |
| CowMemory.StepRefines | xv6/kernel/vm.c:355-397 | each step changes what processes see as eager fork would: fork's return copies, a store stores, a new page appears zeroed, an unmapped one goes, all other steps change nothing |
| CowMemory.RunInv | xv6/kernel/vm.c:355-397 | the invariant holds in every state of every run |
| CowMemory.RunRefines | xv6/kernel/vm.c:355-397 | copy-on-write fork is eager fork, in every interleaving |
| CowMemory.PathsProceed | xv6/kernel/trap.c:95-124 | no kernel path is stuck half-way: kfree finds a count to drop and every entry about to be used is there |
| CowMemory.UnmapProceeds | xv6/kernel/vm.c:211-230 | uvmunmap's kfree never panics, in a process or on fork's error path |
| CowMemory.CountIsMappers | xv6/kernel/kalloc.c:205-211 | with no process in the kernel, a frame's count is the number of page-table entries mapping it, and a frame mapped writable is mapped by that one entry |
| KfreeAsWritten.JunkFillExact | xv6/kernel/kalloc.c:68-103 | in every state that meets the invariant and at every call of kfree: filling before the count is looked at leaves what every process sees as filling on the last drop would, if and only if the count was 1, or the page was junk already, or no other visible entry maps the frame |
| KfreeAsWritten.StepAsWrittenExact | xv6/kernel/kalloc.c:68-103 | a step of the kernel as written keeps the invariant and is a step of eager memory if and only if its call of kfree, if any, is harmless in that sense |
| KfreeAsWritten.RunAsWrittenRefines | xv6/kernel/kalloc.c:68-103 | a run of the kernel as written is a run of eager memory up to its first call that is not harmless, and departs from it there |
| KfreeAsWritten.HarmlessKeepsInv | xv6/kernel/kalloc.c:68-103 | a harmless call keeps the invariant |
| KfreeAsWritten.CopySurvives | xv6/kernel/trap.c:100-123 | where no other visible entry maps the dropped frame, no store fault under way has its copy in it or made its copy from it |
| KfreeAsWritten.LazyFailHarmless | xv6/kernel/vm.c:522-525 | vmfault's call is always harmless |
| KfreeAsWritten.UndoHarms | xv6/kernel/vm.c:394-395 | a call on fork's error path is harmless only if the page is junk already: the parent sees it |
| KfreeAsWritten.StoreFaultHarms | xv6/kernel/trap.c:95-124 | a run from boot: a process gets a page, forks and stores to it, and its fault's kfree puts junk into the child's page |
| KfreeAsWritten.ExitHarms | xv6/kernel/vm.c:211-230 | a run from boot: the child of such a fork unmaps the page, and kfree puts junk into the parent's |
| KfreeAsWritten.BootInv | xv6/kernel/kalloc.c:34-62 | these runs start where the invariant holds |
| CowMemory.VisibleStays | xv6/kernel/trap.c:95-124 | a page a process has keeps its contents over every step that does not store through its own entry |
| CowMemory.OverwrittenAlone | xv6/kernel/kalloc.c:68-103 | nobody else refers to a frame that a step overwrites |
| UserMemory.Vm.constructor | xv6/kernel/kalloc.c:34-62 | all frames free, no process has pages |
| UserMemory.Vm.Kalloc | xv6/kernel/kalloc.c:131-161 | a frame that was free, counted once; -1 exactly when none is free |
| UserMemory.Vm.Kfree | xv6/kernel/kalloc.c:68-103 | one reference less; only the last frees and fills the frame |
| UserMemory.Vm.Kaddref | xv6/kernel/kalloc.c:205-211 | one reference more |
| UserMemory.Vm.FaultTake | xv6/kernel/trap.c:100-105 | takes a frame; what processes see is unchanged |
| UserMemory.Vm.FaultCopy | xv6/kernel/trap.c:109-109 | the new frame holds the page's contents; what processes see is unchanged |
| UserMemory.Vm.FaultInstall | xv6/kernel/trap.c:111-120 | the entry maps the copy, writable; what processes see is unchanged |
| UserMemory.Vm.FaultDrop | xv6/kernel/trap.c:123-123 | the old frame has one reference less; what processes see is unchanged |
| UserMemory.Vm.CowFault | xv6/kernel/trap.c:95-124 | the process can store to its own copy, or is killed for want of a frame; no process sees any difference |
| UserMemory.Vm.StoreFault | xv6/kernel/trap.c:87-134 | the process can store to the page or is killed, and killed exactly if the page is there and not copy-on-write, or a frame is wanted and none is free, or the address is beyond p->sz, or mappages fails; what processes see gains at most a zeroed page there |
| UserMemory.Vm.ForkStart | xv6/kernel/vm.c:355-362 | a fork begins; what processes see is unchanged |
| UserMemory.Vm.ForkMark | xv6/kernel/vm.c:370-380 | the parent's page is read-only and marked; what processes see is unchanged |
| UserMemory.Vm.ForkMap | xv6/kernel/vm.c:382-384 | the child's entry maps the same frame; what processes see is unchanged |
| UserMemory.Vm.ForkCount | xv6/kernel/vm.c:387-387 | the frame has one reference more; what processes see is unchanged |
| UserMemory.Vm.SharePage | xv6/kernel/vm.c:362-389 | one page is shared by parent and child with the right count, or mappages failed and nothing changed |
| UserMemory.Vm.ForkUndo | xv6/kernel/vm.c:394-395 | one page of the child is given back; what processes see is unchanged |
| UserMemory.Vm.ForkUndone | xv6/kernel/vm.c:394-396 | the child has no pages left |
| UserMemory.Vm.DiscardPages | xv6/kernel/vm.c:394-396 | all pages the child had are given back; what processes see is unchanged |
| UserMemory.Vm.ForkFail | xv6/kernel/vm.c:394-396 | the failed fork ends with no process seeing any difference |
| UserMemory.Vm.ForkEnd | xv6/kernel/vm.c:392-392 | the child sees what the parent sees |
| UserMemory.Vm.SharePages | xv6/kernel/vm.c:362-396 | the child has exactly the parent's pages, or mappages failed and it has none; what processes see is unchanged |
| UserMemory.Vm.Uvmcopy | xv6/kernel/vm.c:355-397 | the child sees exactly what the parent sees and nobody else any difference; if mappages fails anywhere, nobody sees any |
| UserMemory.Vm.LazyTake | xv6/kernel/vm.c:518-521 | takes a zeroed frame; what processes see is unchanged |
| UserMemory.Vm.LazyMap | xv6/kernel/vm.c:522-526 | the process sees a zeroed page more |
| UserMemory.Vm.LazyFail | xv6/kernel/vm.c:522-525 | the frame is given back; what processes see is unchanged |
| UserMemory.Vm.AddPage | xv6/kernel/vm.c:518-526 | one zeroed page more, or nothing |
| UserMemory.Vm.Vmfault | xv6/kernel/vm.c:506-527 | a zeroed writable page, exactly unless the byte address is at or above p->sz, the page is mapped, no frame is free or mappages fails; no other entry changes |
| UserMemory.Vm.UnmapFree | xv6/kernel/vm.c:224-227 | drops the reference; from here on the process does not see the page, and nothing else any process sees changes |
| UserMemory.Vm.UnmapClear | xv6/kernel/vm.c:228-228 | the entry is cleared; what processes see is unchanged |
| UserMemory.Vm.UnmapPage | xv6/kernel/vm.c:219-229 | the page is gone if it was there, and nothing else |
| UserMemory.Vm.Uvmunmap | xv6/kernel/vm.c:211-230 | exactly the pages named are gone; no other page of any process changes |
| UserMemory.Vm.GrowPage | xv6/kernel/vm.c:266-279 | one more zeroed page, or back to what the process had at first |
| UserMemory.Vm.TakeBack | xv6/kernel/vm.c:268-278 | the error path leaves the process exactly what it had |
| UserMemory.Vm.GrowAll | xv6/kernel/vm.c:266-279 | all the pages, or none and then mappages failed at one of them or there were fewer frames than pages |
| UserMemory.Vm.Uvmalloc | xv6/kernel/vm.c:256-281 | zeroed pages up to newsz, or 0 and exactly what the process had before; 0 only if mappages failed or there were too few frames |
| UserMemory.Vm.Uvmdealloc | xv6/kernel/vm.c:287-299 | exactly the pages wholly above newsz are gone |
| UserMemory.Vm.FindPage | xv6/kernel/vm.c:422-431 | the page's frame, lazily allocated if missing |
| UserMemory.Vm.CopyoutPage | xv6/kernel/vm.c:421-446 | the page's contents become those asked for if and only if it is a user page with a writable entry, or missing and to be had; otherwise nothing changes |
| UserMemory.Vm.WritePage | xv6/kernel/vm.c:433-441 | a page that is there is written if and only if its entry is writable |
| UserMemory.Vm.StoreTo | xv6/kernel/vm.c:438-441 | a store through a writable entry changes that page of that process only |
| UserCopy.PieceCopied | xv6/kernel/vm.c:438-441 | writing one piece into its page changes exactly its bytes |
| UserCopy.CopiedTwice | xv6/kernel/vm.c:443-445 | a piece copied where the one before ended makes one copy of both |
| UserCopy.CopyPiece | xv6/kernel/vm.c:422-441 | the piece is copied, and a frame used if the page was missing; it stops exactly where the code does, a copy-on-write page included, and then nothing changes |
| UserCopy.CopyNext | xv6/kernel/vm.c:421-446 | one pass of the loop is one step of the copy, or it stops exactly where the copy does |
| UserCopy.CopyLoop | xv6/kernel/vm.c:421-447 | the loop goes through those steps from the first page to where the copy stops |
| UserCopy.PathIsCopy | xv6/kernel/vm.c:421-447 | steps up to where the copy stops are the whole of it |
| UserCopy.CopyAll | xv6/kernel/vm.c:415-448 | what is copied and how far is exactly the copy with the process's copy-on-write pages refused; no other process sees any difference |
| UserCopy.CopyToCopies | xv6/kernel/vm.c:415-448 | a copy, whatever pages it refuses, changes exactly the bytes it gets to |
| UserCopy.RefusalShows | xv6/kernel/vm.c:433-436 | refusing copy-on-write pages makes a copy differ from the one eager fork gives if and only if that one writes to such a page, and then it stops short |
| UserCopy.EntryTest | xv6/kernel/vm.c:433-436 | an entry is writable if and only if the process sees a writable page that is not marked copy-on-write |
| UserCopy.Copyout | xv6/kernel/vm.c:415-448 | exactly the bytes up to where it stops change, in this process only; success, how far and what is seen are those of copyout with eager fork if and only if that would write to no page marked copy-on-write; otherwise it fails short of that |
| UserCopy.CopyoutAfterFork | xv6/kernel/vm.c:415-448 | after a fork, copyout to any page the process may write fails where with eager fork it succeeds |
| UserMemory.GrownBack | xv6/kernel/vm.c:269-277 | unmapping the pages a process grew by gives back what it had |
| PageTable.LinkKeepsTrees | xv6/kernel/vm.c:125-128 | a new blank table page keeps the table pages of all tables disjoint trees |
| PageTable.LinkKeepsLookup | xv6/kernel/vm.c:125-128 | it changes the mapping of no page |
| PageTable.SetLookup | xv6/kernel/vm.c:131-131 | writing the entry for a page changes what the table says of that page only |
| PageTable.SameEntrySamePage | xv6/kernel/vm.c:120-131 | different pages below MAXVA have different entries |
| PageTable.LeaflessIsUnmapped | xv6/kernel/vm.c:301-319 | a table has no leaf if and only if the flat map is empty |
| PageTable.Tables.Uvmcreate | xv6/kernel/vm.c:196-205 | a new table that maps nothing; other tables say what they said |
| PageTable.Tables.Descend | xv6/kernel/vm.c:120-130 | the table page below, made if missing and wanted; no mapping changes |
| PageTable.Tables.Walk | xv6/kernel/vm.c:114-132 | the entry of the page, or none only when its table page is missing and may not or cannot be made; no page's mapping changes, and without alloc nothing does |
| PageTable.Tables.SetEntry | xv6/kernel/vm.c:184-184 | the flat map changes at that page only |
| PageTable.Tables.MapPage | xv6/kernel/vm.c:180-184 | one page is mapped to its frame and flags, or refused as in C |
| PageTable.Tables.MapNext | xv6/kernel/vm.c:179-189 | one more page of the range is mapped |
| PageTable.Tables.Mappages | xv6/kernel/vm.c:162-192 | exactly the pages of a prefix of the range are mapped, to consecutive frames, the whole range when it returns 0; every other page of every table keeps its mapping |
| PageTable.Tables.UnmapEntry | xv6/kernel/vm.c:219-229 | one page is unmapped; its frame is what is freed |
| PageTable.Tables.UnmapNext | xv6/kernel/vm.c:219-229 | one more page of the range |
| PageTable.Tables.Uvmunmap | xv6/kernel/vm.c:211-230 | exactly the pages named are unmapped, and with do_free exactly their frames are freed, once each |
| PageTable.Tables.FreeEntry | xv6/kernel/vm.c:307-317 | the tables below one entry are freed, each once |
| PageTable.Tables.Freewalk | xv6/kernel/vm.c:304-319 | ends; panics exactly when a leaf is left; frees each table page at or below exactly once and writes no other |
| PageTable.Tables.FreeTree | xv6/kernel/vm.c:304-319 | a whole table is gone, and the other tables say what they said; panics exactly when a page is still mapped |
| PageTable.Tables.Uvmfree | xv6/kernel/vm.c:342-347 | user frames and table pages are freed once each; panics exactly when a page at or above sz is still mapped |
| PageLists.StepKeepsInv | xv6/kernel/kalloc.c:68-161 | every step of kalloc, ksteal, kfree and kaddref on any CPU keeps each page in one place |
| PageLists.RunInv | xv6/kernel/kalloc.c:68-161 | in every state of every run |
| PageLists.ExactlyOnePlace | xv6/kernel/kalloc.c:68-161 | in every interleaving each page is exactly one of: once on one list, in one thread's hands in mid-call, or in use with count at least 1 |
| PageLists.PlaceIsUnique | xv6/kernel/kalloc.c:68-161 | no page is in two places or twice on a list |
| PageLists.NullMeansAllEmpty | xv6/kernel/kalloc.c:107-161 | kalloc returns null only if its own list and every other was empty at some moment of the call |
| PageLists.CountStoreInBounds | xv6/kernel/kalloc.c:149-155 | the index the code computes is inside the count array if and only if a page was found, and is then that page's own |
| PageLists.Kmem.Take | xv6/kernel/kalloc.c:139-143 | the head of a list leaves it |
| PageLists.Kmem.Ksteal | xv6/kernel/kalloc.c:107-125 | the head of the first non-empty list after this CPU's; none exactly when all others are empty |
| PageLists.Kmem.Find | xv6/kernel/kalloc.c:131-148 | the head of this CPU's list, else of the first other that is not empty; none exactly when every list is empty |
| PageLists.Kmem.Kalloc | xv6/kernel/kalloc.c:131-161 | a page with count 1, its own list first; none exactly when every list is empty |
| PageLists.Kmem.KallocAsWritten | xv6/kernel/kalloc.c:131-161 | as written: the count store is inside the array if and only if some list was not empty before the call, and then it is the page's count; otherwise no page changes hands |
| PageLists.Kmem.Kfree | xv6/kernel/kalloc.c:80-102 | one reference less; the last one puts the page on this CPU's list |
| PageLists.Kmem.KfreeAt | xv6/kernel/kalloc.c:68-103 | panics exactly for an address that is no page of ours or a page with no reference |
| PageLists.Kmem.Freerange | notes/08-copyOnWrite.md:236-266 | as intended: every page of the range goes on the list once |
| PageLists.Kmem.FreerangeAsWritten | xv6/kernel/kalloc.c:53-62 | as written: it always panics, and no page goes on a list |
| Scheduler.StepKeepsInv | xv6/kernel/proc.c:495-576 | every step of every CPU keeps: a process's lock, state, registers and the CPU with it agree |
| Scheduler.RunInv | xv6/kernel/proc.c:495-576 | in every state of every run |
| Scheduler.OneCpu | xv6/kernel/proc.c:511-531 | in every interleaving a process is on at most one CPU, from being picked until the scheduler lets go |
| Scheduler.LoadsSavedContext | xv6/kernel/proc.c:513-522 | when a CPU loads a context, the CPU that last ran the process has finished saving it and no other CPU is with the process |
| Scheduler.VisitedIsOff | xv6/kernel/proc.c:440-485 | allocproc and wait touch only contexts of processes no CPU is with |
| Scheduler.ReadyIsSaved | xv6/kernel/proc.c:511-522 | a RUNNABLE process whose lock another CPU holds has a complete saved context |
| Scheduler.SchedNeverPanics | xv6/kernel/proc.c:548-565 | whoever calls sched holds its own lock and no other, has changed its state and has interrupts off; for yield that follows from the timer interrupt having found interrupts on |
| Scheduler.ReleaseNeverPanics | xv6/kernel/spinlock.c:46-115 | pop_off never panics and a p->lock is released by the CPU that holds it |
| ExitWait.StepKeepsInv | xv6/kernel/proc.c:380-485 | every step of fork, exit, reparent, wait, sleep, wakeup and kill keeps the invariant |
| ExitWait.RunInv | xv6/kernel/proc.c:380-485 | in every state of every run |
| ExitWait.NoLostExit | xv6/kernel/proc.c:380-485 | in every interleaving, whenever wait_lock is free, no process asleep in kwait has a ZOMBIE child, its own or handed to it |
| ExitWait.ZombieHasParent | xv6/kernel/proc.c:380-435 | every process that has exited has a parent that can still wait for it |
| ExitWait.FreedByParentOnce | xv6/kernel/proc.c:454-471 | an exited process is freed by its parent's wait only, once, and only after it has switched away for good |
| ExitWait.NoKidsMeansNone | xv6/kernel/proc.c:476-480 | wait gives up for want of children only when there are none |
| Virtqueue.StepKeepsInv | xv6/kernel/virtio_disk.c:214-326 | every step of requests, device and interrupt handler keeps the invariant |
| Virtqueue.StartedInv | xv6/kernel/virtio_disk.c:62-152 | it holds for a new queue |
| Virtqueue.RunInv | xv6/kernel/virtio_disk.c:214-326 | in every state of every run |
| Virtqueue.DescriptorsAccounted | xv6/kernel/virtio_disk.c:155-291 | in every interleaving each descriptor is free or part of exactly one request in flight, whose three descriptors differ, are linked and say what was asked |
| Virtqueue.AtMostTwo | xv6/kernel/virtio_disk.c:214-232 | at most two requests are in flight |
| Virtqueue.NeverOverwrites | xv6/kernel/virtio_disk.c:270-276 | however often the 16-bit indices wrap, a ring entry is written only where none is still to be read |
| Virtqueue.ReleasesItsOwn | xv6/kernel/virtio_disk.c:293-326 | the handler finds a completed request with status 0, so does not panic, and releases that request's buffer and no other |
| Virtqueue.IndexStep | xv6/kernel/virtio_disk.c:271-276 | an index kept modulo 2^16 selects the slot of the unbounded count |
| Virtqueue.IndexEqual | xv6/kernel/virtio_disk.c:311-322 | indices at most a ring apart are equal modulo 2^16 only if equal |
| Virtqueue.IndicesTell | xv6/kernel/virtio_disk.c:311-322 | so the 16-bit indices of a ring differ if and only if it has an unread entry |
| Virtqueue.WrapHidesNothing | xv6/kernel/virtio_disk.c:303-322 | in every run: the device finds the avail index moved if and only if a request is queued, and the handler's loop goes on if and only if a completed request is not yet seen |
| Virtqueue.PutKeeps | xv6/kernel/virtio_disk.c:270-276 | an entry put where there is room leaves every unread entry in place |
| Virtqueue.LostChainDescs | xv6/kernel/virtio_disk.c:287-288 | freeing a request's chain takes no descriptor from another |
| Virtqueue.Descriptors.AllocDesc | xv6/kernel/virtio_disk.c:155-165 | the first free descriptor, or none exactly when none is free |
| Virtqueue.Descriptors.FreeDesc | xv6/kernel/virtio_disk.c:168-181 | frees one descriptor; refused exactly where the C code panics |
| Virtqueue.Descriptors.Alloc3Desc | xv6/kernel/virtio_disk.c:200-212 | three different free descriptors, or no change when there are not three; it never panics |
| Virtqueue.Descriptors.Undo | xv6/kernel/virtio_disk.c:206-207 | gives back exactly those taken |
| Virtqueue.Descriptors.FreeChain | xv6/kernel/virtio_disk.c:184-196 | ends, frees exactly the chain's three descriptors, never panics |
| Umalloc.PutIn | xv6/user/umalloc.c:33-42 | a block that goes back into its place keeps every unit in one block, none lost |
| Umalloc.Fuse | xv6/user/umalloc.c:33-42 | so does joining two free blocks that touch |
| Umalloc.TakeWhole | xv6/user/umalloc.c:76-77 | so does handing out a whole free block |
| Umalloc.TakeTail | xv6/user/umalloc.c:78-82 | so does handing out the end of one |
| Umalloc.Grow | xv6/user/umalloc.c:54-58 | so does memory from sbrk, which adds its units |
| Umalloc.FuseGaps | xv6/user/umalloc.c:33-42 | after joining, no two neighbours touch that did not before, and the joined pair is one |
| Umalloc.StopsInPlace | xv6/user/umalloc.c:30-32 | free's loop test holds at exactly one place of the ring, where the block belongs by address |
| Umalloc.UnitInOneBlock | xv6/user/umalloc.c:24-90 | no unit is in two blocks, free or in use |
| Umalloc.NoUnitLost | xv6/user/umalloc.c:24-90 | every unit obtained from sbrk is in some block, free or in use |
| Umalloc.UnitsFit | xv6/user/umalloc.c:24-90 | disjoint blocks made of obtained units have together at most as many, so equality of the counts means nothing is lost |
| Umalloc.RequestExact | xv6/user/umalloc.c:52-54 | morecore's request survives sbrk's int parameter if and only if fewer than 2^27 units are wanted |
| Umalloc.LargestRequest | xv6/user/umalloc.c:69-69 | malloc(0xFFFFFFFF) wants 2^28 + 1 units and asks sbrk for 16 bytes |
| Umalloc.LabelExact | xv6/user/umalloc.c:52-59 | with the size morecore writes into the header, units in blocks equal units obtained if and only if the request survived |
| Umalloc.Heap.constructor | xv6/user/umalloc.c:21-22 | no block, nothing obtained |
| Umalloc.Heap.FindPlace | xv6/user/umalloc.c:30-32 | the circular scan ends, at the block after which bp belongs |
| Umalloc.Heap.JoinNext | xv6/user/umalloc.c:33-37 | bp is joined with the block after it exactly if they touch |
| Umalloc.Heap.JoinPrev | xv6/user/umalloc.c:38-42 | the block before it likewise; the ring is then linked, ordered and fully coalesced |
| Umalloc.Heap.Free | xv6/user/umalloc.c:24-44 | the block is free, the ring address-ordered with one wrap and fully coalesced, free blocks and those in use divide exactly the units obtained from sbrk, every other block in use keeps its units |
| Umalloc.Heap.Obtain | xv6/user/umalloc.c:57-58 | the new memory is a block apart from all others, and its units are obtained |
| Umalloc.Heap.AddBlock | xv6/user/umalloc.c:57-60 | new memory joins the free blocks, and one of them has at least that size |
| Umalloc.Heap.Morecore | xv6/user/umalloc.c:46-61 | if the request survives: a free block large enough, or no change when sbrk fails |
| Umalloc.Heap.Scan | xv6/user/umalloc.c:74-86 | the circular scan ends with the first block after freep that is large enough, or with none large enough |
| Umalloc.Heap.Carve | xv6/user/umalloc.c:75-84 | a block of exactly the units wanted leaves the free ones; all stays ordered, disjoint and coalesced |
| Umalloc.Heap.CutWhole | xv6/user/umalloc.c:76-77 | a whole block leaves the ring and is in use |
| Umalloc.Heap.CutTail | xv6/user/umalloc.c:78-82 | the last units of a block are a block in use of that size; those in use before keep theirs |
| Umalloc.CarveWhole | xv6/user/umalloc.c:76-77 | handing out a whole block keeps the ring linked, ordered, disjoint and coalesced, and no unit is lost |
| Umalloc.CarveTail | xv6/user/umalloc.c:78-82 | so does handing out the end of one |
| Umalloc.Heap.Start | xv6/user/umalloc.c:70-73 | the ring is `base` alone |
| Umalloc.Heap.Take | xv6/user/umalloc.c:74-89 | the loop ends after at most one call of morecore |
| Umalloc.Heap.Malloc | xv6/user/umalloc.c:63-90 | a block of the units wanted, disjoint from all in use, which keep theirs; sbrk is called only if nothing fits, and there is no block only if sbrk fails; nothing is promised exactly when more than the int range would have to be asked for |
| Pipe.TestsExact | xv6/kernel/pipe.c:88-88 | the tests for empty and full are right although the 32-bit counters wrap |
| Pipe.PushKeepsFifo | xv6/kernel/pipe.c:95-96 | storing a byte keeps the ring equal to the accepted bytes not yet delivered |
| Pipe.PopKeepsFifo | xv6/kernel/pipe.c:122-128 | so does taking one, which is the oldest |
| Pipe.StepKeepsInv | xv6/kernel/pipe.c:58-134 | every harmless step of writers, readers, closers and kill keeps: whoever sleeps although it could go on will be woken by the holder of the lock |
| Pipe.RunInv | xv6/kernel/pipe.c:58-134 | in every state of every harmless run |
| Pipe.RunFifo | xv6/kernel/pipe.c:76-134 | in every run, kills or not, the bytes delivered are a prefix of those accepted and at most PIPESIZE are inside |
| Pipe.NoOneStuck | xv6/kernel/pipe.c:58-134 | whenever the lock is free, a sleeping reader's pipe is empty with its write end open, a sleeping writer's is full with its read end open |
| Pipe.UnkilledIsHarmless | xv6/kernel/pipe.c:76-104 | runs without kills are harmless |
| Pipe.QuitExact | xv6/kernel/pipe.c:84-87 | for each process: a writer that gives up leaves it as it should be if and only if it does not sleep on bytes that are there |
| Pipe.HarmExact | xv6/kernel/pipe.c:84-87 | a writer that gives up keeps the invariant if and only if the pipe is empty or no reader sleeps |
| Pipe.KilledWriterStrandsReader | xv6/kernel/pipe.c:84-87 | a run in which a writer killed after its first byte leaves a reader asleep beside that byte, with the lock free |
| Pipe.Buffer.Push | xv6/kernel/pipe.c:95-96 | one byte more is accepted, and the ring tests stay exact |
| Pipe.Buffer.Pop | xv6/kernel/pipe.c:122-128 | the oldest byte is delivered, and the ring tests stay exact |
| Pipe.Buffer.WriteSome | xv6/kernel/pipe.c:83-99 | between sleeps pipewrite stores the next bytes in order, as many as fit |
| Pipe.Buffer.ReadSome | xv6/kernel/pipe.c:119-130 | piperead gets the oldest bytes in order, as many as asked for or there are |
| Grep.MatchHere | xv6/user/grep.c:85-97 | true if and only if the parsed pattern describes some beginning of the text, all of it after $ |
| Grep.MatchStar | xv6/user/grep.c:100-108 | true if and only if some number of c and then a beginning the rest describes |
| Grep.Match | xv6/user/grep.c:72-82 | true if and only if the pattern describes some substring, tied to the start by ^ |
| Grep.HereFirst | xv6/user/grep.c:85-108 | a first part that fits the first item and a beginning of what follows that fits the others make a match |
| Grep.HereSplit | xv6/user/grep.c:85-108 | every match splits so |
| Grep.PrintedIsSelected | xv6/user/grep.c:11-35 | what grep prints is exactly the matching finished lines before the first line of 1023 characters or more |
| Grep.ExactWhenLinesFit | xv6/user/grep.c:11-35 | for every pattern grep prints exactly the matching finished lines, if and only if every finished line is at most 1023 bytes with its newline |
| Grep.Strchr | xv6/user/grep.c:21-21 | the first newline of the string, if any |
| Grep.PrintLine | xv6/user/grep.c:22-26 | the line with its newline if it matches, else nothing; the buffer after it stays |
| Grep.NextLine | xv6/user/grep.c:20-28 | one pass of the inner loop prints the next finished line if it matches, and none exactly when the buffer holds no more; the buffer after it is intact |
| Grep.PrintLines | xv6/user/grep.c:20-28 | what is printed and what is left account for the whole buffer |
| Grep.Pass | xv6/user/grep.c:17-33 | what is printed, the unfinished line kept and the input to come account for all that was there |
| Grep.ReadPass | xv6/user/grep.c:17-33 | one pass of the outer loop, with the input that read gave |
| Grep.Grep | xv6/user/grep.c:11-35 | the output is a function of the input alone, however read cuts it up |

## Left out

- Hardware and assembly: `swtch` is one step that saves and one that loads; device registers, `satp` and
  fences do not appear; memory is sequentially consistent.
- Liveness: nothing is said about starvation in `begin_op`, spinning in `acquire`, or that a device answers.
- Path lookup, directories and link counts (`sysfile.c`, `namex`, `dirlink`), inode allocation and the inode
  cache: they would add many members with easy claims.
- Copy faults inside `readi` and `writei`: the user's buffer is a value, so `either_copyin` and
  `either_copyout` do not fail there.
- Interleaving inside the file system: the methods of `FileSystem` run one after another, each under its
  inode's lock, and the passes of one `filewrite` are not interleaved with other operations on that file.
- FileSystem.Files.Writei: bytes and block numbers of a data block are kept apart, so an indirect block is not also
  readable as bytes.
- BufferCache.Cache.Brelse: the rule that callers log a change, and so pin its buffer, before they release it is a
  precondition, as `log.c` documents it. Sleep locks are taken when free; waiting for one is not modelled.
- FsLog.Log.Commit: the number of buffers that others use is taken not to change while commit runs.
- UserMemory.Vm.Kfree: the junk fill is modelled on the last drop, the intent; the code's order is in
  `KfreeAsWritten`.
- PageLists.Kmem.Kalloc: does not store a count when it finds no page; the code's store is in KallocAsWritten.
- UserMemory.Vm.AddPage: whether `mappages` finds the table pages it needs is a parameter; table pages are not drawn
  from the frames that `free` counts. `PageTable` has them, over an allocator of its own.
- UserMemory.Vm.Uvmalloc: the same, with `failAt` the page where `mappages` fails, so "too few frames" counts user
  frames only.
- Scheduler.SchedNeverPanics: that callers of `sleep` hold one spinlock, the one passed to it, and `kexit` only
  `wait_lock`, is an assumption of the steps SleepLock and ExitLock.
- PageTable.Tables.Mappages: addresses are page numbers, so the alignment panics cannot be written.
- The kernel's mirror of user page tables (`vmcopyin.c`, `kvmfreeproc`) is not part of this model.
- `freemem`, `nproc`, `sysinfo`, alarms and the system call table: small, or not consistent with the rest.
- Umalloc.Heap.Malloc: the program is taken to keep its hands off block headers, and `sbrk` to answer with memory
  above all it gave before; other callers of `sbrk` may leave gaps.
- Umalloc.Heap.Free: a block is freed once and only if malloc gave it; the C code does not check.
- Pipe: `pipealloc` and the freeing of the pipe's page are left out; a read or write call holds a reference
  to its end, so an end is closed only when no call of that end is under way.
- Grep.Grep: the input has no NUL bytes; with one, `strchr` stops short. `read` returns what it likes, at
  least one byte while there is room and input, and no error before the end.
- Virtqueue: the device completes requests with status 0; feature negotiation is left out.
