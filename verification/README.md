# Verified models of xv6

Dafny models of the hard parts of an xv6 RISC-V kernel and three pieces of its user code, with
proofs of what they promise. `dafny verify dfyconfig.toml` checks the whole project.

Each component comes in two layers. The code that works in place is imperative Dafny: classes whose
methods and loops follow the source and are proved against functions or predicates on values. What
the source promises over whole runs is proved about those values, or about a transition system whose
steps are the critical sections of the source. Long invariants are quantifications over one named
predicate per element (a frame, a request, a pair of processes), instantiated only where a proof
mentions that element.

**Crash-safe storage.** `LogFormat` says what a disk with a log means: the blocks recovery would
produce. `Log` is the code that touches the disk, on a disk that remembers every image it passed
through. `LogProtocol` is the redo log with group commit, concurrent reservations, crashes and
recovery as a transition system that refines an atomic disk, and `LogProgress` says that commits and
boots get done. `LruRing`, `BufferCache`, `BufferProtocol` and `BufferRecency` are the buffer cache:
the linked ring, its sequential meaning, its concurrent use under the sleep locks, and its order
over time. `CommitCache` puts the committing thread on top of it. `FsBytes`, `FsBlocks`, `FsSlots`,
`FsAccount`, `FsDisk`, `FsMap`, `FsRead`, `FsWrite`, `FsTruncate`, `FsTx` and `FileSystem` are the
block allocator, block maps and files, with the inodes in memory kept apart from those on disk;
`Mkfs` builds the image that establishes their invariant, `FsRuns` goes from there through any
sequence of operations, and `FileCrash` joins filewrite to the log. `Links`, `LinkSpecs`,
`LinkSteps`, `LinkRuns` and `SysFile` are directory entries and link counts: the operations, what
each promises by itself, what they keep together, and the code.

**Processes.** `Scheduler` is scheduler/sched/sleep/wakeup over any number of CPUs at lock
granularity, and `SleepWake` what its callers rely on; `ExitWait` is fork, exit, reparent and wait,
`WaitKids` what wait reports, and `InitWait` a run that shows why init is excepted there.

**Memory.** `Sv39` has the address split and entry encodings (section 4.4 of the RISC-V Privileged
Architecture, version 1.12), `PageTree` three-level tables in physical memory with the use of every
frame, `Translation` the hardware's walk over them (section 4.3.2), `Frames` the free list threaded
through free pages, `Vm`, `Uvm` and `FreeWalk` the operations. `FreeList` and `Umalloc` are the
user-level allocator.

**Disk requests.** `Virtio` is driver and device as two step relations over a split queue (section
2.6 of the OASIS VIRTIO 1.1 specification); `VirtioDevice` reads the descriptors as a block device
does (section 5.2.6) and says what a request gets done; `VirtioDriver` is the driver code.

**Languages and streams.** `Shell`, `ShellPrint`, `ShellText`, `ShellGrammar` and `ShellParser` are
the shell's parser on values, a printer, the text a user may type for a command, the grammar, and
the parser on its buffer; `Grep` is the matcher; `PipeBuf` the pipe. `RingIndex` has the arithmetic
of rings under wrapping counters, `Options` a value that may be missing, `Params` and `ProcStatus`
what several components share.

Claims about the cache and the log are for `force_disk_fail_id == -1` and `force_read_error_pbn ==
-1`, claims about reference counts for boots that find an empty log, and claims about reads and
writes for copies that succeed.

Where code and comments disagree the model follows the code: `uvmdealloc` says oldsz may exceed the
process size, but `uvmunmap` panics on a page that is not mapped; readi is written as if reading
changed nothing, but on a hole bmap allocates.

## Model

| member | source | states |
|---|---|---|
| Log.LogDevice.ReadHead | kernel/log.c:87-98 | The in-memory header becomes the one on disk, count and block list alike |
| Log.LogDevice.WriteHead | kernel/log.c:103-115 | The header block on disk encodes the in-memory list, in one block write |
| Log.LogDevice.WriteLog | kernel/log.c:186-199 | Log block i holds the cached contents of the i-th logged block, and every disk image on the way recovers to the old blocks |
| Log.LogDevice.InstallTrans | kernel/log.c:69-84 | Every named block is home, and every disk image on the way recovers to the same blocks |
| Log.LogDevice.Commit | kernel/log.c:201-211 | Every home block becomes its logged contents, if it was logged, and stays as it was otherwise; of the 2g+2 images a commit of g blocks writes, the first g recover to the blocks before the group and all later ones to the blocks with the whole group applied; an empty group writes nothing |
| Log.LogDevice.RecoverFromLog | kernel/log.c:117-123 | Each block the header names becomes its log block and every other home block stays; every image on the way, so every crash of recovery itself, recovers to the same blocks |
| Log.LogDevice.LogWrite | kernel/log.c:222-244 | Panics exactly when 30 blocks or all but the header of the log are taken or no operation is open, changing nothing; otherwise the block's contents are recorded and the list gains it at most once (absorption) |
| LogProtocol.ReservedStep | kernel/log.c:126-183 | Every step, the unlocked size test included, keeps lh.n plus the unused budgets of all open operations within LOGSIZE and does not panic, when operations add fewer than MAXOPBLOCKS blocks |
| LogProtocol.StepRefines | kernel/log.c:126-244 | Every step of operations, commit, crash and recovery is a step of a disk on which groups of writes become durable atomically |
| LogProtocol.RunRefines | kernel/log.c:69-244 | Every run, whatever the interleaving and wherever the crashes, is a run of the atomic disk; nothing becomes durable at any event other than the header write |
| LogProtocol.CommitDecides | kernel/log.c:186-211 | From the start of a commit, through any commit steps, crashes and recoveries, the durable blocks are the old ones or those with the whole group, as the header write has or has not happened |
| LogProtocol.CrashAtomicity | kernel/log.c:69-123 | After any crashes during commit and recovery every home block is as before the group or as after it, all alike, decided exactly by whether the first write_head reached the disk |
| LogProtocol.CommitExcludesOps | kernel/log.c:151-183 | In every reachable state a commit excludes open operations and the reservation bound holds |
| LogProgress.LastEndCommits | kernel/log.c:151-211 | From every state of the invariant with one operation left, its end_op starts a commit that, undisturbed, ends with exactly the old blocks and the whole group durable and the log at rest; an empty group writes nothing |
| LogProgress.BootRecovers | kernel/log.c:117-123 | A crash in any state of the invariant, those of an interrupted commit or recovery included, is followed by a boot that, undisturbed, ends running with the same blocks and the log at rest |
| LogProgress.Admits | kernel/log.c:126-148 | Outside a commit begin_op waits exactly if ten blocks for each operation inside and its own do not fit beside those logged, so three share an empty log; with nobody inside the log is at rest, so it never waits for a commit that nobody will start |
| LogProtocol.TooBigUnreachableIff | mkfs/mkfs.c:31 | With nlog = LOGSIZE, "too big a transaction" is unreachable if and only if no operation adds MAXOPBLOCKS or more new blocks: the log has one block fewer than begin_op promises |
| LruRing.Unlinked | kernel/bio.c:148-149 | Rewiring the two neighbours' links leaves a ring of the remaining buffers in the same order, read forwards and backwards |
| LruRing.Pushed | kernel/bio.c:150-153 | The four link writes put the buffer at the recent end and leave a ring, read forwards and backwards |
| BufferCache.HitIsFirst | kernel/bio.c:68-78 | The buffer found caches the block and no buffer nearer the recent end does |
| BufferCache.FreeIsOldest | kernel/bio.c:81-94 | The buffer recycled has no references and every less recently used one has some |
| BufferCache.FreeIsStalest | kernel/bio.c:81-94 | While the ring is in the order of last releases, the buffer recycled is, of those nobody references, the one released longest ago; there is none exactly when all are referenced |
| BufferCache.PutOrdered | kernel/bio.c:136-157 | Releasing a buffer keeps the order a permutation of all buffers |
| BufferCache.BCache.constructor | kernel/bio.c:40-57 | The links form a ring of all NBUF buffers, the last initialised most recent |
| BufferCache.BCache.Bget | kernel/bio.c:62-96 | Fails exactly when the block is not cached and every buffer is referenced, changing nothing; a cached block gets its own buffer with one more reference and nothing else changes; otherwise, of the unreferenced buffers, the one released longest ago becomes an invalid buffer for the block with one reference |
| BufferCache.BCache.Brelse | kernel/bio.c:136-157 | The count drops by one; at zero the buffer becomes the most recent, later than all others, which keep their order among themselves, and the links are again a ring of all buffers; above zero no order changes |
| BufferProtocol.UnreferencedIsFree | kernel/bio.c:81-94 | A buffer with a zero count is in nobody's use and caches no logged block, so recycling it loses nothing |
| BufferProtocol.StepKeepsInv | kernel/bio.c:62-171 | Over all interleavings: one buffer per block, counts equal holders, waiters and pins, sleep locks exclude, valid data are the latest logged, logged blocks stay cached; the guards of its commit steps are derived in CommitCache.GuardsHold |
| BufferProtocol.NoUnderflow | kernel/bio.c:136-171 | The decrements of brelse and bunpin never underflow and brelse finds its buffer on the list |
| BufferProtocol.CacheRefinesDisk | kernel/bio.c:100-123 | In every reachable state bread's caller sees the block's latest logged contents, holders are exclusive, and a block in the log is cached, valid and not recyclable |
| BufferProtocol.ViewChangesOnlyByWriters | kernel/bio.c:127-171 | Only a holder's log_write or bwrite changes a block's latest contents; filling, recycling, pinning and unpinning are invisible |
| BufferProtocol.SessionGoesOn | kernel/bio.c:100-157 | In every state of the invariant a reader is stuck only while another holds its buffer: once it has it, an invalid one is read and then shows the latest contents, a valid one already does, and release and brelse are open to it |
| BufferProtocol.SessionStep | kernel/bio.c:100-157 | A session keeps its buffer and block and goes, by its own steps only, from waiting to holding to releasing to gone |
| BufferRecency.OrderIsRecency | kernel/bio.c:136-157 | In every reachable state of any number of sessions the ring is in the order of the times at which each buffer was last left without a user |
| BufferRecency.MissTakesStalest | kernel/bio.c:81-94 | In every run a miss recycles the unreferenced buffer left longest ago and touches no other |
| BufferRecency.HitKeepsBuffer | kernel/bio.c:68-78 | In every run a cached block gets the buffer it is in, with its contents, and one more reference |
| CommitCache.GuardsHold | kernel/log.c:69-84 | What commit's code does meets every guard of the cache protocol: what install_trans writes home is what was logged, and bunpin comes only when it is on disk |
| CommitCache.MoveKeeps | kernel/log.c:186-244 | Every move of operations, readers and the committing thread keeps list, log blocks and pins in agreement, and the cache in order |
| CommitCache.CommitInvisible | kernel/log.c:186-211 | In every run no move of the committer changes the latest contents of a block outside the log, and a block is pinned exactly while it is listed and not yet installed |
| CommitCache.CommitLeavesNothing | kernel/log.c:201-211 | After a commit nothing is pinned and every block on disk is the latest |
| FsBytes.BitSet | kernel/fs.c:63-87 | Adding a clear bit's weight to a byte sets that bit and no other |
| FsBytes.BitClear | kernel/fs.c:90-103 | Subtracting a set bit's weight from a byte clears that bit and no other |
| FsBlocks.HeldByOneSlot | kernel/fs.c:63-103 | No two direct slots, indirect pointers or indirect entries of any inodes hold the same block, and a held block is marked |
| FsSlots.AllocKeeps | kernel/fs.c:63-87 | Marking and zeroing a free block changes no file and no slot |
| FsSlots.AttachEntryKeeps | kernel/fs.c:520-541 | Storing a fresh block in an indirect entry keeps ownership and every file's bytes |
| FsSlots.WriteData | kernel/fs.c:627-663 | Overwriting the block behind one file block changes exactly those bytes of that file and keeps ownership |
| FsSlots.DetachEntry | kernel/fs.c:546-577 | Freeing one indirect entry's block keeps the account of all the others while the entry still points to it |
| FsAccount.SlotStays | kernel/fs.c:494-542 | While owners are only added, every mapped slot keeps its block |
| FileSystem.FileSys.constructor | mkfs/mkfs.c:269-283 | An image whose blocks are properly owned is a file system in order, its inodes in memory those on disk |
| FileSystem.FileSys.LogWrite | kernel/log.c:222-245 | The block joins the transaction, or one of the two panics: too big a transaction, or no transaction open |
| FileSystem.FileSys.Balloc | kernel/fs.c:63-87 | The first unmarked block, now marked and zero, with the two blocks logged; "out of blocks" exactly when every block is marked, and then nothing changed; on any other disk it goes through only inside a transaction and only log_write stops it |
| FileSystem.FileSys.Bfree | kernel/fs.c:90-103 | Clears exactly that block's mark; "freeing free block" exactly when it was clear; otherwise only log_write stops it |
| FileSystem.FileSys.Bmap | kernel/fs.c:494-542 | The block's address, which is one of twelve in the inode or one of 256 four-byte entries of the indirect block, allocating it and the indirect block if need be; a mapped block is found and nothing changes; outside a transaction no other is found; no file's bytes change, every block changed is logged, new blocks go to this file block only, and the inode in memory changes exactly if its own address was missing; "out of range" exactly past MAXFILE, else it stops only on a full disk or in log_write |
| FileSystem.FileSys.Itrunc | kernel/fs.c:546-577 | Frees exactly the file's blocks, leaves it empty in memory and on disk and every other file and its blocks alone; every block changed is logged, inode included; no bfree in it finds a free block, so only log_write stops it |
| FileSystem.FileSys.Readi | kernel/fs.c:598-621 | Exactly bytes [off, off+n) of the file, cut at its end, for every offset and length, holes as zeros; no file's bytes change, and nothing at all if the range has no hole. Outside a transaction it goes through if and only if every file block of the range below the size is mapped. Inside one, if it goes through, the blocks stay properly owned on disk if and only if every direct address the range uses, and the indirect pointer if it uses that, was there. It stops only on a full disk or in log_write |
| FsDisk.DiskOwnsIff | kernel/fs.c:412-427 | With memory properly owned and disk behind it by addresses only, the blocks are properly owned by the inodes on disk if and only if no address is missing there |
| FsDisk.LostAddr | kernel/fs.c:494-542 | A block whose address is in memory but not on disk is marked, so no ownership of the disk's inodes accounts for it |
| FsRuns.HoleImage | mkfs/mkfs.c:177-186 | For a root of any 64 entries mkfs leaves a disk that is properly owned and not full, with no block for the root's second half |
| FsRuns.HoleReadOutside | kernel/file.c:123-129 | On that disk fileread of the entry after the 64, with no transaction open, panics in log_write |
| FsRuns.HoleReadInside | kernel/fs.c:598-621 | The same read inside a transaction returns zeros and leaves a block marked that no slot on disk holds |
| FileSystem.FileSys.Writei | kernel/fs.c:627-663 | Refused, changing nothing, exactly when the offset or the range is out of bounds; otherwise exactly bytes [off, off+n) become the source, the file grows if need be, every other inode's contents and blocks stay, every block changed is logged, the inode reaches its block and no file gets a hole; it stops only on a full disk, a full log, or, with n > 0, outside a transaction |
| FileSystem.FileSys.FileWrite | kernel/file.c:165-187 | After each transaction the file on disk is the old one with a whole number of chunks laid over it, what the transaction changed is logged, and it logged at most 7 blocks on a one-bitmap-block disk; n is returned exactly when the whole range fits; it stops only on a full disk or in a full log, which with one bitmap block is one without room for 7 |
| FileSystem.FileSys.WriteOp | kernel/file.c:169-184 | One transaction appends its chunk to the range written, changes only what it logs, and logs at most 7 blocks (4 data, indirect, bitmap, inode) on a one-bitmap-block disk, which is below the budget TooBigUnreachableIff allows; log_write never finds it outside a transaction |
| FsWrite.AfterCopy | kernel/fs.c:643-662 | After the copying loop: ownership, the new contents of the file and of no other, and the number of blocks logged |
| FsWrite.BudgetSize | kernel/file.c:159-165 | A write that touches k file blocks logs at most k + 3 blocks on a disk with one bitmap block |
| FsWrite.AllMappedKept | kernel/fs.c:627-663 | An operation on one inode that takes no block from another leaves no hole in any other |
| FsRuns.RunOps | kernel/fs.c:546-663 | Any sequence of readi in or outside a transaction, writei and itrunc: every reply, and the files at the end in memory and on disk, are those of an array of byte strings; on disk the blocks are properly owned if and only if no address is missing there; it stops only on a full disk or in log_write; without holes to begin with, with one bitmap block and room in the log for two blocks, only a write stops and the blocks stay properly owned on disk |
| FsRuns.MakeImage | mkfs/mkfs.c:114-186 | The kernel finds exactly the files mkfs appended, the root padded with empty entries; no file has a hole if and only if the root did not end on a block boundary; it fails only on a disk too small |
| FsRuns.Do | kernel/fs.c:546-663 | One operation answers and acts as on an array of byte strings; a read outside a transaction goes through if and only if its range has no hole |
| FsRuns.BootAndRun | mkfs/mkfs.c:71-187 | From mkfs through any sequence of operations, what was built and written is what is read, and what a reboot would find; if the root's entries do not end on a block boundary, only a write can stop it and the blocks stay properly owned on disk |
| FileCrash.HomeNext | kernel/file.c:169-184 | A transaction's logged blocks account for everything it changed on disk, inode block included |
| FileCrash.FileCrashSafe | kernel/file.c:165-187 | With any other operations sharing filewrite's commit groups, at every point of every run with crashes what recovery would produce has, in the blocks the others do not write, what a whole number of its transactions left there: the old file with whole chunks laid over it. If the others write nothing the whole disk is that |
| FileCrash.RecoveredFile | kernel/log.c:117-123 | Once the machine runs again the blocks themselves, those the others do not write, are those of a whole number of transactions |
| Mkfs.ImageBuilder.constructor | mkfs/mkfs.c:117-124 | An image of empty files without holes, in which nothing has been handed out |
| Mkfs.ImageBuilder.Iappend | mkfs/mkfs.c:287-335 | The bytes go at the end of that file and nowhere else, across the direct/indirect boundary; blocks handed out stay exactly the ones some slot holds, no file has anything past its end and none gets a hole; it runs off the disk only when fewer than two blocks per block appended to are left |
| Mkfs.ImageBuilder.RoundUp | mkfs/mkfs.c:177-182 | The root directory's new bytes are zeros, that is, empty entries, and it has no hole if and only if its entries did not end on a block boundary |
| Mkfs.FirstBits | mkfs/mkfs.c:269-283 | A bitmap block with exactly the first bits set |
| Mkfs.ImageBuilder.Balloc | mkfs/mkfs.c:269-283 | The finished image satisfies the kernel's ownership invariant: a block is marked iff it is metadata or held by exactly one slot; no file changes |
| Mkfs.RootSizeMappedIff | mkfs/mkfs.c:177-182 | Rounding up the root directory's size leaves every block below it mapped if and only if its entries do not end on a block boundary |
| Mkfs.RootWithHole | mkfs/mkfs.c:177-182 | The failing input: a root of 64 entries, 1024 bytes, gets a hole |
| Links.LookupIsFirst | kernel/fs.c:671-696 | No live entry before the one found has the name |
| LinkSpecs.CreateMeets | kernel/sysfile.c:251-295 | A name already bound is opened with one more reference if a file is asked for and it is a file or device, and refused otherwise; an unbound one is bound to the first free inode, which gets that kind, one link, one reference and, as a directory, its dots and a link on the parent; every other name and inode is as before; exhaustion and a typeless inode are panics |
| LinkSpecs.LinkMeets | kernel/sysfile.c:125-174 | Refused exactly for a directory as target, a missing parent or a bound name, and then nothing changes; otherwise the target has one link more, the name is bound to it and every other name and inode is as before |
| LinkSpecs.UnlinkMeets | kernel/sysfile.c:192-249 | "." and "..", unbound names and directories that are not empty are refused; otherwise exactly that slot is emptied, the inode has one link less, is freed exactly if that was its last and nobody uses it, and a directory takes its link on the parent along |
| LinkSteps.EmptyDirLinks | kernel/sysfile.c:177-190 | An empty directory that has a name has exactly one link, so unlinking it leaves none |
| LinkSteps.GrownKeeps | kernel/sysfile.c:251-295 | create keeps counts equal to names, one name per directory and no dangling entry |
| LinkSteps.JoinedKeeps | kernel/sysfile.c:125-174 | A successful link keeps them |
| LinkSteps.PrunedKeeps | kernel/sysfile.c:192-249 | unlink keeps them, for files and for empty directories |
| LinkSteps.FreedKeeps | kernel/fs.c:449-475 | Freeing an inode without links keeps them: no linked directory names it |
| LinkRuns.LinksConservedIff | kernel/sysfile.c:125-295 | Over every run of create, link, unlink, open and iput in any directories: nlink equals the entries other than "." naming the inode, a linked non-root directory has one name and its ".." holds it, no linked directory names a free inode, and an inode is free iff it has neither links nor references, if and only if no entry is ever made in a directory that has lost its name |
| LinkRuns.UnlinkNeverPanics | kernel/sysfile.c:219-220 | "unlink: nlink < 1" is unreachable, in every directory, while entries are made in linked ones |
| LinkRuns.UnlinkUndoesLink | kernel/sysfile.c:125-249 | Removing a name just linked restores every other inode and its count, and every lookup in the directory |
| LinkRuns.StepConservesIff | kernel/sysfile.c:125-295 | Operation by operation: a create, of any kind, or a link keeps conservation if and only if the directory it makes its entry in is linked |
| LinkRuns.UnlinkedReachable | kernel/sysfile.c:192-249 | Make a directory, enter it and remove it: it lives on without a name |
| LinkRuns.CreateInUnlinkedBreaks | kernel/sysfile.c:251-295 | The failing runs: creating a file, a device or a directory in it breaks conservation |
| Links.FreeInodeIsFirst | kernel/fs.c:197-222 | Every inode before the one found is in use, and all are when the scan fails |
| SysFile.Inodes.Dirlookup | kernel/fs.c:671-696 | The scan finds the first live entry with the name, or nothing exactly if there is none |
| SysFile.Inodes.Dirlink | kernel/fs.c:699-727 | Refuses exactly a bound name; otherwise one entry is made in the first empty slot or at the end and no other changes |
| SysFile.Inodes.Ialloc | kernel/fs.c:197-222 | Takes the first free inode from 1 up, with one reference and no links; fails exactly when none is free |
| SysFile.Inodes.Iput | kernel/fs.c:449-475 | Drops one reference; the last one frees an inode without links |
| SysFile.Inodes.CreateIn | kernel/sysfile.c:251-295 | The step-by-step updates meet create's promise (LinkSpecs.CreateMeets) and are the create the conservation theorem speaks of, existing names, exhaustion and ilock's panic included, in any directory |
| SysFile.Inodes.LinkIn | kernel/sysfile.c:125-174 | The count goes up first and every failure undoes it; the outcome meets link's promise (LinkSpecs.LinkMeets) and is the link the conservation theorem speaks of |
| SysFile.Inodes.UnlinkIn | kernel/sysfile.c:192-249 | The step-by-step updates meet unlink's promise (LinkSpecs.UnlinkMeets) and are the unlink the conservation theorem speaks of, in any directory |
| Scheduler.HandoffStep | kernel/proc.c:472-546 | Every step, over any number of CPUs, keeps p->lock's hand-over across swtch consistent with p's state and with every CPU's c->proc |
| Scheduler.StepKeepsInv | kernel/proc.c:472-619 | Every step of scheduler, sched, yield, sleep and wakeup keeps hand-over, the condition lock and the due wakeups in order; what sleep and wakeup promise their callers is in SleepWake |
| Scheduler.RunningMeansOneCpu | kernel/proc.c:472-546 | Whenever p->lock is free, p is RUNNING iff exactly one CPU has it as c->proc |
| Scheduler.NoLostWakeup | kernel/proc.c:571-619 | No reachable state has a waiter SLEEPING with its condition true and no wakeup scan still due to reach it |
| SleepWake.SleepReturnsLocked | kernel/proc.c:571-602 | In every run, from its call of sleep on a process does nothing of its own but sleep's steps until it has acquired the condition lock again |
| SleepWake.WakeupRousesAll | kernel/proc.c:606-619 | In every run every process has been awake at some point between a signal and the end of its wakeup, and the waker still holds the lock then |
| SleepWake.SleepersOnChannel | kernel/proc.c:571-602 | In every reachable state every sleeper is on the channel, so that no sleeper escapes NoLostWakeup, and only processes inside sleep are |
| SleepWake.CondIs | kernel/proc.c:571-619 | In every run the condition is what the last signal or use made it; no step of the scheduler changes it |
| SleepWake.YieldStep | kernel/proc.c:539-565 | A process that yielded or was forked does nothing until it has released its own lock, and then holds none |
| SleepWake.VisitDecides | kernel/proc.c:472-509 | In every run a CPU that looks at a process runs it exactly if it is RUNNABLE |
| ExitWait.StepKeepsInv | kernel/proc.c:313-463 | Every step of fork, exit, reparent, wait, wakeup1 and the scheduler's release keeps locks, families and sleeping parents in order |
| ExitWait.NoForgottenZombie | kernel/proc.c:341-463 | No parent, init included, is ever left sleeping in wait while it has a zombie child that woke it; only init can sleep beside a zombie child, one that woke another process and was adopted |
| InitWait.InitSleepsBesideZombie | kernel/proc.c:313-403 | That exception is real: a run ends with init asleep in wait beside an adopted zombie, every lock free and nobody left in exit |
| ExitWait.ReapsOnlyTheDead | kernel/proc.c:407-463 | wait frees a slot only after that child has switched off its kernel stack, and the child has no children left |
| ExitWait.ReapedAtMostOnce | kernel/proc.c:407-463 | A slot's exits exceed its reaps by one exactly while it is a zombie |
| WaitKids.WaitReturns | kernel/proc.c:407-463 | In every run, when wait returns: its zombie child has been reaped and nothing else changed; or a zombie child could not be reported and is still there; or it has no child; or it was killed with children none of which had exited |
| WaitKids.ScanDecides | kernel/proc.c:440-461 | In every reachable state a scan that ended without a zombie leads to -1 exactly without children and to sleep exactly with some; for init, whose children may come during the scan, sleep still means a child |
| WaitKids.SleepsForAChild | kernel/proc.c:455-461 | In every reachable state a process asleep in wait has a child |
| WaitKids.WaitStep | kernel/proc.c:407-463 | A process in wait stays in it, whoever wakes it, until one of these returns |
| WaitKids.ExitStep | kernel/proc.c:341-403 | A process that has begun to exit never runs user code again; the next that becomes of it is that its parent reaps it |
| WaitKids.ExitGoesOn | kernel/proc.c:341-403 | In every reachable state a process in exit can go on unless somebody holds the lock it needs next; as it becomes a zombie it has no children left and the parent it wakes is not asleep in wait |
| WaitKids.ScanGoesOn | kernel/proc.c:420-452 | wait's scan reaps the process it looks at exactly if that is a zombie child, and passes it otherwise, as soon as that child's lock is free |
| Sv39.SplitJoin | kernel/riscv.h:285-288 | The three nine-bit indices determine the page below MAXVA |
| Sv39.JoinSplit | kernel/riscv.h:285-288 | Every triple of indices is the split of one page |
| Sv39.SplitInjective | kernel/riscv.h:285-288 | Two pages with the same indices are the same |
| Sv39.IndexBits | kernel/riscv.h:285-288 | The three indices of an address are its nine bits from 30, from 21 and from 12 on |
| Sv39.PteRoundTrip | kernel/riscv.h:278-283 | Encoding a frame and its flags in an entry and decoding it gives them back |
| Sv39.ValueRoundTrip | kernel/riscv.h:278-283 | Decoding a word and encoding it gives the word back |
| Sv39.PteInjective | kernel/riscv.h:278-283 | Different frames or flags have different entries |
| Sv39.FlagPositions | kernel/riscv.h:271-283 | In an entry valid, readable, writable, executable and user are bits 0 to 4 and the frame is bits 10 and up |
| Sv39.MacrosInvert | kernel/riscv.h:278-283 | The shifts and masks of PA2PTE, PTE2PA and PTE_FLAGS on 64-bit words are inverse on aligned 56-bit addresses |
| Sv39.MacrosSplit | kernel/riscv.h:285-288 | The shifts and masks of PX separate aligned addresses below MAXVA |
| PageTree.WalkRole | kernel/vm.c:70-91 | Below a live root the walk meets only that root's own tables for those indices |
| PageTree.AttachTranslates | kernel/vm.c:77-88 | Hanging a zeroed table below an invalid entry changes no translation of any page table |
| PageTree.SetTranslates | kernel/vm.c:147-195 | Writing a leaf entry changes the translation of one page of one page table |
| PageTree.AttachKeeps | kernel/vm.c:77-88 | Hanging a fresh table keeps every frame's use consistent with the tables that lead to it |
| Translation.HardwareAgrees | kernel/vm.c:55-91 | Under every live root and for every address below MAXVA the hardware's walk, with its faults and larger pages, ends exactly at the leaf entry walk finds, or faults exactly if that is missing or unusable |
| Frames.PopChain | kernel/kalloc.c:67-80 | Taking the head leaves a list of exactly the other free frames, once each |
| Frames.PushChain | kernel/kalloc.c:46-62 | Pushing a frame that is in use gives a list of exactly the free frames, once each: no duplicate |
| Vm.Kernel.constructor | kernel/kalloc.c:28-40 | After kinit every frame of the range is on the free list once |
| Vm.Kernel.Kalloc | kernel/kalloc.c:67-80 | The first frame of the list, filled with junk, or 0 exactly when the list is empty; no translation changes |
| Vm.Kernel.Kfree | kernel/kalloc.c:46-62 | The frame is filled with junk and becomes the head of the list; no translation changes |
| Vm.Kernel.Walk | kernel/vm.c:70-91 | The page's leaf table; with alloc at most two missing tables come from the free list and no translation changes, and 0 means the list ran out; without alloc nothing changes |
| Vm.Kernel.MapPages | kernel/vm.c:147-167 | Adds exactly the requested pages at consecutive frames; all other translations of all tables are unchanged, also when it stops early, which is only for a mapped page, an address past MAXVA or an empty free list |
| Vm.Kernel.Uvmunmap | kernel/vm.c:172-195 | Removes exactly the requested mappings, frees exactly their frames if asked, leaves all other translations; panics exactly when the start is unaligned or a page is not mapped |
| Uvm.Uvmcreate | kernel/vm.c:199-207 | An empty page table, or nothing changed exactly when the free list was empty |
| Uvm.Uvmalloc | kernel/vm.c:226-253 | All new pages, zeroed, each in a frame of its own, or the mappings as before and every data frame back on the free list; with three free frames a page it cannot fail |
| Uvm.Uvmdealloc | kernel/vm.c:259-271 | Unmaps exactly the pages between the two sizes and frees their frames |
| Uvm.Uvmcopy | kernel/vm.c:311-340 | Every page below the size is mapped in the child to a frame of its own with the flags and contents of the parent's page; or the child's mappings as before and every data frame back on the free list; with three free frames a page it does not run out of memory |
| Uvm.CopyDisjoint | kernel/vm.c:311-340 | After a copy parent and child map each page to different frames with equal contents, and the parent is untouched |
| FreeWalk.Walk | kernel/vm.c:275-294 | Exactly the table and the tables below it go back to the free list, each once; every other page keeps its contents |
| Uvm.Uvmfree | kernel/vm.c:298-303 | Every user frame and page-table page of the process goes back exactly once; every other frame keeps its use and every other page table its translations |
| Virtio.NoThree | kernel/virtio_disk.c:119-170 | Three requests cannot be in flight: their chains would need nine descriptors |
| Virtio.TakeFinds | kernel/virtio_disk.c:236-242 | The device finds work exactly when a published head waits, and reads that head |
| Virtio.IntrFinds | kernel/virtio_disk.c:258-277 | The modulo comparison of used_idx holds exactly when a completion is unseen, and the id read is the next completed request with its own buffer |
| Virtio.StepKeeps | kernel/virtio_disk.c:172-277 | Every driver and device step keeps chains, descriptor contents, rings, counters and busy flags in agreement; that the contents are the requests made is VirtioDevice.RequestsTold |
| Virtio.RingSafe | kernel/virtio_disk.c:119-277 | In every reachable state free descriptors and in-flight 3-chains partition the NUM descriptors, at most 2 requests are in flight, and used_idx is never ambiguous |
| Virtio.WaitsForTwo | kernel/virtio_disk.c:157-192 | virtio_disk_rw sleeps for want of descriptors only while two requests are in flight |
| Virtio.IntrReleasesIssuer | kernel/virtio_disk.c:258-277 | Each completion releases the buffer that issued it, and no other |
| Virtio.FinishAfterCompletion | kernel/virtio_disk.c:246-253 | A chain is freed only after its completion was seen; the device neither works on it nor will find it |
| Virtio.CompletedOnce | kernel/virtio_disk.c:172-277 | Nothing is completed twice or invented: completions and requests in work are, one for one, the requests the device took |
| VirtioDevice.RequestsTold | kernel/virtio_disk.c:194-229 | In every reachable state the three descriptors of each request in flight read: a 16-byte header with the direction asked for and sector 2 * blockno, then the buffer's 1024 bytes, which the device writes exactly for a read, then one status byte it writes, linked in that order |
| VirtioDevice.DevicePerforms | kernel/virtio_disk.c:172-244 | In every reachable state a device that follows the links of a request in work moves exactly that block between disk and that buffer, in the direction asked for, and changes no other block or buffer |
| VirtioDevice.ReturnsServed | kernel/virtio_disk.c:172-253 | In every run, when virtio_disk_rw returns, a read finds in its buffer what the block held at a moment since the call, and a write has put on disk what the buffer held at the call and changed no other block |
| VirtioDriver.Disk.constructor | kernel/virtio_disk.c:111-112 | Every descriptor is free and the protocol is in its initial state |
| VirtioDriver.Disk.AllocDesc | kernel/virtio_disk.c:119-130 | The first free descriptor, taken |
| VirtioDriver.Disk.Alloc3Desc | kernel/virtio_disk.c:157-170 | The first three free descriptors, or none taken and only addresses of free ones cleared |
| VirtioDriver.Disk.FreeChain | kernel/virtio_disk.c:145-155 | Following the links frees exactly the chain's three descriptors and panics at none |
| VirtioDriver.Disk.Submit | kernel/virtio_disk.c:172-244 | Without three free descriptors it is the retry step; otherwise exactly the caller's request goes in flight, its descriptors read as in VirtioDevice.RequestsTold, and it is the protocol's submit step |
| VirtioDriver.Disk.Intr | kernel/virtio_disk.c:258-277 | Whatever the device takes and completes between its rounds, the handler ends, its rounds are the protocol's interrupt steps, one for each completion seen, and it has seen every completion present at its last test: no request in flight is left completed |
| VirtioDriver.Disk.Finish | kernel/virtio_disk.c:252-253 | The end of virtio_disk_rw is the protocol's finish step; no free_desc in it panics |
| FreeList.InsertOrdered | user/umalloc.c:26-49 | Inserting and coalescing keeps the list address-ordered with no two neighbours touching |
| FreeList.InsertUnits | user/umalloc.c:26-49 | Coalescing loses no units |
| FreeList.InsertClear | user/umalloc.c:26-49 | Live blocks stay clear of the list |
| FreeList.TakeUnits | user/umalloc.c:80-91 | Cutting a block accounts for every unit |
| FreeList.CutClear | user/umalloc.c:80-91 | The block cut off lies clear of what remains |
| Umalloc.Heap.constructor | user/umalloc.c:23-24 | No memory obtained, nothing live |
| Umalloc.Heap.Free | user/umalloc.c:26-49 | One address-ordered ring again, the block covered by a free block, every other live block and header untouched, units conserved; the search terminates |
| Umalloc.Heap.Morecore | user/umalloc.c:51-65 | At least nu fresh units on the list and the top of memory past them, or nothing changed |
| Umalloc.Heap.Malloc | user/umalloc.c:67-97 | A non-null result is a new live block of at least nbytes and less than 16 more, clear of all others; the invariants hold, units are conserved, morecore is called exactly when no free block is large enough, once, and the top of memory moves exactly when it succeeds; null exactly when it was called and failed |
| Umalloc.Serve | user/umalloc.c:26-97 | Any sequence of malloc and free calls: the blocks in use are exactly those handed out and not given back, they overlap neither each other nor a free block nor the end of memory, and every unit obtained is in one of them or free |
| Umalloc.SbrkArgExactIff | user/umalloc.c:58 | sbrk's int parameter receives the size the new block claims if and only if at most 2^31 - 32 bytes are requested |
| Umalloc.SbrkArgShort | user/umalloc.c:58 | The failing input: malloc(0xFFFFFFFF) asks sbrk for 16 bytes while the block claims 2^28 + 1 units |
| ShellPrint.RoundTrip | user/sh.c:332-452 | Printing any command with word arguments (at most 9 each) with minimal parentheses and parsing it gives the same tree |
| ShellPrint.PrintInjective | user/sh.c:332-452 | Different commands have different texts |
| ShellPrint.LineRead | user/sh.c:349-365 | parseline reads back a printed command and stops where it ends |
| ShellPrint.ExecAt | user/sh.c:406-452 | parseexec and parseblock read back a printed command with its redirections, parenthesised where needed |
| ShellText.Characters | user/sh.c:267-268 | Blanks are exactly space, tab, return, newline and vertical tab, symbols exactly the seven of the grammar, and a word may hold every other character |
| ShellText.SameCommand | user/sh.c:270-452 | Two texts with the same tokens are the same command, or both are syntax errors |
| ShellText.TypedRead | user/sh.c:270-314 | Any tokens typed with any blanks between them, and at least one where they would run together, are read back |
| ShellText.SpacingDoesNotMatter | user/sh.c:270-452 | Every text may be respaced in that way without becoming another command |
| ShellText.Padded | user/sh.c:332-347 | Blanks before and behind a text, the newline included, change nothing |
| ShellText.TypedCommand | user/sh.c:332-452 | A printed command is read back under every spacing, and with the newline a user ends it with |
| ShellText.WordsIff | user/sh.c:421-452 | A line of words is the command of those words if and only if there are at most nine; with ten or more the parser panics |
| ShellGrammar.AcceptsIff | user/sh.c:332-452 | The parser gives a command for exactly the texts whose tokens are those of a tree of the grammar that means it: lines of pipelines with any number of "&", blocks in parentheses, redirections in every place, at most nine words |
| ShellGrammar.RefusesIff | user/sh.c:332-452 | It panics exactly on the texts that have no such tree |
| ShellParser.Token | user/sh.c:270-314 | The scanning loops skip exactly the blanks and return end, symbol, ">>" or word by the characters there, a word ending exactly before the next blank, symbol or end, its exact place in the buffer, and the position after it and the blanks behind it |
| ShellParser.PeekAt | user/sh.c:316-325 | Skips exactly the blanks and tells whether one of the symbols follows |
| ShellParser.ParseRedirs | user/sh.c:380-404 | The loop reads the redirections the grammar describes, or panics exactly when a file is missing |
| ShellParser.ParseExecAt | user/sh.c:421-452 | Agrees with the grammar, panics included, and every word is a run of word characters that ends where the next character is none |
| ShellParser.ParseLineAt | user/sh.c:349-365 | Agrees with the grammar, panics included, at every position of every buffer |
| ShellParser.Parse | user/sh.c:332-347 | The tree of the whole text, or a panic exactly on a syntax error or leftovers |
| ShellParser.Nulterminate | user/sh.c:455-499 | A NUL follows every word and no word character is touched |
| ShellParser.ParseCommand | user/sh.c:332-347 | A syntax error leaves the buffer alone; otherwise each argument and file is a C string in it and the tree of them is the command of the text; whatever command the text spells, under any spacing, is the one returned |
| Grep.StarIff | user/grep.c:103-111 | matchstar holds exactly when a run of fitting characters can precede a match of the rest |
| Grep.HereIff | user/grep.c:89-100 | matchhere holds exactly when some prefix of the text is in the pattern's meaning |
| Grep.Matchstar | user/grep.c:103-111 | The loop decides what the recursion decides, so by StarIff the pattern's meaning |
| Grep.Matchhere | user/grep.c:89-100 | The mutual recursion terminates on a lexicographic measure and by HereIff decides the pattern's meaning |
| Grep.Match | user/grep.c:76-86 | True iff some position, only the first after "^", begins a substring in the pattern's meaning with ".", "*" and "$" |
| PipeBuf.CountersTell | kernel/pipe.c:80-135 | The wrapped 32-bit counters tell full and empty apart, and their modular distance is the number of bytes in the pipe, 0..PIPESIZE |
| PipeBuf.WriteKeeps | kernel/pipe.c:101 | A byte written to a pipe that is not full overwrites no unread byte |
| PipeBuf.ReadKeeps | kernel/pipe.c:128 | The byte read is the oldest unread one |
| PipeBuf.Fifo | kernel/pipe.c:80-135 | In every interleaving the k bytes read are the first k bytes written, also when the counters wrap: none is lost, repeated or reordered, and at most 512 are in between |
| PipeBuf.HeldUp | kernel/pipe.c:80-135 | In every interleaving a writer is held up exactly by 512 unread bytes and a reader exactly by none |
| PipeBuf.Pipe.Write | kernel/pipe.c:80-106 | Appends the bytes in order until done or full; stops early only when full, with an error exactly when no reader is left or the writer is killed |
| PipeBuf.Pipe.ReadUpTo | kernel/pipe.c:124-131 | Returns the next bytes in order, n of them or all there are |
| PipeBuf.Pipe.Close | kernel/pipe.c:58-78 | Each end closes once for all, and the page is freed exactly when both are closed |

## Left out

- RAID mirroring, the failure-injection flags and the raw disk system calls: they bypass the cache and the log.
- `chperm` with recursion, symbolic links and permission checks: outside the one-reservation-per-operation discipline or single branches.
- Path lookup (`skipelem`, `namex`): operations start from the directory and name it has found; names are compared whole, without the 14-character limit.
- The byte layout of on-disk inodes and directory entries; an inode's device numbers, mode and permission bits.
- `iget`'s cache slots: an inode's references are one number.
- Failed copies to or from user memory in readi, writei, pipewrite and piperead.
- `bget`'s and `ialloc`'s panics are outcomes; that they cannot happen is not claimed.
- Mkfs.ImageBuilder.Iappend: handing out a block past the end of the disk, where the model stops and the program does not notice.
- mkfs's ialloc, which numbers inodes.
- `copyin`, `copyout`, `copyinstr`, `walkaddr`, `kvmmap`: single walks over pages whose translation is proved.
- `kill`: an extra step from SLEEPING to RUNNABLE.
- The status byte of a virtio request: the device is taken to report success.
- `runcmd`, `getcmd`, grep's line splitting, and everything that only prints.
- Trap, boot, UART, PLIC and CLINT code, assembly, the RAM disk and the small user programs.
- Umalloc.Heap.Malloc: requests of 2^27 units or more are excluded, because sbrk's int parameter then no longer holds their size; SbrkArgExactIff gives the exact limit and SbrkArgShort a failing input.
- Umalloc.Heap.Free: the block is a live one; the source does not notice another.
- Umalloc.Heap.Morecore: requests of 2^27 units or more, as for Malloc.
- Umalloc.Serve: sequences with a request past that limit.
- FileSystem.FileSys.Readi: the size is at most MAXFILE blocks, which every operation keeps.
- FileSystem.FileSys.Writei: a panic leaves nothing claimed but its cause and what was logged.
- FileSystem.FileSys.FileWrite: it starts outside a transaction with nothing logged; its operations have the log to themselves here, and share it in FileCrash.
- FileCrash.FileCrashSafe: the layout of a block of inodes is a parameter, and which blocks the others leave alone.
- VirtioDriver.Disk.Intr: the device moves between rounds, not inside one.
- VirtioDevice.ReturnsServed: the device moves a block in one step, as it completes the request, and nobody else touches a buffer in a request.
- Vm.Kernel.Kfree: the frame is in use and no page table; kfree's panic on an address out of range is outside the model.
- Vm.Kernel.MapPages: size 0, for which the source's last page wraps, and permissions without R, W and X, which would make a table entry.
- Vm.Kernel.Uvmunmap: the pages to unmap are user pages with frames of their own, so its panic "not a leaf" is outside the model.
- Uvm.Uvmalloc: sizes past MAXVA, where walk panics, and ranges with a page already mapped, where mappages does.
- Uvm.Uvmdealloc: the pages between the sizes have frames of their own.
- Uvm.Uvmcopy: the child has no page mapped in the range, where mappages would panic.
- Uvm.Uvmfree: the mapped pages are exactly those below the size, as freewalk demands.
- VirtioDriver.Disk.FreeChain: chains of three, which are all the driver makes.
- VirtioDriver.Disk.Alloc3Desc: its three rounds are written out one after the other.
- LinkRuns.LinksConservedIff: link counts stay below 2^15.
- Scheduler.NoLostWakeup: one channel and one condition lock; the waker holds the lock while it changes the condition.
- LogProtocol.CrashAtomicity: a block write is atomic.
- ShellPrint.RoundTrip: arguments gathered after a redirection go into the tree when it is built; the source fills in the command the redirection already points to.
