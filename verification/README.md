# Nico-OS in Dafny

Nico-OS is a small teaching kernel in the tradition of xv6. This project models
the parts of it whose correctness is hardest to see from the code and proves what
they promise, for every input, every interleaving and every run.

- **The stack as a whole.** `FsOps` makes file system calls log operations and says
  which blocks they log, `DiskFormat` and `Images` say how a volume lies in disk
  blocks and how the code's edits of single blocks change it, and `CrashSafety` puts
  the layers together: stop a machine that runs such calls anywhere, recover it, and
  the disk holds a volume with exact block ownership, no holes and a right directory
  tree. `Running` and `Kernel` close the circle: each call, by its own contract, is a
  legal operation of the log, so a machine that makes calls and loses power in any
  order keeps that promise with nothing assumed about the calls. `Mkfs` makes the
  disk to start from, write by write, and `Reservation` says when the ten blocks that
  an operation reserves are enough.
- **Storage.** The write-ahead log (`LogProtocol`, `Admission`, `Journal`,
  `JournalCode`, `JournalSystem`): group commit with space reservation as interleaved
  atomic sections and whom it lets in, commit and recovery as sequences of single-block writes with a crash
  allowed between any two, also during recovery. The buffer cache (`BufferCache`)
  presents a plain map of blocks. Above them the block allocator and inodes
  (`Volume`, `FileSystem`, `InodeLife`, `FileWrite`, `InodeCache`), directories
  (`Directory`, `DirectoryCode`), path names (`Paths`, `Namei`), the directory tree
  and its link counts (`Tree`), and the calls that change it (`FsCalls`).
  `Layout` is the disk layout that mkfs computes.
- **Memory.** Physical frames and page tables (`Frames`, `AddressSpace`,
  `AddressSpaceCode`, `AddressSpaceMap`), down to the bytes of page-table entries
  and of the free list that is threaded through free frames, with the rights that the
  entries give user code, and parent and child after a copy in `Isolation`; and the
  user-level heap (`Malloc`).
- **Processes.** The scheduler and semaphores (`Scheduler`, `Semaphores`,
  `SchedulerCode`, `Mutex`, `Lists`), and the ring buffer used by many readers and
  writers on top of them (`RingBuffer`, `RingBufferCode`).
- **Shell.** The lexer and the recursive-descent parser (`Shell`, `ShellLexer`), the
  grammar that they accept (`ShellGrammar`), and what they make of broken text
  (`ShellFaults`).

Code that updates state in place is a class whose methods are tied to
specification functions; the laws are lemmas about those functions and about runs
of them. A spinlock only turns interrupts off on the one CPU
(`include/kernel/spinlock.h:15`), so a section that holds one is atomic up to
where the task blocks. Transfers to and from the disk are atomic per block.

## Where the code departs from what one would expect

- `log_write` asserts `lh.n < LOG_SIZE` even when the block is already in the log;
  the assertion can fail on a full log that is otherwise used correctly
  (`LogProtocol.AssertionCanFail`), while the array index stays in bounds.
- `log_begin_op` counts a block that an open operation has logged twice, in `lh.n` and
  in its reservation, and so puts tasks to sleep that could do no harm
  (`Admission.RefusedNeedlessly`). `Admission.OverflowExactly` says when an entry can
  overflow the log; of the guards that look at `lh.n` and the number of open
  operations alone, no safe one lets more in (`Admission.RefusedForReason`).
- `file_write` does not advance `src` from one chunk to the next. What it writes
  is the source repeated in pieces of 1536 bytes (`FileWrite.WrittenFaithfully`,
  `FileWrite.LongWritesCanFail`).
- The release of a file logs one bitmap block for each bitmap block in which the file
  has blocks, the indirect block and the inode (`InodeLife.Itruncate` gives the exact
  set). `file_close` stays within the ten blocks of its operation on every healthy
  volume exactly if the bitmap has at most eight blocks, and `sys_unlink` of a file
  exactly if it has at most seven (`Reservation.CloseFitsExactly`,
  `Reservation.FileUnlinkFitsExactly`, with a healthy volume for every larger disk; the
  80 MB image of `make_fs_img.sh` is larger, `Reservation.BuiltImage`). An operation
  that logs more is no legal run of the log (`Running.ReservationExactly`).
- From a working directory that has been removed together with its parent, a path
  that goes on behind `..` comes to a free inode, on which the assertion of
  `inode_lock` fails (`Namei.StrayReached` is a run, `Namei.StraysExactly` the
  condition).
- `itruncate` leaves the address of the indirect block behind. Ownership is
  therefore stated over inodes in use, and `inode_alloc` wipes the slot.
- `create_file` does not look at the link count of the directory. In a directory
  that has been removed, a new file always breaks the link law, and a new directory
  does exactly if an entry of the removed one, such as its `..`, names an inode in
  use (`Tree.CreateInRemovedDirectory`; `Tree.RemovedDirectoryReached` is a run).
- `path_valid_name` lets names of 60 bytes through, for which neither `struct dirent`
  nor the callers' buffers have room for the NUL (`FsCalls.LongestName`); the
  contracts of the calls are stated for names that have room.
- `sys_unlink` returns for `.` and `..` without giving back its reference to the
  parent (`FsCalls.SysUnlink` states it).
- `superblock_init` may make the bitmap cover up to two blocks past the end of
  the disk; `Layout.LastBit` gives the exact condition, `Layout.OffTheEnd` a disk.
- `palloc` answers `KV2P(NULL)`, which is not 0, when no frame is left
  (`Frames.Ram.Palloc`), so its callers do not notice; the copy of an address
  space is stated for the case that enough frames are free.
- `pgdir_copy` gives user code the right to write every page of the copy. A page keeps
  its rights exactly if user code may write it in the source; one that is read-only or
  the kernel's alone becomes writable (`AddressSpaceCode.RightsKeptExactly`).
- `malloc` computes the number of units in 32 bits; the block is large enough
  exactly if `nbytes + 7` does not wrap (`Malloc.RequestFits`). `morecore` multiplies
  in 32 bits too, and asks `sbrk` for nothing at eight lengths
  (`Malloc.RequestReaches`); it takes -1 as the failure of `sbrk`, while the kernel's
  heap growth answers NULL, and `morecore` then stores its header at address 0
  (`Malloc.Allocator.MoreCore` has it as an outcome).
- `parse_list` drops the failure of a command behind `;` or `&`. The texts that
  `sh_parse` accepts in spite of such a failure, at any depth, are exactly those that
  leave an operator dangling before `)` or the end, contain `()`, or leave a
  parenthesis open (`ShellFaults.DroppedTails`).
- A quote that stands alone at the end of the text is a token of length -1, and
  `copy_peek_string` runs off the buffer on it. `ShellFaults.OverrunsExactly` says
  when; the line reader (`shell/sh/sh_scanner.c:57-99`) lets `a"b "` at the end of a
  script through, because it pairs quotes that the lexer does not pair.
- `pick_task` takes a task off the ready queue without decrementing
  `running_task_cnt`; the counter is not part of the model.

## Model

| member | source | states |
|---|---|---|
| LogProtocol.Log.BeginOp | fs/log.c:92-106 | one atomic section of log_begin_op: the operation enters if and only if no commit runs and lh.n with ten blocks for each open operation and for this one is at most 30; otherwise the task queues on wait_sem behind the others |
| LogProtocol.Log.EndOpFirst | fs/log.c:108-123 | the first section of log_end_op: the commit starts exactly if this was the last open operation; otherwise the longest waiter, if any, is woken |
| LogProtocol.Log.EndOpLast | fs/log.c:125-130 | the section after the commit: committing ends and the longest waiter, if any, is woken |
| LogProtocol.Log.LogWrite | fs/log.c:132-152 | the loop finds the block or appends it; the header gains at most the one new entry and stays without repetitions |
| LogProtocol.InvNext | fs/log.c:92-152 | every section of every task keeps the protocol invariant |
| LogProtocol.LogIsSafe | fs/log.c:92-152 | after every legal run: lh.n plus unused reservations is at most LOG_SIZE, entries are distinct, a commit excludes outstanding operations, and a task sleeps on wait_sem only while an operation, a commit or a woken task is there to wake it later |
| LogProtocol.FullLogOnlyAbsorbs | fs/log.c:132-149 | the assertion of log_write holds for every operation with fewer than ten blocks logged; where it fails, all open reservations are used up and the block is one the caller has logged before, so the index stays in bounds |
| LogProtocol.AssertionCanFail | fs/log.c:135 | there is a legal run in which the assertion lh.n < LOG_SIZE fails for an absorbed write |
| Admission.OverflowExactly | fs/log.c:92-106 | outside a commit: once one more task has been let in, some legal continuation overflows the log if and only if what is logged and what open operations may still log leave fewer than ten blocks |
| Admission.AdmittedIsSafe | fs/log.c:97-104 | the guard lets a task in exactly if lh.n + 10 * (outstanding + 1) is at most 30 outside a commit, and then no continuation overflows the log |
| Admission.RefusedForReason | fs/log.c:97-101 | for every task that is turned away outside a commit there is a reachable state with the same lh.n and the same number of open operations in which letting one more in makes an overflow possible |
| Admission.RefusedNeedlessly | fs/log.c:97-101 | a reachable state in which a task is turned away although no continuation with it inside would overflow the log |
| Journal.HeadRoundTrip | fs/log.c:45-71 | read_head returns the header that write_head stored, whatever else the block held |
| Journal.CommitPrefix | fs/log.c:73-82 | after any number of the single-block writes of commit, what recovery would produce is the old home blocks before the header write and the new ones from it on |
| Journal.RecoverPrefix | fs/log.c:84-90 | after any number of recovery's own writes, recovery would still produce the same home blocks |
| Journal.InterruptedHeals | fs/log.c:84-90 | the same after any number of interrupted recoveries in a row |
| Journal.CrashAtomicity | fs/log.c:73-90 | stop commit after any prefix, recover with any number of interruptions: all logged home blocks are old or all are new, no other home block changes, and the log ends empty |
| JournalCode.Committer.WriteLog | fs/log.c:31-40 | the loop issues exactly the log copies of the cached blocks, in header order |
| JournalCode.Committer.WriteHead | fs/log.c:45-56 | the header block is rewritten to hold exactly the in-memory header |
| JournalCode.Committer.ReadHeader | fs/log.c:61-71 | the in-memory header becomes the one on disk |
| JournalCode.Committer.InstallTrans | fs/log.c:17-26 | the loop issues exactly the installs of the log copies |
| JournalCode.Committer.Commit | fs/log.c:73-82 | commit issues exactly the specified write sequence and leaves the header empty |
| JournalCode.Committer.Recover | fs/log.c:84-90 | recovery issues exactly the specified write sequence |
| JournalSystem.InvNext | fs/log.c:73-152 | every step of tasks, of commit I/O, of a crash and of recovery keeps the invariant of the whole journal |
| JournalSystem.JournalIsAtomic | fs/log.c:73-152 | after every run with any number of crashes: recovery would produce the initial disk with the committed groups applied in order, each whole and none with an open operation, and with no operation open the disk already is that |
| JournalSystem.CrashLosesNothingCommitted | fs/log.c:73-130 | a crash and the recovery after it lose no group whose commit had finished |
| BufferCache.InsertKeepsRing | kernel/device/ide/bio.c:21-26 | the four assignments insert one node behind the head of the circular list |
| BufferCache.UnlinkKeepsRing | kernel/device/ide/bio.c:28-31 | the two assignments remove exactly one node |
| BufferCache.Cache.constructor | kernel/device/ide/bio.c:33-47 | all forty buffers are on the list, none names a block, and the logical disk is the disk |
| BufferCache.Cache.FindVictim | kernel/device/ide/bio.c:64-73 | the backward search yields the least recently released idle buffer, or says that none is idle |
| BufferCache.Cache.BufGet | kernel/device/ide/bio.c:49-79 | a hit, or the recycling of the least recently released buffer that is neither dirty nor referenced, or the panic exactly when there is none; the logical disk does not change |
| BufferCache.Cache.IdeRw | kernel/device/ide/ide.c:155-177 | one transfer makes buffer and disk agree without changing the logical disk |
| BufferCache.Cache.BufRead | kernel/device/ide/bio.c:81-87 | the buffer handed out holds the logical block |
| BufferCache.Cache.BufWrite | kernel/device/ide/bio.c:89-93 | the disk block becomes the buffer's data and nothing else on any disk changes |
| BufferCache.Cache.BufRelease | kernel/device/ide/bio.c:95-108 | the last user moves the buffer to the front; the list stays a permutation of all buffers in order of release |
| BufferCache.StepView | kernel/device/ide/bio.c:49-108 | no step changes the logical disk except an edit, at its own block |
| BufferCache.CacheIsTransparent | kernel/device/ide/bio.c:49-108 | over every run of any number of tasks the cached disk equals a plain map of blocks under the same edits, with at most one buffer per block |
| BufferCache.ReadsArePlain | kernel/device/ide/bio.c:81-108 | a filled buffer shows the plain disk's block, and with every buffer clean and released the disk is the plain disk |
| FileSystem.Fs.Balloc | fs/balloc.c:24-55 | the lowest free block, zeroed and marked, and one free block less; the panic if and only if none is free |
| FileSystem.Fs.Bfree | fs/balloc.c:60-76 | exactly the one bit is cleared |
| FileSystem.Fs.Bmap | fs/inode.c:103-134 | the address of a file block, allocating what is missing: it answers 0 if and only if fewer blocks are free than are missing, the indirect block counted, and otherwise takes exactly so many; a block that exists is found without any change, and no byte of any file changes |
| FileSystem.Fs.InodeUpdate | fs/inode.c:162-172 | the logged slot becomes the cached inode |
| FileSystem.Fs.InodeWrite | fs/inode.c:271-317 | the source bytes are spliced into the file at the offset and no other file changes; refused if and only if beyond size or maximum length; the out-of-blocks panic if and only if fewer blocks are free than the file must gain, the indirect block counted, and otherwise exactly so many are taken; ownership, no-holes and equality with the logged slot are kept; for every length a bound on the blocks logged, and at most ten for up to 1536 bytes; a write inside one block that the file has changes and logs exactly that block; every block that changes has been logged, and only blocks of the volume |
| FileSystem.TenBlocks | fs/file.c:128-147 | with the inode, the bound for a chunk of at most 1536 bytes is ten: four file blocks, the indirect block, the inode and four bitmap blocks |
| FileSystem.CopiedCost | fs/inode.c:293-314 | what a write of any length logs besides the inode is bounded by the blocks it spans, the indirect block and one bitmap block for each allocation |
| FileSystem.NoGrowth | fs/inode.c:311-314 | a write inside the file leaves every inode as it is, so skipping inode_update is right |
| FileSystem.WriteDone | fs/inode.c:271-317 | after the copy loop and the new size the file is the splice and ownership and no-holes hold |
| Volume.StoreOwned | fs/inode.c:299-308 | storing into a file block disturbs no ownership |
| Volume.StoreBytes | fs/inode.c:299-308 | a store into one block changes exactly the bytes of that block of that file |
| Volume.AttachOwned | fs/inode.c:103-134 | recording a fresh block at the next free position keeps the bitmap equal to the ownership relation |
| Volume.AttachSameFiles | fs/inode.c:103-134 | and changes no byte of any file |
| InodeLife.InodeRead | fs/inode.c:231-269 | the requested slice clipped to the size, across direct and indirect blocks, with no allocation and no change |
| InodeLife.Itruncate | fs/inode.c:70-101 | exactly the inode's blocks become free, and exactly these blocks are logged: the bitmap blocks of all recorded addresses, the indirect block if there is one, and the inode |
| InodeLife.InodePut | fs/inode.c:205-224 | the last reference to a loaded, unlinked inode returns exactly ceil(size/512) blocks, and the indirect one if there is one, to the free count and logs exactly what the truncation logs; other files are untouched; otherwise, also if the copy is not valid, only the reference goes |
| InodeLife.InodeAlloc | fs/inode.c:136-160 | the lowest free inode, wiped, disturbing no other; the panic exactly if all are in use |
| InodeLife.ReleaseOwned | fs/inode.c:70-101 | after the release a bit is set exactly for blocks owned by the remaining inodes |
| InodeLife.FreshOwned | fs/inode.c:148-151 | a reused slot cannot claim the blocks of its last life |
| FileWrite.Write | fs/file.c:122-150 | the chunk loop splices the repeated source at the offset and advances it by what was written |
| FileWrite.WrittenFaithfully | fs/file.c:128-147 | the written range of the file holds the caller's bytes if and only if the buffer repeats itself every 1536 bytes, in particular whenever one chunk is enough |
| FileWrite.LongWritesCanFail | fs/file.c:128-147 | whatever the file held, its written range equals the source for all sources of length n if and only if n is at most 1536 |
| InodeCache.Icache.Iget | fs/inode.c:38-68 | the entry that holds the inode, or the first unused one marked for loading; one more reference to this inode and to no other; the assertion fails exactly if all fifty entries hold other inodes |
| InodeCache.Icache.Load | fs/inode.c:187-197 | an entry in use never shows another inode's copy |
| InodeCache.Icache.Drop | fs/inode.c:221-223 | one reference less to this inode and to no other |
| Directory.LookupIsMap | fs/dir.c:12-36 | the linear search is the lookup in the directory's name map |
| Directory.LinkIsInsert | fs/dir.c:38-75 | filling the first free entry is insertion into the map and keeps names unique |
| Directory.ResolveLinked | fs/dir.c:38-75 | the new entry is found under its name, and every other name is found as before |
| Directory.UnlinkIsRemove | fs/dir.c:77-92 | clearing an entry is removal from the map |
| Directory.SpliceSlot | fs/dir.c:69 | writing 64 bytes at a multiple of 64 changes that entry and no other |
| DirectoryCode.DirLookup | fs/dir.c:12-36 | the loop over inode_read answers as the map does, with one reference to the inode found |
| DirectoryCode.DirLink | fs/dir.c:38-75 | refused exactly if the name exists or the directory is as long as a file can be; the panic exactly if fewer blocks are free than a new entry needs; otherwise the entries are the old ones with the new one in the first free place, exactly the needed blocks are taken, and nothing else changes |
| DirectoryCode.DirUnlink | fs/dir.c:77-92 | cannot fail on a live entry; exactly that entry becomes free |
| DirectoryCode.DirIsEmpty | fs/dir.c:94-115 | true exactly if nothing after the first two entries is live |
| Paths.SkipElem | fs/pathname.c:19-31 | the first component and the rest, or NULL exactly if there is no component |
| Paths.PathParent | fs/pathname.c:33-55 | the components of the path are those of the parent text and the name; the parent text is absolute exactly if the path is |
| Namei.PathLookup0 | fs/pathname.c:58-101 | from any working directory in use, removed or not: unless the walk goes astray, which is exactly when the assertion of inode_lock fails, the result is the fold of lookup over the components, with one more reference to it on success and none on failure; nothing on disk changes |
| Namei.StraysExactly | fs/pathname.c:69-95 | a walk from an inode in use goes astray if and only if it leaves a removed directory through an entry that names a free inode and has components left |
| Namei.LinkedNeverStrays | fs/pathname.c:69-95 | from a linked inode no walk goes astray |
| Namei.StrayReached | fs/inode.c:187-197 | a run from a new file system: two nested directories removed while the inner one is in use; every path from there that goes on behind ".." goes astray |
| Namei.ParentIsWalk | fs/pathname.c:80-83 | the parent lookup is the lookup of all components but the last, if that is a directory |
| Namei.ParentAgrees | fs/pathname.c:33-110 | path_lookup_parent agrees with path_lookup of path_parent's prefix whenever that is a directory |
| Namei.WalkLast | fs/pathname.c:69-95 | path_lookup is one directory lookup of the last name in the parent |
| FsCalls.DecodeEncode | kernel/syscall/sysfs.c:93-94 | an entry built on the stack reads back as its number and name, whatever lies behind the NUL |
| FsCalls.PathValidName | fs/pathname.c:112-133 | accepted exactly: 1 to 60 printable ASCII bytes without a slash, not starting with +, - or . |
| FsCalls.LongestName | fs/pathname.c:112-116 | a valid name leaves room for its NUL if and only if it is not of full length, and valid names of full length exist |
| FsCalls.DirMake | fs/dir.c:117-140 | an empty directory gets its dots in the first two entries and the parent one more link, and no other file changes; the panic exactly if no block is free |
| FsCalls.CreateFile | kernel/syscall/sysfs.c:49-119 | every answer of create_file from any working directory in use: a refusal changes neither tree nor references, an existing plain file is returned with one reference, a new inode is one Create step of the tree; no byte of any plain file changes; at most nine blocks are logged; it halts if and only if the walk goes astray or a new inode is to be made and no inode, or too few blocks for the entry and the dots, are free |
| FsCalls.AnswerIsPath | kernel/syscall/sysfs.c:49-119 | after an answer, the walk of the whole path from where it started leads to the inode answered, which has the type asked for; if it existed nothing has changed, otherwise it is new and the rest of the tree is as before but for the entry in the parent |
| FsCalls.ParentStays | kernel/syscall/sysfs.c:61-106 | making an entry under a name that was free leaves the walk to the parent of any path as it was |
| FsCalls.SysUnlink | kernel/syscall/sysfs.c:224-279 | every answer of sys_unlink from any working directory in use: refusals, the leaked reference for the dots, and otherwise one Unlink step of the tree, followed by the release if nobody holds the inode; every plain file that is still in use keeps its bytes; exactly the block of the entry, the inode, the inode of a parent that loses a link and what the release logs are logged |
| FsCalls.WritesKeepTree | fs/inode.c:271-317 | writing a plain file leaves the directory tree alone |
| FsOps.SysMkdir | kernel/syscall/sysfs.c:206-222 | one log operation: 0 and a new directory under exactly this path, or -1 and no change exactly for the refusals of create_file, or the halt exactly as in create_file; a healthy volume becomes a healthy one, no plain file changes, every block in which they differ has been logged, at most nine blocks of the volume and nothing else, and all references are given back |
| FsOps.OpenCreating | kernel/syscall/sysfs.c:135-142 | the creating part of sys_open as one log operation: NULL and no change exactly for the refusals, otherwise the path leads to the plain file answered, which is unchanged if it existed; halt, logged blocks and files as for sys_mkdir, and one more reference to the file |
| FsOps.Unlinking | kernel/syscall/sysfs.c:224-279 | sys_unlink as one log operation with its answer and with the exact set of blocks: a healthy volume becomes a healthy one, files still in use keep their bytes, and the reservation suffices if and only if what the directory entry and the inode record before the call comes to at most ten blocks |
| FsOps.WritingChunk | fs/file.c:131-145 | a chunk of file_write as one log operation, with at most ten blocks logged; refusal and panic exactly as for inode_write |
| FsOps.Closing | fs/file.c:74-78 | the final put of file_close as one log operation: the inode becomes free exactly if it was the last reference to a loaded, unlinked one, the rest of the tree and every file still in use are as before, with the exact set of blocks and the exact condition for the reservation |
| DiskFormat.MaskAdded | fs/balloc.c:36-38 | setting a clear bit of a byte leaves its other bits alone |
| DiskFormat.MaskTaken | fs/balloc.c:71-73 | so does clearing a set one |
| DiskFormat.SetBit | fs/balloc.c:36-38 | of all bits of the bitmap block exactly that one becomes set |
| DiskFormat.ClearBit | fs/balloc.c:71-73 | of all bits of the bitmap block exactly that one becomes clear |
| DiskFormat.InodeRoundTrip | fs/inode.c:162-172 | the copied inode reads back from its block and the other six are kept |
| Images.BitSetOnDisk | fs/balloc.c:36-39 | setting the bit in its byte turns a disk that holds a volume into one that holds it with that bit set |
| Images.BitClearedOnDisk | fs/balloc.c:60-76 | so does clearing it |
| Images.InodeOnDisk | fs/inode.c:162-172 | so does copying an inode into its block |
| Images.AllocOnDisk | fs/balloc.c:14-19 | the set bit and the zeroed block together are the allocation that the volume model specifies |
| CrashSafety.OperationKeeps | fs/log.c:132-152 | a step from a healthy volume to a healthy one, delivered to the logged blocks only, turns a disk that holds the one into a disk that holds the other; Kernel.Machine derives the step from the calls |
| CrashSafety.FileSystemSurvives | fs/log.c:73-152 | stop a machine that runs such steps one at a time in the middle of a step, of a commit or of a recovery, interrupt recovery any number of times and let it finish: the disk holds a volume with exact ownership, no holes and a right tree |
| CrashSafety.GroupsSurvive | fs/log.c:73-152 | the same for any events of any tasks whose groups end healthy; Running.CallTrace and Running.PowerTrace prove that of calls and power failures |
| CrashSafety.OverlappingSurvive | fs/log.c:73-152 | the same when operations of many tasks overlap in any way and commit in groups: each body is whole or torn by a crash and works on what the bodies before it left |
| Running.HealthyStorable | include/fs/inodes.h:24-33 | every field of every inode of a healthy volume fits its 32-bit place on disk |
| Running.CallIsJob | fs/log.c:92-152 | a file system call that logs at most ten blocks is a legal operation of the log from any quiet state, and the disk that reads then see holds its result |
| Running.ReservationExactly | fs/log.c:92-152 | an operation that logs exactly a given set of blocks of the volume is legal if and only if they are at most ten |
| Running.CommitRuns | fs/log.c:73-130 | the commit an operation leaves behind runs to its end and makes durable what was visible |
| Running.RecoveryRuns | fs/log.c:84-90 | recovery runs to its end from wherever it stands and changes nothing durable |
| Running.CallTrace | fs/log.c:92-130 | a call, its end and its commit take a machine at rest to one at rest whose disk holds the result, and the group ends healthy |
| Running.PowerTrace | fs/log.c:84-90 | a power failure inside an operation, whatever that has written, and the recovery take it back to the volume it had |
| Running.AnyMomentSurvives | fs/log.c:73-152 | stop such a run after any number of its events: the disk recovers to a healthy volume |
| Running.MountedIs | fs/inode.c:187-197 | a disk holds at most one volume, the one that is read from it |
| Kernel.Machine.Mkdir | kernel/syscall/sysfs.c:206-222 | on the running machine sys_mkdir is logged and committed: memory and durable disk agree again, the path leads to the new directory or nothing has changed exactly for a refusal, it halts exactly when create_file does, and the whole history is one legal run whose groups all end healthy |
| Kernel.Machine.Create | kernel/syscall/sysfs.c:135-142 | the same for creating a file: the path leads to the plain file answered, new or as it was, with one more reference |
| Kernel.Machine.Unlink | kernel/syscall/sysfs.c:224-279 | the same for sys_unlink where its blocks fit the reservation, with its answer for this path; files still in use keep their bytes |
| Kernel.Machine.WriteChunk | fs/file.c:131-145 | the same for a chunk of file_write: spliced and committed, or refused, or the panic exactly if too few blocks are free |
| Kernel.Machine.Close | fs/file.c:74-78 | the same for file_close where the release fits the reservation: one reference less, and the inode is free exactly if it was the last one to an unlinked inode |
| Kernel.Machine.Reboot | fs/log.c:84-90 | after a power failure in the middle of an operation or after a panic, recovery and mounting bring back exactly the volume of the last commit |
| Kernel.Machine.SurvivesAnyMoment | fs/log.c:73-152 | whatever calls and failures the machine has been through: had the power failed after any one of all these events, the disk would have recovered to a healthy volume |
| Reservation.ReleaseBound | fs/inode.c:70-101 | a release logs at most all bitmap blocks, the indirect block and the inode |
| Reservation.UnlinkBound | kernel/syscall/sysfs.c:247-270 | removing an entry logs at most one block more, two for a directory |
| Reservation.SpreadIsHealthy | fs/inode.c:70-101 | a healthy volume with a file whose blocks lie in as many bitmap blocks as one likes, up to eleven, linked or still open after its removal |
| Reservation.CloseFitsExactly | fs/file.c:74-78 | every last put of every file on every healthy volume fits the ten blocks if and only if the bitmap has at most eight blocks |
| Reservation.FileUnlinkFitsExactly | kernel/syscall/sysfs.c:224-279 | every removal of a plain file fits if and only if the bitmap has at most seven blocks |
| Reservation.BuiltImage | make_fs_img.sh:4 | on the 80 MB image that the build makes neither call always fits, and the bitmap covers one block past the end |
| Mkfs.NewIsHealthy | mkfs/fs.c:155-178 | the volume with only a root directory is healthy |
| Mkfs.DiskBalloc | mkfs/fs.c:22-52 | the search through the bytes of the bitmap blocks finds the lowest free block, marks and zeroes it on the disk, and says so exactly if there is none |
| Mkfs.MakeRoot | mkfs/fs.c:145-178 | the writes of create_root_file, one by one, turn a disk of zeros into one that holds the new volume, whatever was on the stack, and leave the log alone |
| Mkfs.MkfsStarts | mkfs/mkfs.c:172-198 | the disk of zeros on which the root directory has been made holds that volume, has an empty log, and is a state from which those runs start |
| Mkfs.FirstBoot | mkfs/mkfs.c:134-151 | the kernel comes up on that disk and the calls can be made |
| Mkfs.SuperblockLays | mkfs/superblock.c:6-45 | superblock_init lays inodes, log, bitmap and data out as those theorems need it exactly on the disks on which the bitmap does not pass the end |
| Tree.CreateKeeps | kernel/syscall/sysfs.c:79-106 | creating a file or directory keeps the tree well-formed and every link count right |
| Tree.UnlinkKeeps | kernel/syscall/sysfs.c:247-270 | so does unlinking a file or an empty directory |
| Tree.EmptyHasOneLink | kernel/syscall/sysfs.c:255-270 | a directory that dir_isempty accepts has exactly one link, the entry being removed |
| Tree.ReleaseKeeps | fs/inode.c:209-217 | so does freeing an unlinked inode |
| Tree.FreshOk | mkfs/fs.c:146-178 | the root directory alone, with two links, is a well-formed tree |
| Tree.MkfsRoot | mkfs/fs.c:155-178 | mkfs's create_file makes exactly that of an empty inode table |
| Tree.MkfsStep | mkfs/fs.c:135-178 | every further inode that mkfs makes is a Create step if and only if the name fits and the directory has no free entry, which stays so |
| Tree.LinkCounts | kernel/syscall/sysfs.c:49-279 | over every run from a new file system: nlink is the number of entries other than "." in linked directories, one more for the root; "." and ".." come first; no entry dangles |
| Tree.CreateInRemovedDirectory | kernel/syscall/sysfs.c:49-119 | the exact condition under which create_file keeps the link law: the directory is linked, or a directory is made and no entry of the removed one counts again |
| Tree.RemovedDirectoryReached | kernel/syscall/sysfs.c:49-279 | a run from a new file system to a state in which making a file or a directory breaks the law |
| Tree.RemovedParentReached | kernel/syscall/sysfs.c:49-279 | a run from a new file system to a state in which ".." of a directory in use names a free inode |
| Tree.LinkBound | kernel/syscall/sysfs.c:49-279 | no link count exceeds the number of inodes, so it fits its 32-bit field |
| Layout.Accepts | mkfs/superblock.c:6-45 | a disk is accepted exactly from 2476 sectors on, wrap-around included |
| Layout.LayoutIsSound | mkfs/superblock.c:6-45 | the four regions are ordered and disjoint, and every inode, log slot, bitmap bit and data block lies in its own |
| Layout.LastBit | mkfs/superblock.c:21-38 | the bitmap ends below size + 2, and below size if and only if a condition on the two estimates holds |
| Layout.OffTheEnd | mkfs/superblock.c:21-38 | a disk of 3176 sectors whose bitmap covers two blocks past its end |
| Malloc.Allocator.FindSlot | lib/src/malloc.c:38-40 | the search of free ends at the place that keeps the list in address order |
| Malloc.Allocator.Free | lib/src/malloc.c:32-53 | exactly the freed block leaves the live blocks; the list stays circular, ordered and fully coalesced, and live and free blocks still tile the core |
| Malloc.Allocator.MoreCore | lib/src/malloc.c:55-69 | at least 4096 new units join the free list, or nothing changes; the NULL of the kernel is not taken for a failure and makes a stray store |
| Malloc.Allocator.Malloc | lib/src/malloc.c:71-98 | a block of the right size disjoint from all live ones: the tail of the first free block behind freep that is large enough, or all of it if it fits exactly, and the search goes on from there next time; sbrk is asked at most once, and exactly if no free block is large enough; the search ends; the stray store happens exactly if sbrk is asked and answers NULL |
| Malloc.FreedIsHeap | lib/src/malloc.c:41-51 | merging with both neighbours keeps a coalesced, ordered, circular list over a tiling of the core |
| Malloc.RequestFits | lib/src/malloc.c:77 | the block holds the requested bytes if and only if the 32-bit sum does not wrap, and one unit less would not hold them |
| Malloc.RequestReaches | lib/src/malloc.c:61-63 | sbrk is asked for all the units that the header will claim, except at eight lengths |
| Shell.ParseInvertsPrint | shell/sh/sh_parser.c:61-245 | scanning and parsing the escaped, parenthesised rendering of any command tree gives the tree back at the end of the text |
| Shell.PrintIsCanonical | shell/sh/sh_parser.c:61-245 | the tree of any text that parses can be printed and parsed again |
| Shell.BufferRoundTrip | shell/sh/sh_parser.c:61-77 | the same through a NUL-terminated buffer, for trees with NUL-free words |
| ShellGrammar.ParseIsComplete | shell/sh/sh_parser.c:61-245 | any text whose tokens are those of a concrete syntax tree of the grammar is parsed to its end as the command that the tree stands for: chains of redirections to the left, the binary operators to the right and with equal rank, lists to the right, `&` for the one command in front of it |
| ShellGrammar.ParseIsGrammar | shell/sh/sh_parser.c:61-245 | for every text and command: the grammar derives the command if and only if the text is tidy and sh_parse gives that command; so on tidy text the parser is sound and complete, and the grammar is not ambiguous |
| ShellGrammar.PrettyRoundTrip | shell/sh/sh_parser.c:61-245 | printing any command that the parser can produce, with parentheses only where the grammar needs them and with ordinary words as they are, and parsing the text gives the command back |
| ShellGrammar.ListFewest | shell/sh/sh_parser.c:79-224 | no concrete syntax tree of the same command has fewer parentheses than the printed one |
| ShellGrammar.SpelledStream | shell/sh/sh_parser.c:250-381 | scanning any tokens written out with blanks between them gives these tokens, words plain or escaped |
| ShellGrammar.CommentSkipped | shell/sh/sh_parser.c:351-357 | a comment ends with its line and is as if it were not there |
| ShellGrammar.QuotedWord | shell/sh/sh_parser.c:280-381 | a quoted text is one word without its quotes, blanks and operators included |
| ShellGrammar.UnescapeMixed | shell/sh/sh_parser.c:31-48 | a backslash stands for the character behind it wherever it is, and other text is kept |
| ShellFaults.LoneQuote | shell/sh/sh_parser.c:280-295 | a token has length -1 if and only if a quote that starts it is the last character |
| ShellFaults.OverrunsExactly | shell/sh/sh_parser.c:31-245 | for every text: the parser overruns if and only if the text ends in a lone quote and, with that quote closed, is parsed to its end |
| ShellFaults.QuoteOverruns | shell/sh/sh_parser.c:31-48 | a text whose quotes the line reader finds paired, on which the parser overruns |
| ShellFaults.BrokenTailIsDropped | shell/sh/sh_parser.c:89-110 | the text `a;(` is accepted as `a` |
| ShellFaults.NestedTailIsDropped | shell/sh/sh_parser.c:89-224 | and so is `(a;())` |
| ShellFaults.DroppedTails | shell/sh/sh_parser.c:61-245 | for every text: a parser in which a failed tail fails the list accepts what sh_parse accepts and is tidy, with the same tree; the two agree if and only if the text is tidy or sh_parse refuses it |
| ShellFaults.CmdStuck | shell/sh/sh_parser.c:79-110 | in tidy text an error stops the parser at a token that neither a parenthesis nor the end can follow up |
| ShellLexer.Lexer.ReadString | shell/sh/sh_parser.c:267-278 | the loop stops where the specified word ends |
| ShellLexer.Lexer.ReadStringWithQuotes | shell/sh/sh_parser.c:280-295 | the loop stops where the specified quoted word ends |
| ShellLexer.Lexer.ScanTok | shell/sh/sh_parser.c:297-381 | the token and the new position are those of the specified scanner |
| ShellLexer.Lexer.CopyPeekString | shell/sh/sh_parser.c:31-48 | the copied text is the token without its backslashes |
| Scheduler.Scan | kernel/sched/linux0.11/linux0.11.c:60-67 | the first task, from the head, of maximal positive slice; the end of the queue exactly if every slice is used up |
| Scheduler.PickInv | kernel/sched/linux0.11/linux0.11.c:51-82 | one refill suffices, the task picked is ready and has maximal slice, and slices stay at most 2 * priority - 1 |
| Scheduler.ScheduleInv | kernel/sched/sched.c:66-86 | READY means in the ready queue exactly once, RUNNING means current, idle is never queued |
| Scheduler.TickInv | kernel/sched/sched.c:24-30 | the same over a timer tick |
| Scheduler.NoStarvation | kernel/sched/linux0.11/linux0.11.c:23-82 | under timer ticks every ready task runs within the sum over runnable tasks of slice + 1 and priority + 1 |
| Scheduler.SleeperGains | kernel/sched/linux0.11/linux0.11.c:74-78 | for every task and every k: after k refills through which it sleeps, what its slice falls short of 2 * priority is what it fell short before, halved k times and rounded up |
| Scheduler.RunsItsSlice | kernel/sched/sched.c:24-30 | a task runs for as many ticks as its slice says, and the tick after that schedules |
| Scheduler.WokenFirst | kernel/task.c:186-193 | of tasks with equal slices the one woken last is picked first |
| Scheduler.YieldsToLarger | kernel/sched/sched.c:66-86 | a task that gives way goes on running if no ready task has a larger slice |
| Scheduler.IdleTakesOver | kernel/sched/linux0.11/linux0.11.c:51-82 | with nobody ready, blocking hands the processor to idle, which runs on for as long as its priority |
| SchedulerCode.Kernel.Search | kernel/sched/linux0.11/linux0.11.c:60-67 | the scan loop finds the specified task |
| SchedulerCode.Kernel.RefillAll | kernel/sched/linux0.11/linux0.11.c:74-78 | the refill loop changes every task in use except idle, as specified |
| SchedulerCode.Kernel.PickTask | kernel/sched/linux0.11/linux0.11.c:51-82 | pick_task ends after at most one refill with the specified task off the queue |
| SchedulerCode.Kernel.DoSchedule | kernel/sched/sched.c:66-86 | schedule is the specified transition and keeps the invariant |
| SchedulerCode.Kernel.TimesliceCheck | kernel/sched/sched.c:24-30 | the timer tick is the specified transition |
| SchedulerCode.Kernel.TaskBlock | kernel/task.c:178-184 | task_block is the specified transition |
| SchedulerCode.Kernel.TaskWakeup | kernel/task.c:186-193 | the woken task is ready and at the head of the queue |
| SchedulerCode.Kernel.SemWait | kernel/semaphore.c:18-33 | sem_wait up to its return or its block is the specified step |
| SchedulerCode.Kernel.SemSignal | kernel/semaphore.c:35-50 | sem_signal is the specified step, and its assertions hold |
| SchedulerCode.Kernel.SemSignalAll | kernel/semaphore.c:52-66 | the loop equals signalling until a signal wakes nobody |
| Semaphores.SignalAllWakes | kernel/semaphore.c:52-66 | every waiter is woken, longest wait first, and one credit more is left than there was |
| Semaphores.NextInv | kernel/semaphore.c:18-66 | every step of every task and every interrupt keeps the invariant of scheduler and semaphores |
| Semaphores.SystemIsSound | kernel/semaphore.c:18-66 | after every run: queue length max(0, -val), grants equal to the first value minus max(val, 0), wakeups in the order of the waits, a task blocked in sem_wait is in that queue and in no other |
| Mutex.MutualExclusion | kernel/semaphore.c:18-73 | a semaphore of first value 1, signalled only by whoever passed it, admits one task at a time, and sem_holding is true for that task |
| Lists.LinkAfter | include/kernel/list.h:59-64 | the four assignments insert the node into the doubly-linked chain |
| Lists.Unlink | include/kernel/list.h:66-71 | the node leaves the chain and its pointers become NULL |
| Lists.List.Offer | include/kernel/list.h:77-79 | the node becomes the first item |
| Lists.List.Poll | include/kernel/list.h:81-86 | the last item is removed, so that offer and poll make a queue |
| Lists.List.Find | include/kernel/list.h:104-114 | true exactly if the node is an item |
| Lists.List.Size | include/kernel/list.h:116-125 | the number of items |
| RingBuffer.StoreInv | kernel/ringbuffer.c:62-65 | storing a byte into a claimed slot overwrites no byte in flight and keeps the credits balanced |
| RingBuffer.FetchInv | kernel/ringbuffer.c:88-91 | fetching a claimed byte takes the oldest one and keeps the credits balanced |
| RingBuffer.FirstInFirstOut | kernel/ringbuffer.c:15-94 | over every interleaving of any number of readers and writers with the rest of the kernel: the bytes delivered are a prefix of those accepted, at most size are in flight, the two semaphores account for every slot, and nobody waits for an unclaimed byte or slot |
| RingBufferCode.Channel.constructor | kernel/ringbuffer.c:15-26 | an open, empty, zeroed buffer |
| RingBufferCode.Channel.PutChar | kernel/ringbuffer.c:44-69 | stores the byte or blocks, as specified |
| RingBufferCode.Channel.PutResume | kernel/ringbuffer.c:54-68 | a writer that blocked stores its byte when it runs again |
| RingBufferCode.Channel.ReadChar | kernel/ringbuffer.c:71-94 | delivers the next byte or blocks, as specified |
| RingBufferCode.Channel.ReadResume | kernel/ringbuffer.c:81-93 | a reader that blocked gets its byte when it runs again |
| Frames.KernelAddresses | include/kernel/memory.h:57-58 | KP2V and KV2P undo each other and are the same function, which is why PDE_VADDR may use the wrong one |
| Frames.Ram.Palloc | kernel/mem/pmemory.c:40-52 | the first free frame with both counters moved, or KV2P(NULL) and no change exactly if none is free |
| Frames.Ram.Pfree | kernel/mem/pmemory.c:54-64 | the frame becomes the first of the list threaded through the frames |
| AddressSpaceCode.PgdirNew | kernel/mem/pgtab.c:126-138 | an empty user half and the kernel's entries 512 to 767 |
| AddressSpaceCode.PgtabCopy | kernel/mem/pgtab.c:186-202 | every present page is copied into a fresh frame that user code may read and write, and every other entry is cleared |
| AddressSpaceCode.PgdirCopy | kernel/mem/pgtab.c:204-233 | with enough free frames: the same user pages with the same bytes, all of them readable and writable for user code, in frames that were free and have one role each in the copy; no other frame changes |
| AddressSpaceCode.CopyRights | kernel/mem/pgtab.c:186-233 | user code may read and write a page of the copy exactly if the source has the page, and its rights in the source are as before |
| AddressSpaceCode.RightsKeptExactly | kernel/mem/pgtab.c:186-233 | a page has the same rights in the copy as in the source if and only if user code may write it in the source |
| AddressSpaceCode.PgdirFree | kernel/mem/pgtab.c:140-160 | exactly the frames of the address space become free, its pages and tables wiped but for the link of the free list, and no other frame changes |
| AddressSpaceCode.CopyThenFree | kernel/mem/pgtab.c:140-233 | a copy that is freed restores the set of free frames and both counters |
| Isolation.CopyIsIsolated | kernel/mem/pgtab.c:204-233 | after the copy and any sequence of stores by user code of parent and child, each reads at every user address what the parent held at the copy, changed by its own stores and by none of the other's; a store for which the two entries do not give the right changes nothing, and a load fails |
| Isolation.EachSeesItsOwn | kernel/mem/pgtab.c:204-233 | the same for any two address spaces with frames of their own, which they keep |
| Isolation.CopyMakesTwo | kernel/mem/pgtab.c:204-233 | pgdir_copy of such a space makes two: the parent's bytes and rights are as before, and user code of the child may read and write every page that the parent has, with the same bytes |
| AddressSpaceMap.MapPage | kernel/mem/pgtab.c:93-115 | the page shows the given frame with the rights that both the directory entry and `attr` give, every other user page is as before with its rights, a table that had to be added restricts nothing, and the space still owns its frames alone |
| AddressSpaceMap.PageFrame | kernel/mem/pgtab.c:78-91 | for every address: the frame of the two-level walk, or NULL exactly where it would fault |
| AddressSpaceMap.SetRange | kernel/mem/pgtab.c:235-251 | true exactly if every byte of the range is mapped, and then exactly these bytes of the space have become the value; on failure, those before the first unmapped one |

## Left out

- Hardware: port I/O, interrupts, segment tables, timer, keyboard, console, boot code and assembly. A block transfer is one atomic step.
- The kernel's small-object allocator (`kernel/mem/kalloc.c`), `vm_copyout`, heap growth and the exhaustion paths of `pgdir_valloc`: their boundary handling does not give a clean law.
- `task_exit`, `task_wait`, `task_kill`, fork and exec: they wake tasks without regard to queue membership.
- The round-robin scheduler, which is not the default build.
- Closing of pipes and ring buffers, and killed tasks inside them.
- Device inodes: reads and writes of devices are calls into other code. Devices appear in the tree as files do.
- User-pointer checks of the system calls, stdio, string functions, shell commands and the execution of parsed commands: easy or I/O.
- FileSystem.Fs: works on boolean bits and inode records; DiskFormat says how they lie in blocks. Buffers and their locks are not repeated here: the volume is the logical disk that BufferCache provides.
- FileSystem.Fs.Bmap: block numbers up to the next free position, as all its callers ask for; a hole would break the no-holes law.
- CrashSafety.FileSystemSurvives: steps run one after the other; CrashSafety.OverlappingSurvive has the overlapping ones. The log's own semaphore and cache are those of LogProtocol and JournalCode.
- CrashSafety.OperationKeeps: that the step ends healthy is part of its hypothesis, and is proved of the calls by FsOps.
- CrashSafety.GroupsSurvive: that groups end healthy is its hypothesis, and is proved of calls and power failures by Running.
- CrashSafety.OverlappingSurvive: the body of one call is not interleaved with the body of another; that inode and buffer locks make it so is not composed with it.
- Kernel.Machine.Unlink: requires that the blocks to be logged are at most ten, which the source does not check; FsOps.Unlinking says what happens in every case.
- Kernel.Machine.Close: the same; FsOps.Closing has every case.
- Kernel.Machine.Mkdir: the conditions of FsCalls.CreateFile; one task makes the calls.
- Reservation.FileUnlinkFitsExactly: plain files; for directories Reservation.UnlinkBound shows that six bitmap blocks are few enough.
- Namei.PathLookup0: the tree does not change during the walk and names are shorter than 60 bytes. From a removed working directory it is assumed that every unlinked inode in use is held by somebody, which all calls keep as long as there is no crash.
- FsCalls.SysUnlink: names shorter than 60 bytes, and the assumption of Namei.PathLookup0.
- DirectoryCode.DirLink: names with room for their NUL; see FsCalls.LongestName.
- FsCalls.CreateFile: the conditions of Namei.PathLookup0; the directory of the new entry has not been removed (Tree.CreateInRemovedDirectory has that case); says exactly when it halts and nothing about the volume after that, since the machine stops; inode locks are not modelled.
- Tree.MkfsStep: mkfs does not look for duplicate names; the files it is given have none.
- Mkfs.MakeRoot: the image is a file of zeros, as make_fs_img.sh makes it; the files that mkfs adds to the root directory are steps of Tree.MkfsStep and not repeated on bytes.
- Mkfs.FirstBoot: a disk that Mkfs.SuperblockLays accepts.
- ShellGrammar.PrettyRoundTrip: commands of the shape that the parser makes; Shell.ParseInvertsPrint has the same for the rendering with every parenthesis.
- Malloc.Allocator.MoreCore: sizes count units without a bound; Malloc.RequestReaches says at which lengths the 32-bit product wraps; the answer of sbrk is a parameter; what the stray store at address 0 destroys is not modelled.
- Malloc.Allocator.Malloc: the payload bytes of blocks are not modelled.
- BufferCache.Cache.BufRelease: the caller leaves what it changed marked dirty or written; that is what log_write and buf_write are for. The semaphore of a buffer is the subject of Mutex.
- Scheduler.NoStarvation: slices are unbounded numbers; with priorities up to 2^31 the bound 2 * priority - 1 excludes wrap-around.
- Semaphores.SystemIsSound: `val` is an unbounded number.
- AddressSpaceMap.SetRange: user addresses only; the kernel half is shared by all address spaces.
- AddressSpaceMap.MapPage: user addresses, and a free frame if a page table is missing.
- AddressSpaceCode.PgdirNew: requires a free frame, for the same reason as PgdirCopy.
- AddressSpaceCode.PgtabCopy: requires enough free frames, for the same reason.
- AddressSpaceCode.CopyThenFree: requires enough free frames, for the same reason.
- Isolation.CopyIsIsolated: the parent's frames have one role each, as map_page keeps it.
- AddressSpaceCode.PgdirCopy: requires enough free frames, because palloc's answer on exhaustion is not recognised by its callers.
