# xv6 in Dafny

A model of the hard parts of the xv6 kernel for RISC-V, of `mkfs`, and of two user-level algorithms, with proofs
of what they promise.

| part | files |
|---|---|
| write-ahead log and buffer cache | `LogSpec`, `LogOps`, `Bcache`, `Log` |
| blocks, inodes, file contents, `mkfs`, and all of it on the logged disk | `Bits`, `FsSpec`, `Fs`, `Dinodes`, `Mkfs`, `Durable` |
| directories, link counts, inode table | `Dirents`, `Dirs`, `FsDirs`, `Itable` |
| pages, page tables, user memory, `fork` and `exec` | `PageTable`, `Images`, `Vm`, `UserMemory`, `ProcMemory`, `Exec`, `System` |
| sleep and wakeup, processes, pipes | `Sleep`, `Procs`, `Pipe` |
| virtio disk driver | `Virtq`, `Virtio` |
| allocator and shell of the user programs | `Kandr`, `Shell`, `ShellBuffer` |

Code that changes a data structure in place is a class with methods: the buffer cache and its linked ring
(`Bcache.Cache`), the log (`Log.Log`), the file system (`Fs.FileSystem`), the disk image that `mkfs` writes
(`Mkfs.Image`), physical memory (`Vm.Memory`), the process table as far as memory goes (`System.Processes`), the
pipe's ring (`PipeRing.Buffer`), the descriptors and rings of the disk (`Virtq.Disk`), the heap (`Kandr.Allocator`)
and the shell's line (`ShellBuffer`). What several processes do to each other is a state machine whose steps are the
critical sections of the source; theorems about it are about every run. Sizes (buffers, log blocks, inodes,
processes, CPUs, pages) are parameters wherever the source does not compute with the number itself.

## What turns out not to hold

The code does not keep some of what one would expect of it. Each case has an exact condition.

- `log_write` tests for a full log before it looks for the block. It panics exactly if the log is full
  (`LogOps.StepSafe`), so a call that has used its reservation panics on a block that is logged already
  (`LogOps.FullLogRejectsAbsorption`). A call with reservation left never does (`LogOps.LogSpaceReserved`).
- `NBUF` equals `LOGBLOCKS`. A commit that runs alone succeeds exactly if fewer blocks are logged than there are
  buffers (`Log.Log.Commit`); a full transaction panics in `bget` (`Log.Log.FullTransactionHalts`), and one reader is
  enough to make a transaction with one block less panic (`Log.Log.ReaderHaltsCommit`). The disk is recoverable all
  the same (`Log.Log.CommitCrashSafe`). A full transaction needs a call that uses its whole reservation: if no call
  logs more than n blocks, MAXOPBLOCKS - n log blocks, and as many buffers, stay unused (`LogOps.RoomLeft`). A
  transaction of `filewrite` logs at most seven (`Fs.FileSystem.Filewrite`), the last `iput` of an inode two
  (`Fs.FreeLogs`), the writing of a directory record four (`Fs.RecordLogs`).
- `mkfs` does not test whether its inodes fit, and it rounds the size of the root directory up past a full block. When
  it exits normally, its image is consistent and holds the given files exactly if the number of files plus two is at
  most NINODES and no multiple of 64 (`Mkfs.Image.Build`). With 62 files the root has a hole (`Mkfs.HoleImage`), and
  reading it makes the kernel take a free block and hand it to `log_write` (`Mkfs.ReadHole`), in `fileread` without a
  transaction. With 207 files the root names inode 208, which is outside the table and over which the bitmap has been
  written (`Mkfs.OverrunImage`).
- A writer that is killed in `pipewrite` returns without waking readers. A step leaves a process asleep that could be
  served exactly if it is such a return after at least one byte, with a reader waiting
  (`Pipe.StepKeepsNoStuck`, `Pipe.KilledWriterAbandons`).
- `kkill` does not look at the state of a process, and a free slot has the number 0. Without a `kill(0)` no process is
  born killed (`Procs.BornAlive`); a `kill(0)` marks a free slot, and the next process in that slot is
  (`Procs.KillZeroMarks`, `Procs.BornKilled`).
- `morecore` hands a product to `sbrk`, which takes a 32-bit `int`. A `malloc` for which no free block is large enough
  gets less than it believes exactly from 2^27 units on (`Kandr.Allocator.Malloc`, `Kandr.MorecoreGives`): it corrupts
  the heap, or faults where the header it writes is beyond the memory there is. Up to 2^28 units `sbrk` does not even
  fail, because its argument is not positive (`Kandr.SbrksIff`).
- `kexec` passes the offset and the file size of a segment to `loadseg` as 32-bit numbers. The file holds what the
  headers of a loaded program name exactly if no segment has a file size from 2^32 on and none with bytes in the file
  has an offset from 2^32 on; then the process gets those bytes (`Exec.HeadersIff`, `Exec.SameProgram`, `Exec.Kexec`).
  A segment at offset 2^32 loads although the file has nothing there (`Exec.CutHeader`). File sizes from 2^32 on do not
  get that far on a machine with at most 4 GB of memory (`Exec.Kexec`).

## Model

| member | source | states |
|---|---|---|
| `LogSpec.RecoveryIdempotent` | kernel/log.c:67-125 | recovery gives the same disk from every state that recovery itself passes through |
| `LogSpec.RecoverySurvivesCrashes` | kernel/log.c:118-125 | however often recovery is cut short, the attempt that completes gives the disk the first would have given |
| `LogSpec.CommitAtomic` | kernel/log.c:187-212 | a crash after any of the writes of a commit leaves, after recovery, all home blocks old if the header write was not reached and all new if it was, and an empty log |
| `LogSpec.LogRefinesAtomicDisk` | kernel/log.c:67-212 | over a whole life of the disk, with commits, crashes at any write and crashes in recovery, the home blocks are those of a disk on which every transaction is indivisible |
| `LogSpec.InvariantSurvives` | kernel/log.c:67-212 | any property of the home blocks that whole transactions keep holds after every such run with its crashes |
| `LogOps.LogSpaceReserved` | kernel/log.c:128-184 | in every interleaving of calls the logged blocks and the unused reservations fit the log, a commit runs with no call open, `end_op` does not panic, and `log_write` of a call with reservation left does not |
| `LogOps.StepSafe` | kernel/log.c:128-244 | in every state of such a run the only step that panics is `log_write` on a full log, and that one always does |
| `LogOps.RoomLeft` | kernel/log.c:128-184 | in every run whose calls log at most n blocks each, MAXOPBLOCKS - n blocks of the log stay free |
| `LogOps.CommitsWhatEnded` | kernel/log.c:128-244 | in every interleaving the log holds exactly the blocks that calls have logged since the last commit, and when a commit runs all those calls have ended |
| `LogOps.ReservationSuffices` | kernel/log.c:223-244 | a call that has logged fewer than MAXOPBLOCKS blocks gets any further block logged |
| `LogOps.CommitIsTransaction` | kernel/log.c:154-212 | what `end_op` hands to `commit` in any interleaving is a transaction the on-disk log can take, so its commit is crash-atomic |
| `LogOps.IdleLogAdmits` | kernel/log.c:128-150 | `begin_op` does not wait for a log that nobody uses |
| `LogOps.SyncIsDurable` | kernel/log.c:246-261 | `sys_sync` returns, at once or after waiting, only when every call that had ended before it started is committed |
| `LogOps.FullLogRejectsAbsorption` | kernel/log.c:223-244 | a run after which a call is still open, logs a block that is in the log already, and panics |
| `Ring.MoveToFront` | kernel/bio.c:126-134 | the pointer updates of `brelse` keep a doubly linked ring of the same elements, with the element in front |
| `Bcache.Cache.constructor` | kernel/bio.c:35-52 | the ring of a new cache holds every buffer once, in order, all unused |
| `Bcache.Cache.Bget` | kernel/bio.c:57-88 | finds the only buffer of a cached block, else recycles the least recently used unreferenced one; fails exactly if the block is not cached and every buffer is referenced |
| `Bcache.Cache.Fill` | kernel/bio.c:91-102 | the holder of a recycled buffer sees the last logged contents of the block, which is the disk overlaid with the pinned blocks |
| `Bcache.Cache.Bwrite` | kernel/bio.c:106-112 | one disk write of the buffer's block; the cache still agrees with the disk |
| `Bcache.Cache.Bpin` | kernel/bio.c:139-145 | one more reference, and readers must see the logged contents from now on |
| `Bcache.Cache.Bunpin` | kernel/bio.c:147-153 | a buffer whose contents are home loses the pin and nothing else |
| `Bcache.Cache.Unlock` | kernel/bio.c:116-121 | the first half of `brelse`: the sleep lock is free, the reference stays |
| `Bcache.Cache.Unref` | kernel/bio.c:123-137 | the second half: one reference less, and the last one moves the buffer to the front of the ring, the others in order |
| `Log.Log.LogWrite` | kernel/log.c:223-244 | panics exactly on a full log or outside a transaction; else the block is listed once, pinned once, and readers see its new contents |
| `Log.Log.BeginOp` | kernel/log.c:128-150 | a call is admitted exactly if its reservation fits the log beside those of all open calls |
| `Log.Log.EndOp` | kernel/log.c:154-184 | the last open call commits what is logged, through the states of an atomic commit, and leaves an empty log with nothing pinned; any other changes neither the log nor the disk |
| `Log.Log.Read` | kernel/bio.c:57-102 | `bread` while other processes run: it gives the contents readers must see, and panics exactly if at its `bget` the block is not cached and all buffers are in use |
| `Log.Log.WriteLog` | kernel/log.c:187-200 | the log blocks get what readers see of the transaction's blocks, one disk write each and no others, wherever it stops |
| `Log.Log.WriteHead` | kernel/log.c:104-116 | at most one disk write, which makes the header name exactly the transaction |
| `Log.Log.InstallTrans` | kernel/log.c:67-85 | home blocks get their logged contents in order, one disk write each; a commit that finishes has unpinned every block |
| `Log.Log.ReadHead` | kernel/log.c:88-99 | the in-memory header becomes the one on disk |
| `Log.Log.Commit` | kernel/log.c:202-212 | with other processes reading at every point, the disk goes through a prefix of the states of an atomic commit and no other; if it finishes, the home blocks are what readers see and nothing is pinned; alone, it finishes exactly if fewer blocks are logged than there are buffers |
| `Log.Log.CommitCrashSafe` | kernel/log.c:118-212 | recovery from the disk after any write of such a commit, finished or stopped by a panic, gives all of it or nothing |
| `Log.Log.RecoverFromLog` | kernel/log.c:118-125 | recovery at boot, through the cache, does exactly the writes of the specification and ends with the disk it names |
| `Log.FullIffAllPinned` | kernel/bio.c:57-88 | for a process that is alone all buffers are in use exactly if as many blocks are pinned as there are buffers |
| `Log.Log.FullTransactionHalts` | kernel/log.c:187-200 | a transaction of as many blocks as the cache has buffers, which NBUF == LOGBLOCKS allows, panics in its commit |
| `Log.Log.ReaderHaltsCommit` | kernel/bio.c:57-88 | with one block less, a reader that holds one buffer makes the first `bread` of the commit panic |
| `Bits.SetBitAt` | kernel/fs.c:67-90 | setting a bit of the bitmap changes that bit and no other |
| `Bits.ClearBitAt` | kernel/fs.c:93-107 | clearing a bit of the bitmap changes that bit and no other |
| `Fs.FileSystem.constructor` | kernel/fs.c:41-49 | on an image whose blocks are accounted for the kernel can use every block; if no file has a hole, the file system meets the invariant of all its operations |
| `Fs.FileSystem.Balloc` | kernel/fs.c:67-90 | the lowest free block, zeroed and marked; 0 exactly if every block is in use |
| `Fs.FileSystem.Bfree` | kernel/fs.c:93-107 | clears the bit of a block in use, and logs only the bitmap block |
| `Fs.FileSystem.Bmap` | kernel/fs.c:420-459 | the block of a file block across direct and indirect slots; an existing one without any change, a new one without changing a byte of any file; 0 only on a full disk |
| `Fs.FileSystem.Readi` | kernel/fs.c:509-534 | the matching slice of the file's contents, cut at the size; -1 exactly if the destination cannot take it, which then has as much of the slice as it can take; it never allocates or changes anything |
| `Fs.FileSystem.Writei` | kernel/fs.c:543-579 | -1 exactly if the offset is beyond the size or the end beyond the largest file; else the file's contents are the old ones with the written bytes over them, every other file is unchanged, and only blocks of that range are logged; a short write means a full disk, or a failed copy inside the block after the count, with all that could be read in the blocks |
| `Fs.WritesCompose` | kernel/fs.c:543-579 | two writes, the second where the first stopped, are one longer write |
| `Fs.FileSystem.Itrunc` | kernel/fs.c:463-491 | exactly the blocks of the inode become free, and the panic of `bfree` is not reached |
| `Fs.FileSystem.Ialloc` | kernel/fs.c:200-221 | the lowest free inode number, or 0 exactly if there is none |
| `Fs.FileSystem.IputLast` | kernel/fs.c:332-378 | the inode and its blocks are free, every other inode is as it was |
| `Fs.FileSystem.Ireclaim` | kernel/fs.c:388-408 | no allocated inode without links is left, and inodes that have links are untouched |
| `Fs.FileSystem.BitmapExact` | kernel/fs.c:67-491 | between operations a bit is set exactly for metadata and for blocks that some inode refers to, directly or through its indirect block; no block is referred to twice; only allocated inodes refer to blocks |
| `Fs.FileSystem.Filewrite` | kernel/file.c:148-173 | the transactions together are one write, reported in full, or as -1 for an offset beyond the size, an end beyond the largest file, an unreadable source or a full disk; on a disk with one bitmap block each of them logs at most seven blocks |
| `Fs.FreeLogs` | kernel/fs.c:332-491 | freeing an inode with its blocks logs at most two blocks |
| `Fs.RecordLogs` | kernel/fs.c:543-579 | writing one directory record logs at most four blocks |
| `Dinodes.DinodeRoundTrip` | kernel/fs.h:32-39 | an inode written to the disk and read back is the same, for all values of the C types of its fields |
| `Mkfs.Image.Winode` | mkfs/mkfs.c:190-203 | changes exactly the 64 bytes of the inode's slot, wherever in the image its number puts it; it fails exactly beyond the end of the image |
| `Mkfs.Image.Ialloc` | mkfs/mkfs.c:226-238 | the next inode, with one link, without a test whether it fits the table |
| `Mkfs.Image.Iappend` | mkfs/mkfs.c:258-300 | in the inode area, the bytes are appended to the file, no other file changes, the image stays packed; it fails only for lack of room |
| `Mkfs.Image.Balloc` | mkfs/mkfs.c:240-254 | the bitmap says that exactly the first blocks are in use, and replaces whatever stood in its block |
| `Mkfs.ShortNames` | mkfs/mkfs.c:134-153 | the program `user/_w` becomes the file `w`, and so do `w` and `user/w`; a name that is too long or has a directory in it ends `mkfs` |
| `Mkfs.Image.Build` | mkfs/mkfs.c:114-179 | if it exits normally, the image read back from the disk is consistent and holds the given files exactly if the number of files plus two is at most NINODES and no multiple of 64; which part fails otherwise: a hole in the root, or inodes that the root names outside the table |
| `Mkfs.MakeFs` | mkfs/mkfs.c:72-179 | under exactly that condition the image is a start state for all operations of `Fs` |
| `Mkfs.HoleImage` | mkfs/mkfs.c:169-174 | an image of 62 files whose root directory has a hole |
| `Mkfs.ReadHole` | kernel/fs.c:420-534 | on that image the `bmap` of `readi` allocates a block for the hole and logs it |
| `Mkfs.OverrunImage` | mkfs/mkfs.c:226-254 | an image of 207 files whose root names inode 208, with bits of the bitmap in its place |
| `Durable.Unlogged` | kernel/fs.c:67-579 | a block that a transaction has not given to `log_write` holds what it held: bitmap, inode and data blocks alike |
| `Durable.OpenTransaction` | kernel/fs.c:67-579 | between operations of `Fs`, everything changed since `begin_op` is logged, and the file system is consistent |
| `Durable.TxnStores` | kernel/log.c:187-212 | the logged blocks with their new contents, applied as a whole, turn a disk that holds the old file system into one that holds the new one |
| `Durable.FsSurvives` | kernel/log.c:67-212 | after any run of file-system transactions with crashes at any disk write of commits and recoveries, the disk holds the file system of exactly the transactions that reached their header write, and it is consistent |
| `Durable.DecodeStores` | kernel/fs.c:41-49 | the words of a disk determine the file system it holds: decoding them gives it back |
| `Durable.Mount` | kernel/fs.c:41-49 | mounting decodes the disk; of a disk that holds a consistent file system it gives that one, and it meets the invariant of all operations |
| `Durable.Reboot` | kernel/log.c:118-125 | after any such run with its crashes, mounting the disk gives the file system of exactly the transactions that reached their header write, ready for all operations |
| `Durable.NewDisk` | mkfs/mkfs.c:93-119 | the disk that mkfs writes has its areas in order, an empty log, and the file system in it |
| `Dirents.DecodeEncode` | kernel/fs.h:58-61 | a directory record read back is the one written |
| `Dirents.RecordsSplice` | kernel/fs.c:619-646 | writing one record into a directory file changes that record or appends one, and no other |
| `FsDirs.ImageIff` | mkfs/mkfs.c:121-174 | the directories of the image are a start state for the directory operations exactly if the file names differ and none is a dot name |
| `FsDirs.RecordWritten` | kernel/fs.c:543-579 | `writei` of a record in terms of directories: that record of that directory and nothing else |
| `FsDirs.DirlinkWritten` | kernel/fs.c:619-646 | `dirlink` through `writei` is the operation on records that the directory model uses |
| `Dirs.StepKeepsInv` | kernel/sysfile.c:123-326 | create, both halves of link, unlink and the reclaiming of inodes, with every failure path, keep the directory invariant and do not panic |
| `Dirs.UnlinkMeets` | kernel/sysfile.c:201-256 | 0 exactly if the name is there, is no dot, and is not that of a directory with names in it: then the name is gone, every other name of every other directory stands for what it stood for, and the inode has one link less; else -1 and nothing changes |
| `Dirs.CreateMeets` | kernel/sysfile.c:258-326 | makes an inode of the kind asked for, with one link, under that name and no other, exactly if the directory is linked, below its link limit for a new directory, without that name and with room, and an inode is free; finds a file that is there; every failure leaves all names as they were |
| `Dirs.LinkFinishMeets` | kernel/sysfile.c:123-184 | the new name stands for the file and no other name changes, exactly if the directory is linked, without that name and with room |
| `Dirs.EmptyIff` | kernel/sysfile.c:186-199 | `isdirempty` says whether the directory has a name other than the dots |
| `Dirs.CallsDo` | kernel/sysfile.c:123-326 | so it is for every call of every run from the image, with the counts of the links being made and taken back, and `ireclaim` frees only inodes without a name |
| `Dirs.UnlinkKeepsInv` | kernel/sysfile.c:201-256 | "unlink: nlink < 1" is not reached |
| `Dirs.LinkCountsExact` | kernel/sysfile.c:123-326 | in every run from the image, a link count is the number of records in linked directories that name the inode, own "." excluded, plus the links being made |
| `Dirs.RecordsAllocated` | kernel/sysfile.c:123-326 | in every run a record of a linked directory names an allocated inode with links, and no name is there twice |
| `Dirs.PathFromRoot` | kernel/fs.c:691-728 | every linked directory is reached from the root by a path as long as its depth, and its ".." leads to where the path without its last name leads |
| `Dirs.DirectoryTree` | kernel/sysfile.c:123-326 | so it is in every run: the linked directories form a tree |
| `Itable.StepKeepsInv` | kernel/fs.c:200-378 | every step of ialloc, iget, idup, ilock and iput keeps the inode table in order; the only panic left is `iget` with every slot referenced |
| `Itable.HandleSteps` | kernel/fs.c:248-378 | `iget` gives out one pointer for the inode asked for, `idup` one more for the same inode, `iput` takes back the one it is given; no other pointer changes |
| `Itable.RefsAreHandles` | kernel/fs.c:248-378 | in every concurrent run `ref` is the number of pointers given out for the slot and not given up, and the slot of a pointer holds the inode it was given out for, which is allocated |
| `Itable.CopiesCurrent` | kernel/fs.c:293-322 | in every concurrent run a copy that counts as valid has the type and link count that the disk has |
| `Itable.NoReuseWhileReferenced` | kernel/fs.c:200-378 | in every concurrent run at most one referenced slot holds an inode, `ialloc` picks no inode that a slot holds, that a pointer names or that `iput` is still freeing, and `ilock` does not panic |
| `Itable.NoLeak` | kernel/fs.c:349-408 | in every concurrent run an allocated inode without links is referenced, or inside `ialloc` or `iput` |
| `PageTable.PageIndices` | kernel/riscv.h:401-417 | the three indices of an address are those of its page number, and below MAXVA they determine it |
| `PageTable.WordRoundTrip` | kernel/riscv.h:395-406 | an entry packed into a word with its flags is read back unchanged |
| `PageTable.LinkTable` | kernel/vm.c:98-116 | hanging a new table into a tree changes no mapping of any page table |
| `PageTable.MapLeaf` | kernel/vm.c:146-175 | filling an empty lowest entry adds exactly that page to the flat map of its root |
| `PageTable.UnmapLeaf` | kernel/vm.c:193-213 | clearing a lowest entry removes exactly that page from the flat map of its root |
| `Vm.Memory.constructor` | kernel/kalloc.c:26-40 | after `kinit` every page is on the free list |
| `Vm.Memory.Kalloc` | kernel/kalloc.c:68-82 | takes a free page, or 0 exactly if there is none; no mapping changes |
| `Vm.Memory.Kfree` | kernel/kalloc.c:46-63 | a page that nobody owns goes on the free list |
| `Vm.Memory.Walk` | kernel/vm.c:98-116 | finds the entry of an address, building tables if asked; no mapping of any page table changes, and it fails only if fewer than two pages are free |
| `Vm.Memory.Mappages` | kernel/vm.c:146-175 | maps exactly its range, or its first k pages on failure, and no page table but this one changes |
| `Vm.Memory.Uvmunmap` | kernel/vm.c:193-213 | empties exactly its range and frees exactly the user pages that were mapped there |
| `Vm.Memory.Uvmalloc` | kernel/vm.c:217-242 | grows the image by zeroed pages, or leaves every mapping as it was when memory runs out, which it can only with fewer than three free pages for each new one |
| `Vm.Memory.Uvmdealloc` | kernel/vm.c:248-260 | frees exactly the whole pages above the new size |
| `Vm.Memory.Freewalk` | kernel/vm.c:264-280 | frees exactly the tables below a table without leaves; "freewalk: leaf" is not reached |
| `Vm.Memory.Uvmcreate` | kernel/vm.c:179-188 | an empty page table on a page that was free, or no change |
| `Vm.Memory.Uvmfree` | kernel/vm.c:284-290 | every page of the page table is free, no other page changed |
| `Vm.Memory.ProcPagetable` | kernel/proc.c:175-205 | a page table with only the two top pages, or every page back, and that only with fewer than five free pages |
| `Vm.Memory.ProcFreepagetable` | kernel/proc.c:209-215 | every page of the page table is free, and neither the trampoline nor the trapframe is freed with it |
| `Vm.Memory.Uvmclear` | kernel/vm.c:330-339 | one page leaves the user's reach, nothing else changes |
| `Images.Isolation` | kernel/vm.c:193-326 | an operation that touches only pages of one page table, or free ones, cannot be seen through another |
| `Images.OwnedOnce` | kernel/vm.c:193-326 | in the invariant that every operation of `Vm.Memory` keeps, a page is on the free list exactly if it is free, is owned by exactly one entry of one table exactly if it is a user page or a table below a root, and by none otherwise |
| `UserMemory.Uvmcopy` | kernel/vm.c:298-326 | the copy has the same pages with the same bytes and permissions on pages of its own, and on failure nothing is left mapped |
| `UserMemory.Walkaddr` | kernel/vm.c:121-139 | the page behind a user address, exactly if it is mapped for the user |
| `UserMemory.Vmfault` | kernel/vm.c:458-491 | a fault below the size maps a zeroed page; the image as the process sees it is the same |
| `UserMemory.Copyin` | kernel/vm.c:382-405 | the bytes the process would read one by one, across pages; it fails only on an unreadable address or for lack of memory, and never on pages that are mapped |
| `UserMemory.Copyout` | kernel/vm.c:344-377 | the bytes go where the process would write them one by one, and nowhere else; it fails only on an unwritable address or for lack of memory, and never on pages that are mapped for writing |
| `ProcMemory.EagerIsLazy` | kernel/sysproc.c:39-65 | an image grown eagerly shows the same bytes as the old tables at the new size |
| `ProcMemory.Growproc` | kernel/proc.c:235-254 | grows without changing a byte, or cuts the image off at the new size; asked to shrink by more than there is it does nothing |
| `ProcMemory.Sbrk` | kernel/sysproc.c:39-65 | returns the old size, or -1 only for a size that is too large or, growing eagerly, for lack of memory; eager and lazy growth end in the same image, shrinking cuts it off, and lazy growth touches no page |
| `ProcMemory.OneMapping` | kernel/vm.c:146-175 | no user page is mapped twice, in one page table or in two |
| `ProcMemory.AllocImage` | kernel/proc.c:124-141 | a trapframe and a page table on pages that were free, or every page back, and that only with fewer than six free pages |
| `ProcMemory.FreeImage` | kernel/proc.c:155-165 | the trapframe and every page of the page table are free, no other page changed |
| `ProcMemory.Fork` | kernel/proc.c:258-283 | the child sees what the parent sees, lazily allocated pages included, on pages that were free; it fails only with fewer free pages than six and three for each page of the parent, and then the free pages are the same and nothing else has changed |
| `Exec.Loadseg` | kernel/exec.c:152-176 | the segment's bytes are in the image and only its bytes changed; it fails exactly if the file is too short, and "address should exist" is not reached |
| `Exec.LoadSegments` | kernel/exec.c:12-78 | the image shows, byte by byte, the last segment that covers an address and zero elsewhere, and each page can be read, written and executed as the header says whose segment made the image reach it; it fails only on a malformed or unreadable segment, a short file, or too few free pages |
| `Exec.HeadersIff` | kernel/exec.c:60-78 | of segments that load, the file holds the bytes that the headers name exactly if no file size reaches 2^32 and no segment with bytes in the file has an offset from 2^32 on |
| `Exec.SameProgram` | kernel/exec.c:152-176 | and then the bytes loaded are those that the headers name |
| `Exec.CutHeader` | kernel/exec.c:152-176 | a segment at offset 2^32 loads the first byte of any file |
| `Exec.AddStack` | kernel/exec.c:88-97 | a guard page out of the user's reach and a stack page on top, everything below unchanged; it fails only with fewer than six free pages |
| `Exec.PushArgs` | kernel/exec.c:99-119 | argument strings are on the stack, and a program that loads 64-bit words from the stack pointer on gets their addresses and a null pointer; all are 16-byte aligned, everything below is unchanged; it fails exactly if they are too long for the stack page |
| `Exec.Kexec` | kernel/exec.c:27-150 | on success the process has an image that shows the program of the file with the access its headers ask for, the guard page and the arguments, with the size the headers give, and the pages of the old image are free; on failure it keeps its image, the free pages are the same, and the cause is an unreadable header, a segment that cannot be loaded, arguments too long for the stack page, or too few free pages |
| `System.NothingShared` | kernel/proc.c:109-215 | in a system that meets the invariant no page below the trampoline, trapframes included, is mapped twice by any processes |
| `System.Processes.Userinit` | kernel/proc.c:218-231 | the first process joins; page tables and trapframes of all processes stay distinct; it fails only with fewer than six free pages |
| `System.Processes.Sbrk` | kernel/sysproc.c:39-65 | growing or shrinking one process does that, and keeps the invariant of the whole system and every byte every other process sees |
| `System.Processes.Fork` | kernel/proc.c:258-305 | so does fork, and the child sees what the parent saw; it fails only for lack of free pages |
| `System.Processes.Exec` | kernel/exec.c:27-150 | so does exec, succeeding with the new image or failing for one of its causes |
| `System.Processes.Free` | kernel/proc.c:155-171 | so does freeing a process, and every page it had is free |
| `SleepWakeup.NoLostWakeup` | kernel/proc.c:546-596 | for a client that registers under its lock after seeing its condition false, in every interleaving with the one-by-one scan of `wakeup` and with kills, nobody sleeps or is about to while the lock is free and the condition holds |
| `SleepWakeup.SleepsUntilWoken` | kernel/proc.c:546-620 | `sleep` puts a process to sleep exactly if it has not been woken since `sleep_prepare`, and it stays asleep until a `wakeup` on its channel or a kill |
| `SleepLock.Refines` | kernel/sleeplock.c:21-55 | every step of the sleep lock is a run of that protocol |
| `SleepLock.MutualExclusion` | kernel/sleeplock.c:21-55 | in every interleaving at most one process is between acquire and release, and `holdingsleep` is true for exactly that one |
| `SleepLock.NoSleeperOnFreeLock` | kernel/sleeplock.c:21-55 | in every interleaving nobody sleeps on a lock that is free |
| `Procs.StepKeepsInv` | kernel/proc.c:258-620 | every step of fork, exit, wait, kill, sleep, wakeup and the schedulers keeps the invariant of the process table |
| `Procs.StateMoves` | kernel/proc.c:109-620 | the state of a process changes in these steps only, and always: taken and given up by `kfork`, made runnable by it, dispatched, yielding, going to sleep with a channel, woken by a `wakeup` on its channel or a kill, exiting, and freed by its parent's `kwait` |
| `Procs.ParentMoves` | kernel/proc.c:258-419 | a process gets another parent only from its `kfork`, from the exit of its parent, which leaves it to init, or by being freed |
| `Procs.PidsUnique` | kernel/proc.c:92-171 | in every interleaving no two processes have the same pid |
| `Procs.WaitIsRight` | kernel/proc.c:369-419 | in every interleaving a complete scan of `kwait` knows whether there is a child, and no child is a zombie then: it gives up exactly without children or when killed, and waits only for a child |
| `Procs.BornAlive` | kernel/proc.c:601-619 | in every interleaving without `kill(0)` a free slot is not marked as killed |
| `Procs.KillZeroMarks` | kernel/proc.c:601-619 | a free slot is marked by a kill that comes to it, and keeps the mark until and when it is taken |
| `Procs.BornKilled` | kernel/proc.c:109-150 | a run in which init forks a child that is killed before it has run |
| `Procs.OneCpuPerProcess` | kernel/proc.c:429-508 | in every interleaving, with p->lock free, p is RUNNING exactly if one CPU executes it, and it is the only one; a zombie is executed by none |
| `Procs.FreedOffStack` | kernel/proc.c:369-419 | when `kwait` frees a zombie no CPU is on its kernel stack |
| `Procs.ParentIsAlive` | kernel/proc.c:258-419 | in every interleaving a process other than init has a parent that is neither unused nor a zombie and is older |
| `Procs.ChainToInit` | kernel/proc.c:309-365 | following parents ends at init |
| `Procs.NoLostChild` | kernel/proc.c:325-419 | in every interleaving, with wait_lock free, no process with a zombie child sleeps in `kwait` or is about to |
| `PipeRing.CountTests` | kernel/pipe.c:76-143 | the tests on the two wrapping counters say whether the ring is full or empty |
| `PipeRing.WriteLoopKilled` | kernel/pipe.c:83-106 | the copy loop ends because of a kill exactly if nothing stops it before that byte |
| `PipeRing.WriteLoopStops` | kernel/pipe.c:83-106 | where and why the copy loop of a write stops, from the number of bytes in the pipe, the open end, the kill and the byte that cannot be copied |
| `PipeRing.ReadLoopGives` | kernel/pipe.c:127-139 | the copy loop of a read gives exactly the bytes that are there, up to the number asked for and to the first that cannot be copied |
| `PipeRing.Buffer.Write` | kernel/pipe.c:76-109 | the loop on the array is the loop on the queue of bytes |
| `PipeRing.Buffer.Read` | kernel/pipe.c:111-143 | the same for reading |
| `Pipe.Fifo` | kernel/pipe.c:76-143 | in every interleaving of readers and writers the bytes read are a prefix of the bytes written, each writer's in its order, and each byte goes to one reader |
| `Pipe.WritesAnswer` | kernel/pipe.c:76-109 | in every run a section of `pipewrite` that returns answers the length if all bytes are written, the bytes before if one cannot be copied, and -1 exactly for a closed read end, a kill, or a first byte that cannot be copied; a count that it answers is that of the first bytes of the buffer, which are the last it sent |
| `Pipe.ReadsAnswer` | kernel/pipe.c:111-143 | in every run a section of `piperead` waits exactly on an empty pipe that is open for writing, without a kill; else it has got the bytes that are there, up to the number asked for and to the first that cannot be copied, and answers their number |
| `Pipe.ReadCases` | kernel/pipe.c:111-143 | a read answers -1 exactly if it is killed on an empty open pipe or its first byte cannot be copied, and 0 exactly if nothing is asked for or the pipe is empty and closed for writing |
| `Pipe.CloseWakes` | kernel/pipe.c:58-74 | the end is closed, what is in the pipe stays, and nobody waits any more for what that end could give |
| `Pipe.StepKeepsNoStuck` | kernel/pipe.c:76-143 | a step leaves nobody asleep on a pipe that could serve them exactly unless it is the return of a killed writer that wrote something while a reader waits |
| `Pipe.NobodyStuckWithoutKills` | kernel/pipe.c:58-143 | in every run of a new pipe without kills a reader waits only on an empty pipe that is open for writing, a writer only on a full one that is open for reading |
| `Pipe.KilledWriterAbandons` | kernel/pipe.c:83-87 | a run that leaves a reader asleep on a pipe with a byte in it |
| `Virtq.Alloc3Iff` | kernel/virtio_disk.c:201-213 | three descriptors cannot be had exactly if fewer than three are free |
| `Virtq.Disk.AllocThree` | kernel/virtio_disk.c:201-213 | the loop takes the first three free descriptors, or gives back what it took |
| `Virtq.Disk.FreeChain` | kernel/virtio_disk.c:169-197 | following the links frees the three descriptors of the chain once each; neither panic of `free_desc` is reached |
| `Virtq.Disk.Submit` | kernel/virtio_disk.c:215-284 | a chain of header, data and status in the available ring, or no change |
| `Virtq.Disk.Intr` | kernel/virtio_disk.c:300-333 | exactly the buffers of the new entries of the used ring are done, across the wrap of the 16-bit index |
| `Virtq.Disk.Finish` | kernel/virtio_disk.c:286-298 | the request's descriptors are free again and its buffer forgotten |
| `Virtio.AtMostTwo` | kernel/virtio_disk.c:156-298 | at most two requests are in flight |
| `Virtio.RingsNotOverrun` | kernel/virtio_disk.c:215-333 | neither ring holds more than two entries that the other side has not looked at |
| `Virtio.DescriptorsOwned` | kernel/virtio_disk.c:156-213 | a descriptor is free exactly if no request in flight has it, and no two requests share one |
| `Virtio.DeviceFinds` | kernel/virtio_disk.c:215-284 | the device finds in a fetched chain the command, sector and buffer of the process that submitted it |
| `Virtio.IntrFinds` | kernel/virtio_disk.c:300-333 | every entry the interrupt handler looks at is that of a request in flight, with its own buffer still marked busy |
| `Virtio.ExactlyOnce` | kernel/virtio_disk.c:215-333 | no request is served twice, one whose caller has returned was served, and every other one still has its caller |
| `Virtio.SectorsMeet` | kernel/virtio_disk.c:215-218 | two blocks share a sector exactly if their numbers are the same below 2^31 |
| `Virtio.CallerIsServed` | kernel/virtio_disk.c:286-298 | when the caller goes on, the device has served its request: a write has put the caller's data into the block asked for, and a read gave the data of the last write served for that block, or what the block held at first, whatever was served for other blocks |
| `Virtio.DiskByBlocks` | kernel/virtio_disk.c:215-333 | so it is for every block of the disk |
| `Virtio.IntrEndsWait` | kernel/virtio_disk.c:300-333 | a round of the handler ends the wait for exactly the buffer of the next request that the device reported |
| `Virtio.ReturnFrees` | kernel/virtio_disk.c:286-298 | the caller returns exactly if its buffer is not busy any more; then its descriptors, and no others, are free again and nobody waits for descriptors unwoken |
| `Virtio.NobodyStuck` | kernel/virtio_disk.c:215-333 | who waits for descriptors waits because fewer than three are free, who waits for a buffer because its request is still out |
| `Virtio.RunSafe` | kernel/virtio_disk.c:156-333 | in every run from boot, with completions in any order, the rings are not overrun and the disk is the result of serving the requests one after the other, each at most once |
| `Kandr.OneBlock` | user/umalloc.c:24-90 | in the invariant that malloc and free keep, every unit that `sbrk` gave lies in exactly one block, free or live |
| `Kandr.NoTouchingFree` | user/umalloc.c:24-44 | no two free blocks touch |
| `Kandr.MorecoreGives` | user/umalloc.c:46-61 | `sbrk` gives what `morecore` believes it gave exactly for less than 2^27 units |
| `Kandr.SbrksIff` | kernel/sysproc.c:39-65 | below 2^27 units `sbrk` fails exactly if there is no room; from there to 2^28 it never fails |
| `Kandr.LargestRequest` | user/umalloc.c:63-90 | the largest request gets one unit, and one of half the size makes the heap shrink |
| `Kandr.Allocator.Free` | user/umalloc.c:24-44 | the block leaves the live ones and the invariant stays: the list is circular, ordered by address, and joined |
| `Kandr.Allocator.Morecore` | user/umalloc.c:46-61 | adds a block that is large enough, or does nothing exactly if `sbrk` fails; from 2^27 units on no assignment of memory to blocks is left that fits the new header |
| `Kandr.Allocator.FindFit` | user/umalloc.c:73-88 | the search ends; it finds a block that is large enough, and gives up exactly if there is none and `sbrk` fails |
| `Kandr.Allocator.Malloc` | user/umalloc.c:63-90 | a block of the asked size that no live block overlaps, or 0 exactly if no free block is large enough and `sbrk` fails; it asks for memory exactly if no free block is large enough; the invariant breaks exactly for requests from 2^27 units on that no free block can serve |
| `Shell.RoundTrip` | user/sh.c:271-452 | parsing the printed form of a command, with any blanks between tokens, gives the command back |
| `ShellBuffer.PrintsSame` | user/sh.c:333-452 | whatever the parser accepts is such a command: printed and parsed again it is the same |
| `ShellBuffer.TokensSurvive` | user/sh.c:455-499 | after `nulterminate` every argument and file name of any accepted line, read as a C string in the line, is exactly its token |
| `ShellBuffer.Nulterminate` | user/sh.c:455-499 | the NULs written into the line in place are those of the specification and no others |
| `ShellBuffer.Parser.Gettoken` | user/sh.c:271-314 | the loops over the line are the token function of the specification |
| `ShellBuffer.Parser.PeekAt` | user/sh.c:316-326 | the same for peek |
| `ShellBuffer.Parser.Redirs` | user/sh.c:380-403 | the loop over redirections is the recursive function of the specification |

## Left out

- Hardware and start-up: traps, assembly, memory fences, PLIC, UART, console, `main`, device registers of `virtio_disk_init`.
- Spinlocks: a section under a spinlock is one step; weak memory and interrupts inside sections are not modelled.
- System-call dispatch, argument fetching, file descriptors and `struct file` except the write loop of `filewrite`; device files.
- The kernel's own page table (`kvmmake`), kernel stacks, the contents of trapframes, and `copyinstr`.
- More than one disk: every block is on ROOTDEV.
- `Dirs`, `Itable`, `SleepWakeup`, `SleepLock` and `Procs` are state machines over values, one critical section or system call per step; updates of their tables in place and the loops that scan them are functions there.
- `Fs` takes the user memory a call copies from or to as the bytes that `copyin` or `copyout` gets through before it fails; what those two get through is in `UserMemory`.
- `Dirs` works on records; `FsDirs` ties its `dirlink` and its start state to bytes of files, the other operations are not composed with `writei`, and a path is a list of names (`skipelem` and truncation to DIRSIZ are not modelled).
- `Durable` composes `Fs` with the log by whole transactions: a transaction is where its calls lead and the set of blocks they logged. That the cached copy of a logged block is the block of `Fs` is not composed with `Bcache`.
- Images.OwnedOnce: pages outside page tables and the free list are all "kernel pages" to it; the trapframes among them are told apart, and told to be mapped once, by `System.NothingShared`, and that the operations keep the invariant is in the contracts of `Vm.Memory`.
- Exec.Kexec: program headers are a parameter (`phs`), each with the fact whether `readi` delivered it; ELF fields that `kexec` does not use, the entry point and the process name are not modelled; physical memory is assumed smaller than the user address space, as PHYSTOP makes it; the bounds on free pages allow two new tables for each page, so they are sufficient and not the exact number.
- Kandr.Allocator.Malloc: what a heap looks like after a corrupting request is described only as one that no assignment of memory to blocks fits; whether the write of the new header faults instead depends on the page it falls on, which is not modelled.
- Mkfs.Image.Build: host files that cannot be opened or read, and host I/O errors, are not modelled; beyond the inode area the contract says what the root and the bitmap are, and not what else the misplaced inodes overwrite.
- Fs.RecordLogs: the blocks of `create`, `link` and `unlink` as whole calls are not added up.
- Durable.Mount: asks that the fields of inodes fit their C types; that link counts do not overflow a short is not guarded by the source.
- Pipe.NobodyStuckWithoutKills: nobody is promised to be woken in the presence of kills; the exact exception is in `Pipe.StepKeepsNoStuck`.
- Virtio.RunSafe: the device is well behaved: it serves what it fetches, in any order, and reports success.
- Exit status, faults of a process (`setkilled`), scheduling fairness, kill liveness, and overflow of pids and of the commit counter, which the source does not guard either; counters of that kind are unbounded.
- Log.Log.RecoverFromLog: starts from a header that `write_head` can have written; a damaged header is not modelled, and the source does not check for one.
- Shell: running commands (`runcmd`), and the other user programs, `usertests` and the tests.
