# rCore tutorial: the storage stack and the thread kernel, verified

A model, in Dafny, of the parts of the rCore tutorial where most can go wrong, with proofs that it does not:

* **The easy-fs storage stack.** Blocks with four typed views, bitmaps, on-disk inodes with 28 direct pointers, a
  single- and a double-indirect block, files, the root directory, formatting and opening, and the write-back block
  cache. A file is a byte sequence, a directory is a list of names, the cache is invisible, and no block leaks or is
  shared; this holds over every sequence of creates, writes and clears, and after the device has been opened again.
* **The thread kernel.** The thread and process tables, the ready queue, mutexes, semaphores, condition variables and
  the trap loop, as a class and as a transition system whose step is one trap. The loop has no timer branch, so threads
  interleave at system calls only. Over every run from boot each live thread is in exactly one place, the process tree
  is sound, each exit code of a process or thread is delivered at most once, the requests for each lock are served in
  order, owner fields are right as long as only holders unlock and nobody calls `condvar_wait`, and no unwrap fails.
* **Two concurrent user programs** on top of these locks: the bounded buffer (`mpsc_sem`) and the dining philosophers
  with ordered locking (`phil_din_mutex`), for any number of threads: first for every interleaving of the threads once
  all locks exist, then on the kernel from boot, with the main thread creating locks and threads.
* **The pipe**, a ring of 32 bytes with user-level retry loops, as a FIFO.
* **Address spaces**, with area splitting on unmap and the deep copy made by fork.

Classes with `modifies` clauses follow the code that updates state in place. What their methods do is stated by
functions on values, and the theorems are lemmas about these functions or contracts of methods that carry out whole
runs. `dafny verify dfyconfig.toml` checks the project.

## How it fits together

| Files | What they hold |
|---|---|
| `BlockViews`, `BlockStore`, `BlockCache` | blocks and their views; the store that the file system works on, which records all accesses; the cache, over which any such record can be repeated |
| `Bitmap`, `InodeTree`, `DiskInode` | allocation of bits; the block tree of a file as a sequence with a closed form for each node; the on-disk inode over that tree |
| `FileTrees`, `EasyFs`, `Vfs` | all files together: who owns which block; the allocator; the operations on files |
| `Format`, `Directory`, `FileSystemRuns` | formatting and opening; directories; whole sessions against a model of names and byte sequences |
| `Sync`, `ProcThreadRel`, `KernelState`, `ThreadKernel` | the locks; the process relation lists; the kernel as a transition system; the kernel as a class |
| `KernelMoves`, `KernelInvariants`, `ProcessTree`, `KernelRuns` | what each call moves from which queue to which; one place per thread; the process tree; runs and exit codes |
| `KernelWaits`, `KernelLocks`, `KernelOwners` | what the answers of `wait` and `waittid` tell; each mutex and semaphore over whole runs; owner fields and the relock check |
| `BoundedBuffer`, `Philosophers` | the two user programs as transition systems, under any schedule |
| `KernelPrograms`, `BufferOnKernel`, `DinnerOnKernel` | the same programs as threads of the kernel, from boot |
| `Pipe`, `AddressSpace` | the pipe; address spaces |
| `Options`, `Sequences` | optional values; sequences without repetition |

The block tree lists index blocks and data blocks in one order: 28 direct blocks, the single-indirect block and its 128
entries, the double-indirect block, and then each second-level block followed by its 128 entries. Both growing
and clearing use this order, which is why one undoes the other.

`BlockStore` stands for the block contents that every reader sees. Its `Lock` demands that the block is not locked
and that fewer than three are, so verifying the file-system code against it shows that it never locks a block twice and
never pins more than three. It also records every access. `BlockCaches.Repeat` takes such a record and carries it out
over the cache of sixteen entries: all reads return what was recorded, and after a flush the device holds the contents.
`FileSystemRuns.Session` does this for a whole run, and again for what happens after the device has been opened anew.

A class method of `ThreadKernel` computes the function of the same name in `KernelState`; the two meet in
`PThreadManager.MainLoop`. What the calls mean is stated by the lemmas of `KernelMoves` about these functions, and what
they keep by the invariants.

## What the callers have to see to

These are preconditions in the code as well, most of them as an `assert!`, an `unwrap` or an index:

* Files stay within 28 + 128 + 128 * 128 blocks, and the free blocks and inodes suffice; `alloc_data` and `alloc_inode`
  unwrap.
* A write starts in a block that the file has once it is grown, which every write of at least one byte does.
* Names have at most 28 bytes, or copying one into the entry fails. Names without a NUL have at most 27 where the
  directory is to be read again: `create` accepts one of 28 bytes, and then every lookup that gets to its entry
  fails (`Directories.CreateFile`). Sessions keep to names that leave a NUL in the field.
* All blocks belong to one device of exactly `total_blocks` blocks; inode numbers fit 32 bits.
* A mutex is locked when it is unlocked; `condvar_wait` is called with a mutex that has a waiter, because
  `wait_with_mutex` unwraps the result of `unlock`; ids name existing objects.
* Process 0 does not end while it has children (`ProcessTrees.ExitSafe`: the only case in which the exit path fails).
* Fewer than 2^64 - 2 processes are ever created: `wait` returns `usize::MAX - 1` for "still running".
* Mapped ranges are not empty and not mapped yet, and their flags include VALID.

## Where the code differs from what it says

* `wait_any_child` is described as taking the first dead child; `Vec::pop` takes the last. The model takes the last.
* `waittid` answers -2 both for a live thread and for a dead one whose exit code is -2, the code that an unsupported
  system call leads to, and -1 both for an unknown thread and for a dead one whose code is -1
  (`KernelWaits.WaitTidTells`, `DeadLooksAlive`, `DeadLooksUnknown`).
* `mutex_unlock` does not check who calls it. When another thread than the holder does, the owner field and the holder
  part, unless the first waiter is the recorded owner itself (`KernelOwners.OwnersAfterUnlock`).
* The main thread of `phil_din_mutex` starts philosopher i before fork i + 1 exists. Nothing but the order of the ready
  queue keeps philosopher i from asking for it, and then `mutex_lock` would index past the list
  (`DinnerOnKernel.OwnLegal`, `ForkIsThere`, `TooEarly`).
* `condvar_wait` neither uses the queue of the condition variable nor updates `mutex_owners`
  (`KernelOwners.OwnersAfterCondvarWait`), so that `condvar_signal` never wakes anybody (`KernelRuns.SignalsAreLost`);
  what they do is modelled as it is.
* `pipe_write` does not return when nobody reads and the data exceeds the free part of the ring (`Pipes.WriterAlone`).
* The file kind on disk is an enum in the code; the model keeps the 32-bit word that is stored.

## Model

| member | source | states |
|---|---|---|
| `FileSystemRuns.Session` | tg-rcore-tutorial-easy-fs/src/vfs.rs:66-189 | Formatting a device, creating, writing and clearing files in any allowed order, all through the write-back cache, and then opening the device with a new, empty cache: `readdir` lists exactly the names created, in that order, reading a file returns exactly the bytes of the model in which a file is a byte sequence, every block is marked as taken on the device exactly if it belongs to a file, and nothing panics on the way |
| `FileSystemRuns.Run` | tg-rcore-tutorial-easy-fs/src/vfs.rs:103-189 | After any sequence of creates, writes and clears within capacity the blocks still represent the byte-sequence model, and the file system is consistent |
| `EasyFileSystems.EasyFs.NoLeak` | tg-rcore-tutorial-easy-fs/src/efs.rs:133-149 | In every consistent state (which every operation keeps) a bit of the data bitmap is set exactly when its block occurs in the tree of some file: nothing leaks and nothing in use is free |
| `EasyFileSystems.EasyFs.NoShare` | tg-rcore-tutorial-easy-fs/src/efs.rs:133-149 | A block occurs at one position of one file's tree at most |
| `Vfs.VfsInode.WriteAt` | tg-rcore-tutorial-easy-fs/src/vfs.rs:167-175 | The new contents are the old ones, zero-filled up to the offset, with the range overwritten; all other files, inode records and their blocks are unchanged, the number of used blocks grows by exactly the number the tree needs, and the invariant holds again |
| `Vfs.VfsInode.ReadAt` | tg-rcore-tutorial-easy-fs/src/vfs.rs:161-164 | Returns the part of the byte sequence that starts at the offset, as far as it and the buffer go, leaves the rest of the buffer alone, and changes nothing on disk |
| `Vfs.VfsInode.Clear` | tg-rcore-tutorial-easy-fs/src/vfs.rs:178-189 | The file is empty, exactly the blocks of its old tree are free again, all other files are unchanged; the length assertion and the bit-is-set assertion never fire |
| `Vfs.WriteThenClear` | tg-rcore-tutorial-easy-fs/src/vfs.rs:167-189 | Writing to an empty file and clearing it restores the set of used blocks and all other files |
| `Vfs.IncreaseSize` | tg-rcore-tutorial-easy-fs/src/vfs.rs:83-100 | Allocates exactly as many blocks as the growth needs; the contents are padded with zeros, no other file changes, and a smaller new size changes nothing |
| `Vfs.Update` | tg-rcore-tutorial-easy-fs/src/vfs.rs:167-175 | Growing and then writing the loaded record gives the padded and overwritten contents; blocks owned by other files stay owned by them |
| `Vfs.AllocBlocks` | tg-rcore-tutorial-easy-fs/src/vfs.rs:91-98 | Hands out `n` different blocks of the data area that belonged to nobody, and sets exactly their bits |
| `Vfs.DeallocBlocks` | tg-rcore-tutorial-easy-fs/src/vfs.rs:178-189 | Gives a duplicate-free list of blocks back: exactly their bits are cleared and exactly these blocks zeroed |
| `DiskInodes.DiskInode.IncreaseSize` | tg-rcore-tutorial-easy-fs/src/layout.rs:164-235 | For every old and new size up to the maximum: exactly `blocks_num_needed` supplied blocks are consumed and become, in order, the next nodes of the block tree; all old nodes, hence all old block ids, stay; only index blocks of the tree are written |
| `DiskInodes.DiskInode.ClearSize` | tg-rcore-tutorial-easy-fs/src/layout.rs:239-309 | Returns the whole block tree in the order in which growth filled it, so it undoes growing; the size becomes 0 and just the pointers of the levels in use are reset |
| `DiskInodes.DiskInode.GetBlockId` | tg-rcore-tutorial-easy-fs/src/layout.rs:139-162 | The id found by following the index blocks is the one the block tree lists for that data block |
| `DiskInodes.BlockIdPath` | tg-rcore-tutorial-easy-fs/src/layout.rs:139-162 | The closed-form position of data block `inner` in the tree agrees with the direct, single-indirect and double-indirect lookup |
| `DiskInodes.DiskInode.ReadAt` | tg-rcore-tutorial-easy-fs/src/layout.rs:311-349 | Copies exactly the bytes of the file from `offset` on into the front of the buffer, across block boundaries, and reports how many |
| `DiskInodes.DiskInode.WriteAt` | tg-rcore-tutorial-easy-fs/src/layout.rs:352-388 | Overwrites exactly the range of the file's bytes, cut at its size; all other bytes and all other blocks stay |
| `DiskInodes.DiskInode.FillIndirect2` | tg-rcore-tutorial-easy-fs/src/layout.rs:214-234 | The two-dimensional loop over the double-indirect block adds the remaining nodes one by one in tree order, second-level blocks included |
| `DiskInodes.DiskInode.ListRows` | tg-rcore-tutorial-easy-fs/src/layout.rs:268-309 | The two nested clearing loops list the second-level blocks and their entries in tree order |
| `InodeTree.SetNodeAgree` | tg-rcore-tutorial-easy-fs/src/layout.rs:164-235 | Storing one node where the nodes before it are in place keeps these and adds it: index blocks are distinct, so no write hits another pointer |
| `InodeTree.PosInjective` | tg-rcore-tutorial-easy-fs/src/layout.rs:139-162 | Different data block indices have different positions in the tree |
| `InodeTree.PosInTree` | tg-rcore-tutorial-easy-fs/src/layout.rs:118-132 | A data block index lies in a file exactly when its position lies within `total_blocks` |
| `InodeTree.TreeSizeMonotone` | tg-rcore-tutorial-easy-fs/src/layout.rs:118-137 | `total_blocks` grows by at least one for every data block, so `blocks_num_needed` cannot underflow |
| `FileTrees.GrowTrees` | tg-rcore-tutorial-easy-fs/src/efs.rs:133-149 | Growing one file with free blocks keeps all files' trees disjoint and within the owned blocks |
| `FileTrees.WriteTrees` | tg-rcore-tutorial-easy-fs/src/layout.rs:352-388 | Writing data blocks of one file changes no tree, and the slack past every file's size stays zero |
| `FileTrees.ClearTrees` | tg-rcore-tutorial-easy-fs/src/layout.rs:239-309 | Emptying one file leaves all other trees as they were and frees exactly its own blocks |
| `EasyFileSystems.EasyFs.AllocData` | tg-rcore-tutorial-easy-fs/src/efs.rs:133-135 | Returns the lowest free data block, which lies on the device while fewer blocks are used than the data area has, and sets exactly its bit |
| `EasyFileSystems.EasyFs.DeallocData` | tg-rcore-tutorial-easy-fs/src/efs.rs:137-149 | Zeroes the block and clears exactly its bit, which was set |
| `Bitmaps.Bitmap.Alloc` | tg-rcore-tutorial-easy-fs/src/bitmap.rs:34-60 | Sets the lowest clear bit and no other and returns it, or reports that all bits are set and changes nothing |
| `Bitmaps.Bitmap.Dealloc` | tg-rcore-tutorial-easy-fs/src/bitmap.rs:62-71 | Clears exactly the given bit |
| `Bitmaps.Decomposition` | tg-rcore-tutorial-easy-fs/src/bitmap.rs:19-23 | The triple of block, word and bit is in range and stands for the number it was made from |
| `Bitmaps.TrailingOnesFirstClear` | tg-rcore-tutorial-easy-fs/src/bitmap.rs:34-60 | The number of trailing ones of a word that is not full is its lowest clear bit |
| `Format.LayoutRegions` | tg-rcore-tutorial-easy-fs/src/efs.rs:24-72 | For every admissible size the five regions follow each other, fill the device, and the two bitmaps cover their areas |
| `Format.Create` | tg-rcore-tutorial-easy-fs/src/efs.rs:24-82 | Formatting any device gives a consistent file system whose only inode is an empty root directory |
| `Format.Open` | tg-rcore-tutorial-easy-fs/src/efs.rs:84-104 | Opening recomputes exactly the layout with which the device was formatted |
| `Format.AllocInode` | tg-rcore-tutorial-easy-fs/src/efs.rs:128-130 | Takes the lowest free inode, sets exactly its bit |
| `Directories.CreateFile` | tg-rcore-tutorial-easy-fs/src/vfs.rs:103-140 | Appends the 32 bytes of one entry to the directory; the new inode is an empty file that had not been in use, and all other files are unchanged, also when the directory grows by a block. The directory can be read afterwards if and only if the name leaves a NUL in its field, and then has the one entry (name up to its first NUL, new inode) more |
| `Directories.Find` | tg-rcore-tutorial-easy-fs/src/vfs.rs:66-80 | Returns a handle to the first entry with that name, and one exactly when there is one |
| `Directories.FindInodeId` | tg-rcore-tutorial-easy-fs/src/vfs.rs:48-63 | The scan through the 32-byte entries returns the inode number of the first entry with that name |
| `Directories.Readdir` | tg-rcore-tutorial-easy-fs/src/vfs.rs:143-158 | Lists the names of all entries in order |
| `Directories.MakeInode` | tg-rcore-tutorial-easy-fs/src/vfs.rs:103-117 | Takes the lowest free inode and makes its record that of an empty file; all other records and files are unchanged |
| `Directories.DecodeEncode` | tg-rcore-tutorial-easy-fs/src/layout.rs:399-442 | For every name that fits the field of 28 bytes: the entry can be decoded if and only if the name leaves a NUL, that is, has a NUL or at most 27 bytes; it then gives the inode number and the name up to its first NUL, which is the name itself if and only if it has none |
| `Directories.LookupFirst` | tg-rcore-tutorial-easy-fs/src/vfs.rs:48-63 | The lookup specification finds the first match, and finds one whenever there is one |
| `Directories.LookupAppend` | tg-rcore-tutorial-easy-fs/src/vfs.rs:103-140 | Appending an entry changes the lookup of its own name only, and only if the name was unknown |
| `FileSystemRuns.LookupIsIndexOf` | tg-rcore-tutorial-easy-fs/src/vfs.rs:48-63 | In a directory filled by `create` alone, looking a name up gives the inode of the first file of that name |
| `FileSystemRuns.ReadAll` | tg-rcore-tutorial-easy-fs/src/vfs.rs:161-164 | Reading piece by piece until nothing comes returns the whole file |
| `BlockViews.ViewsLossless` | tg-rcore-tutorial-easy-fs/src/block_cache.rs:30-75 | Writing back through the 64-bit or the inode view what was read through it changes nothing in the block |
| `BlockViews.BytesLossless` | tg-rcore-tutorial-easy-fs/src/block_cache.rs:30-75 | The same for the byte view: a block is rebuilt exactly from its bytes |
| `BlockCaches.Repeat` | tg-rcore-tutorial-easy-fs/src/block_cache.rs:77-158 | Any sequence of locks, reads, writes, unlocks and flushes, with up to three blocks locked at a time and across whatever evictions that leads to: every read returns what it would without a cache, contents and locks are the same at the end, and after a flush with no later write the device itself holds the contents |
| `BlockCaches.CachedStore.Perform` | tg-rcore-tutorial-easy-fs/src/block_cache.rs:105-158 | One access over the cache changes what there is to see as it would without a cache, and a read returns it |
| `BlockCaches.BlockCacheManager.GetBlockCache` | tg-rcore-tutorial-easy-fs/src/block_cache.rs:105-136 | The cache of the block, with its logical content; the logical contents of all blocks stay, across the eviction of the first entry nobody refers to |
| `BlockCaches.BlockCacheManager.Evict` | tg-rcore-tutorial-easy-fs/src/block_cache.rs:77-90 | Dropping an entry writes it back: no reader sees a difference |
| `BlockCaches.BlockCacheManager.Modify` | tg-rcore-tutorial-easy-fs/src/block_cache.rs:73-75 | Changes the logical content of that block and of no other |
| `BlockCaches.BlockCacheManager.SyncAll` | tg-rcore-tutorial-easy-fs/src/block_cache.rs:153-158 | The device holds exactly the logical contents, which are unchanged |
| `BlockCaches.BlockCache.Sync` | tg-rcore-tutorial-easy-fs/src/block_cache.rs:77-83 | Writes the block back exactly if it is dirty |
| `BlockCaches.CachedStore.Lock` | tg-rcore-tutorial-easy-fs/src/block_cache.rs:105-152 | Locking a block that is not locked, with at most two others locked, always succeeds and changes no logical content |
| `BlockCaches.CachedStore.NeverOut` | tg-rcore-tutorial-easy-fs/src/block_cache.rs:105-136 | With at most three blocks locked there is always an entry to evict: "Run out of BlockCache!" is unreachable |
| `BlockCaches.CachedStore.Write` | tg-rcore-tutorial-easy-fs/src/block_cache.rs:73-75 | Writing a locked block changes its logical content only |
| `BlockCaches.CachedStore.Unlock` | tg-rcore-tutorial-easy-fs/src/block_cache.rs:69-75 | Unlocking changes no content and unpins exactly the block locked last |
| `BlockCaches.CachedStore.SyncAll` | tg-rcore-tutorial-easy-fs/src/block_cache.rs:153-158 | With nothing locked, afterwards the device equals the logical contents |
| `KernelRuns.KernelRun` | tg-rcore-tutorial-ch8/src/main.rs:217-277 | In every run from boot in which the callers keep to the stated rules: no unwrap or index of the kernel fails, every live thread is in exactly one place, the process tree is right, neither `wait` nor `waittid` ever delivers the code of the same process or thread twice, and the next thread to run is alive |
| `KernelRuns.RunKeeps` | tg-rcore-tutorial-ch8/src/main.rs:217-277 | The same from every good state; what has been delivered before is not delivered again |
| `KernelRuns.StepKeeps` | tg-rcore-tutorial-ch8/src/main.rs:217-277 | One trap keeps the whole invariant; a code that is delivered was not delivered before, and what has been delivered stays so |
| `KernelRuns.WaitBooks` | tg-rcore-tutorial-task-manage/src/thread_manager.rs:159-168 | `wait` delivers exactly an exit code that was left for the caller, and marks it as delivered |
| `KernelRuns.WaitTidBooks` | tg-rcore-tutorial-task-manage/src/thread_manager.rs:170-176 | `waittid` delivers exactly the code that a dead thread of the caller's process ended with, whatever the code is, and marks it as delivered; every answer but -1 and -2 is such a delivery |
| `KernelWaits.WaitTells` | tg-rcore-tutorial-ch8/src/main.rs:569-582 | In no run is an answer of `wait` ambiguous: -2 means that a child in question lives and none has ended, -1 that there is none, anything else is the id of the child whose code is delivered |
| `KernelWaits.WaitTidTells` | tg-rcore-tutorial-ch8/src/main.rs:705-717 | `waittid` returns the code itself: -2 means that the thread lives if and only if it did not end with code -2, and -1 that there is no such other thread if and only if it did not end with -1 |
| `KernelWaits.DeadLooksAlive` | tg-rcore-tutorial-ch8/src/main.rs:705-717 | Two runs from boot after which `waittid` gives the same -2: in one the thread lives, in the other it is dead, having made an unsupported call |
| `KernelWaits.DeadLooksUnknown` | tg-rcore-tutorial-ch8/src/main.rs:705-717 | Two states reached from boot in which `waittid` gives the same -1: in one the thread never was, in the other it ended with code -1 |
| `KernelInvariants.TrapKeepsKernel` | tg-rcore-tutorial-ch8/src/main.rs:222-272 | Every trap keeps: each live thread stands exactly once in exactly one of the current slot, the ready queue and the wait queues of its own process |
| `KernelInvariants.ExactlyOnePlace` | tg-rcore-tutorial-task-manage/src/thread_manager.rs:47-114 | What the placement invariant means, by position in the queues |
| `KernelInvariants.FindNextLive` | tg-rcore-tutorial-task-manage/src/thread_manager.rs:47-58 | A non-empty ready queue always yields a live thread, so the loop ends only when no thread is ready |
| `KernelOwners.OwnersRun` | tg-rcore-tutorial-ch8/src/main.rs:757-810 | A thread holds a mutex from the moment its own `mutex_lock` returns 0, or it is taken out of the mutex's queue, until its own `mutex_unlock`. In every run from boot in which only holders unlock and nobody calls `condvar_wait`: `mutex_owners[i]` names a thread if and only if that thread holds mutex i, there is such a thread exactly while the mutex is locked and never a second one; and with the relock check enabled in time no owner is in the queue of its own mutex |
| `KernelOwners.OwnersKept` | tg-rcore-tutorial-ch8/src/main.rs:757-810 | Every trap but `condvar_wait`, and every unlock by a holder, keeps the owner fields equal to who holds what |
| `KernelOwners.OwnersAfterUnlock` | tg-rcore-tutorial-ch8/src/main.rs:776-787 | After an unlock the owner fields are right if and only if it came from the holder, or the first waiter is the recorded owner, who was waiting for itself |
| `KernelOwners.OwnersAfterCondvarWait` | tg-rcore-tutorial-ch8/src/main.rs:839-852 | After `condvar_wait` the owner fields are right if and only if the field of the mutex named its first waiter before |
| `KernelOwners.CheckedKept` | tg-rcore-tutorial-ch8/src/main.rs:790-810 | With the check on, no thread ever waits for a mutex it owns |
| `KernelOwners.RelockWithoutCheck` | tg-rcore-tutorial-ch8/src/main.rs:790-810 | A second lock by the owner is refused with the check, and leaves the owner waiting for itself without it |
| `KernelRuns.SignalsAreLost` | tg-rcore-tutorial-ch8/src/main.rs:828-836 | In no run does `condvar_signal` wake a thread, since no thread ever waits in the queue of a condition variable |
| `ProcessTrees.ExitSafe` | tg-rcore-tutorial-task-manage/src/thread_manager.rs:75-157 | The unwraps of `make_current_exited` and `del_proc` fail if and only if process 0 ends with its last thread while it has children |
| `ProcessTrees.ExitTree` | tg-rcore-tutorial-task-manage/src/thread_manager.rs:75-157 | Ending a thread keeps: parents have smaller pids than children, and each live process but 0 is listed once with its live parent |
| `ProcessTrees.DelProcTree` | tg-rcore-tutorial-task-manage/src/thread_manager.rs:138-157 | Removing a process hands its children to process 0 and keeps the tree |
| `ProcessTrees.RootLives` | tg-rcore-tutorial-task-manage/src/thread_manager.rs:138-157 | As long as any process lives, process 0 lives |
| `ThreadKernel.PThreadManager.MainLoop` | tg-rcore-tutorial-ch8/src/main.rs:217-277 | The loop, fed with the traps the threads take, computes the run of the transition system and never fails |
| `ThreadKernel.PThreadManager.HandleTrap` | tg-rcore-tutorial-ch8/src/main.rs:222-272 | One trap, through the manager's tables, is the step of the transition system |
| `ThreadKernel.PThreadManager.FindNext` | tg-rcore-tutorial-task-manage/src/thread_manager.rs:47-58 | Fetches the head of the ready queue and says whether it is a live thread |
| `ThreadKernel.PThreadManager.MakeCurrentExited` | tg-rcore-tutorial-task-manage/src/thread_manager.rs:75-94 | The thread is gone, its code kept for `waittid`; with the last thread the process goes too |
| `ThreadKernel.PThreadManager.DelProc` | tg-rcore-tutorial-task-manage/src/thread_manager.rs:138-157 | The process is gone, its code with its parent, its children with process 0 |
| `ThreadKernel.PThreadManager.SemaphoreCreate` | tg-rcore-tutorial-ch8/src/main.rs:721-733 | The first free slot, or a new one |
| `ThreadKernel.PThreadManager.MutexCreate` | tg-rcore-tutorial-ch8/src/main.rs:757-773 | The first free slot, or a new one, with no owner |
| `KernelInvariants.Suspended` | tg-rcore-tutorial-task-manage/src/thread_manager.rs:68-73 | The current thread changes its one place to the ready queue, and the invariant of the tables holds again |
| `KernelInvariants.Queued` | tg-rcore-tutorial-task-manage/src/thread_manager.rs:96-100 | A thread that blocks changes its one place to the wait queue it was put into |
| `KernelInvariants.Woken` | tg-rcore-tutorial-task-manage/src/thread_manager.rs:102-104 | A woken thread changes its one place from the wait queue to the ready queue |
| `KernelMoves.ThreadCreateMoves` | tg-rcore-tutorial-ch8/src/main.rs:671-704 | The id returned is new; its thread belongs to the caller's process and is ready, ahead of the caller; all other queues and tables are as before |
| `KernelMoves.ForkMoves` | tg-rcore-tutorial-ch8/src/main.rs:534-547 | The id returned is that of a new process with fresh objects and one ready thread, which the caller's process lists as a child; all other queues and processes are as before |
| `ProcessTrees.ForkTree` | tg-rcore-tutorial-task-manage/src/thread_manager.rs:126-132 | A new process keeps the tree: it is listed once, with its live parent |
| `KernelMoves.DownMoves` | tg-rcore-tutorial-ch8/src/main.rs:747-754 | With a unit left the caller gets 0 and goes to the end of the ready queue; otherwise it gets -1 and goes to the end of the semaphore's queue; all other queues and processes are as before |
| `KernelMoves.UpMoves` | tg-rcore-tutorial-ch8/src/main.rs:736-744 | The first waiter, if there is one, becomes ready ahead of the caller; all other queues and processes are as before |
| `KernelMoves.LockMoves` | tg-rcore-tutorial-ch8/src/main.rs:790-810 | Refused to the owner with the check on, and then nothing changes; otherwise granted at once, with the caller as owner, or the caller sleeps at the end of the queue |
| `KernelMoves.UnlockMoves` | tg-rcore-tutorial-ch8/src/main.rs:776-787 | The first waiter becomes the owner and ready ahead of the caller, the mutex staying locked; without a waiter it is free and has no owner |
| `KernelMoves.WaitMoves` | tg-rcore-tutorial-ch8/src/main.rs:839-851 | The first waiter of the mutex becomes ready and the caller sleeps at the end of the mutex's queue; the owner fields and the queue of the condition variable are as before |
| `KernelMoves.SignalMoves` | tg-rcore-tutorial-ch8/src/main.rs:828-836 | The first thread in the queue of the condition variable becomes ready ahead of the caller, if there is one |
| `KernelMoves.DetectMeans` | tg-rcore-tutorial-ch8/src/main.rs:854-867 | 1 and 0 are accepted, nothing else; after 1 the next lock by the owner is refused, after 0 it is not |
| `ProcThreadRels.ProcThreadRel.DelChild` | tg-rcore-tutorial-task-manage/src/proc_thread_rel.rs:36-46 | A listed child moves to the dead ones with its code |
| `ProcThreadRels.ProcThreadRel.WaitAnyChild` | tg-rcore-tutorial-task-manage/src/proc_thread_rel.rs:48-60 | Takes the last dead child; says whether any child is alive |
| `ProcThreadRels.ProcThreadRel.WaitChild` | tg-rcore-tutorial-task-manage/src/proc_thread_rel.rs:62-85 | Takes the named dead child, or says whether it is alive |
| `ProcThreadRels.ProcThreadRel.DelThread` | tg-rcore-tutorial-task-manage/src/proc_thread_rel.rs:91-97 | A listed thread moves to the dead ones with its code |
| `ProcThreadRels.ProcThreadRel.WaitThread` | tg-rcore-tutorial-task-manage/src/proc_thread_rel.rs:99-122 | Takes the named dead thread's code, or says whether it is alive |
| `Sync.MutexFifo` | tg-rcore-tutorial-sync/src/mutex.rs:41-65 | Over every run the owners, followed by those still waiting, are the requests in their order: no overtaking, nobody lost |
| `Sync.MutexHandOff` | tg-rcore-tutorial-sync/src/mutex.rs:55-65 | A waiter at position k becomes owner at exactly the (k+1)-th later unlock |
| `Sync.SemaphoreFifo` | tg-rcore-tutorial-sync/src/semaphore.rs:36-54 | Over every run: the count is initial + ups - downs, and grants follow the order of the requests |
| `Sync.SemaphoreConservation` | tg-rcore-tutorial-sync/src/semaphore.rs:24-54 | From a fresh semaphore exactly the first initial + ups requests are served, in order, and the rest wait, in order |
| `KernelLocks.MutexInRun` | tg-rcore-tutorial-ch8/src/main.rs:736-810 | From any state that a run from boot reaches, in every further run: the threads that get a mutex, followed by those waiting for it at the end, are those that waited before followed by those that asked since, in that order |
| `KernelLocks.HandOffInRun` | tg-rcore-tutorial-ch8/src/main.rs:776-787 | In every such run the thread at position j of the queue gets the mutex at exactly the (j+1)-th unlock |
| `KernelLocks.SemaphoreInRun` | tg-rcore-tutorial-ch8/src/main.rs:736-756 | In every such run the units of a semaphore are conserved, and granted in the order of the requests |
| `Sync.MutexBlocking.Lock` | tg-rcore-tutorial-sync/src/mutex.rs:41-53 | Takes a free mutex, or queues the thread and reports false |
| `Sync.MutexBlocking.Unlock` | tg-rcore-tutorial-sync/src/mutex.rs:55-65 | Hands over to the first waiter without unlocking, or unlocks |
| `Sync.Semaphore.Up` | tg-rcore-tutorial-sync/src/semaphore.rs:36-41 | One more unit; the first waiter is returned |
| `Sync.Semaphore.Down` | tg-rcore-tutorial-sync/src/semaphore.rs:43-54 | One unit less; below zero the thread is queued and the answer is false |
| `Sync.Condvar.WaitWithMutex` | tg-rcore-tutorial-sync/src/condvar.rs:54-63 | The mutex goes to its first waiter and the caller to the end of its queue; the condition variable's own queue is not used |
| `Sync.Condvar.Signal` | tg-rcore-tutorial-sync/src/condvar.rs:30-33 | Takes the first thread of the queue |
| `BoundedBuffer.ProgramCorrect` | tg-rcore-tutorial-user/src/bin/mpsc_sem.rs:28-75 | For any number of producers and any interleaving at system calls: stored minus consumed stays within 0 and 8, values come out in the order they went in, the program cannot get stuck or run for ever, and at the end everything stored has been consumed |
| `BoundedBuffer.StepKeeps` | tg-rcore-tutorial-user/src/bin/mpsc_sem.rs:28-52 | Every step keeps the accounting of the three semaphores, and no slot that is unread is overwritten |
| `BoundedBuffer.SomebodyRuns` | tg-rcore-tutorial-user/src/bin/mpsc_sem.rs:28-52 | Until all have finished some thread can run |
| `BoundedBuffer.StepWork` | tg-rcore-tutorial-user/src/bin/mpsc_sem.rs:28-52 | Every step uses up a finite amount of work |
| `BufferOnKernel.BufferFromBoot` | tg-rcore-tutorial-user/src/bin/mpsc_sem.rs:28-75 | On the kernel, from boot, main's creation of semaphores and threads included, and whatever other threads and processes do: no call fails, the buffer never holds more than eight values, they come out in the order they went in, the number of steps is bounded, until everything is consumed somebody who is not blocked is in the ready queue, and at the end all of it has been consumed |
| `BufferOnKernel.ProgramRuns` | tg-rcore-tutorial-user/src/bin/mpsc_sem.rs:28-75 | The same from every state on the way: the threads' calls are allowed and carry out a schedule of the program |
| `Philosophers.DinnerCorrect` | tg-rcore-tutorial-user/src/bin/phil_din_mutex.rs:37-67 | Once all forks exist, for any number of philosophers from 2 on, any number of rounds and any interleaving: somebody can always go on until all have eaten, neighbours never eat together, and the dinner ends |
| `Philosophers.NoDeadlock` | tg-rcore-tutorial-user/src/bin/phil_din_mutex.rs:44-66 | Because the lower fork is locked first, every reachable state with an unfinished philosopher has one that is not blocked |
| `Philosophers.NeighboursExclude` | tg-rcore-tutorial-user/src/bin/phil_din_mutex.rs:44-66 | Two neighbours never hold both their forks at the same time |
| `Philosophers.StepKeeps` | tg-rcore-tutorial-user/src/bin/phil_din_mutex.rs:44-66 | Each fork is locked exactly while one philosopher holds it, and its queue lists exactly those who wait for it |
| `DinnerOnKernel.DinnerFromBoot` | tg-rcore-tutorial-user/src/bin/phil_din_mutex.rs:37-84 | On the kernel, from boot, main's creation of forks and threads included, and whatever other threads and processes do: no call fails, the philosophers' calls are a schedule of the dinner of bounded length, until it is over main or a philosopher who is not blocked is in the ready queue, and neighbours never eat together |
| `DinnerOnKernel.DinnerRuns` | tg-rcore-tutorial-user/src/bin/phil_din_mutex.rs:37-84 | The same from every state on the way: that every call is allowed is a conclusion |
| `DinnerOnKernel.OwnLegal` | tg-rcore-tutorial-ch8/src/main.rs:790-810 | A philosopher's call succeeds if and only if the number of its fork is below the number of forks created so far |
| `DinnerOnKernel.ForkIsThere` | tg-rcore-tutorial-user/src/bin/phil_din_mutex.rs:69-84 | With the first-in-first-out ready queue a philosopher never asks for a fork that does not exist yet |
| `DinnerOnKernel.TooEarly` | tg-rcore-tutorial-user/src/bin/phil_din_mutex.rs:69-84 | With another order of the ready queue it can: a state reached from boot in which the lock of philosopher 0, run before main, indexes past the list |
| `Pipes.PipeReader.Read` | tg-rcore-tutorial-easy-fs/src/pipe.rs:115-144 | Moves as many bytes as there are and fit from the front of the ring to the front of the buffer; 0 at the end of the data, -2 when there are none yet |
| `Pipes.PipeWriter.Write` | tg-rcore-tutorial-easy-fs/src/pipe.rs:153-176 | Appends as many bytes as fit to the ring; -2 when it is full |
| `Pipes.PipeRingBuffer.WriteByte` | tg-rcore-tutorial-easy-fs/src/pipe.rs:49-56 | Appends one byte to the sequence decoded from head, tail and status |
| `Pipes.PipeRingBuffer.ReadByte` | tg-rcore-tutorial-easy-fs/src/pipe.rs:59-67 | Takes the first byte of the decoded sequence |
| `Pipes.PipeRingBuffer.AvailableRead` | tg-rcore-tutorial-easy-fs/src/pipe.rs:70-79 | The length of the decoded sequence |
| `Pipes.PipeRingBuffer.AvailableWrite` | tg-rcore-tutorial-easy-fs/src/pipe.rs:82-88 | The room that is left |
| `Pipes.RingPop` | tg-rcore-tutorial-easy-fs/src/pipe.rs:59-67 | Advancing the head removes the first byte of the decoded sequence, round the end included |
| `Pipes.RingPush` | tg-rcore-tutorial-easy-fs/src/pipe.rs:49-56 | Storing at the tail and advancing it appends to the decoded sequence, round the end included |
| `Pipes.UserBuffer.Len` | tg-rcore-tutorial-easy-fs/src/file.rs:25-31 | The total length of the fragments |
| `Pipes.UserBufferIterator.Next` | tg-rcore-tutorial-easy-fs/src/file.rs:61-75 | Visits every byte of the fragments once, in order |
| `Pipes.FlatPut` | tg-rcore-tutorial-easy-fs/src/file.rs:59-79 | Writing through the place the iterator gives changes exactly that byte of the flattened buffer |
| `Pipes.Transfer` | tg-rcore-tutorial-user/src/lib.rs:106-151 | Over the real pipe, with rounds of `pipe_write` and `pipe_read` in any order: what has been read is a prefix of what is sent, and a reader that is through has exactly the bytes sent, up to the number it asked for |
| `Pipes.WriteRound` | tg-rcore-tutorial-user/src/lib.rs:132-151 | One round of the retry loop is the writer's turn in the exchange |
| `Pipes.ReadRound` | tg-rcore-tutorial-user/src/lib.rs:106-128 | One round of the retry loop is the reader's turn in the exchange |
| `Pipes.TurnsKeep` | tg-rcore-tutorial-user/src/lib.rs:106-151 | Under any interleaving of the two retry loops what was read is a prefix of what was written and the ring holds the difference |
| `Pipes.ExchangeComplete` | tg-rcore-tutorial-user/src/lib.rs:106-151 | When `pipe_read` returns it has exactly the bytes sent, up to the number asked for |
| `Pipes.SomebodyMoves` | tg-rcore-tutorial-user/src/lib.rs:106-151 | The two loops are never stuck together, unless the reader is through and the ring is full |
| `Pipes.TurnProgress` | tg-rcore-tutorial-user/src/lib.rs:106-151 | Every turn that does something brings the exchange nearer to its end |
| `Pipes.WriterAlone` | tg-rcore-tutorial-user/src/lib.rs:132-151 | Without a reader `pipe_write` gets through if and only if the data fits into the free part of the ring |
| `AddressSpaces.ForkAfter` | tg-rcore-tutorial-kernel-vm/src/space/mod.rs:45-224 | After any sequence of mapping and unmapping, the copy maps the same pages with the same bytes and flags (OWNED added), into physical pages that neither the original nor another page of the copy uses |
| `AddressSpaces.AddressSpace.CloneSelf` | tg-rcore-tutorial-kernel-vm/src/space/mod.rs:186-224 | Every area is copied, contents included, into new pages; existing pages are untouched |
| `AddressSpaces.CloneMeaning` | tg-rcore-tutorial-kernel-vm/src/space/mod.rs:186-224 | Original and copy read the same at every address, and a later write through one is not seen through the other |
| `AddressSpaces.AddressSpace.Map` | tg-rcore-tutorial-kernel-vm/src/space/mod.rs:59-84 | New pages that hold zeros, the data, and zeros; one new area; other pages untouched; areas stay disjoint, contiguous and exactly the mapped pages |
| `AddressSpaces.AddressSpace.MapExtern` | tg-rcore-tutorial-kernel-vm/src/space/mod.rs:45-56 | Maps the range to consecutive physical pages and keeps the area invariant |
| `AddressSpaces.AddressSpace.Unmap` | tg-rcore-tutorial-kernel-vm/src/space/mod.rs:87-129 | Takes exactly the range out of the table and out of the areas, cutting those that overlap it, and keeps the area invariant |
| `AddressSpaces.RemoveHas` | tg-rcore-tutorial-kernel-vm/src/space/mod.rs:87-108 | After the cut exactly the pages outside the range are covered, by disjoint parts of the old areas |
| `AddressSpaces.RemoveOk` | tg-rcore-tutorial-kernel-vm/src/space/mod.rs:87-129 | Unmapping keeps the areas disjoint, contiguous, uniform in flags, and exactly the mapped pages |
| `AddressSpaces.MapOk` | tg-rcore-tutorial-kernel-vm/src/space/mod.rs:45-56 | Mapping free pages keeps the same |
| `AddressSpaces.UnmapUndoesMap` | tg-rcore-tutorial-kernel-vm/src/space/mod.rs:45-129 | Unmapping what was just mapped restores the table and the list of areas |
| `AddressSpaces.AddressSpace.Translate` | tg-rcore-tutorial-kernel-vm/src/space/mod.rs:162-183 | The mapped page and the offset, if the page has the flags asked for |
| `AddressSpaces.Mapper.Arrive` | tg-rcore-tutorial-kernel-vm/src/space/mapper.rs:35-46 | Writes the entry and goes on, or stops after the last page |

## Left out

- Vfs.VfsInode.WriteAt: requires the write to start in a block of the grown file, so an empty buffer is covered only at positions inside the file's blocks.
- Vfs.VfsInode.Clear: does not say what becomes of pointers of levels that were not in use; the inode tree never reads them.
- Format.Open: is stated for a valid super block; the assertion on the magic number is its precondition.
- KernelOwners.OwnersRun: runs with `condvar_wait` and with unlocks by threads that do not hold the mutex are excluded, because the owner fields may be stale afterwards; the exact conditions are `OwnersAfterCondvarWait` and `OwnersAfterUnlock`.
- Philosophers.DinnerCorrect: starts when all forks exist; the time before is in `DinnerOnKernel`, for the first-in-first-out ready queue of the kernel; with another order a call may fail (`DinnerOnKernel.TooEarly`).
- DinnerOnKernel.DinnerFromBoot: main makes no call of its own between its first fork and its last thread, as in the program; other threads of the process leave its locks alone.
- BufferOnKernel.BufferFromBoot: other threads of the process leave its semaphores alone.
- KernelLocks.MutexInRun: is about a process that is still there at the end of the run.
- AddressSpaces.AddressSpace.MapExtern: intermediate page tables, huge pages, the portal mapping and the TLB flush; the page table is a map from virtual page to entry.
- Inside a kernel's tables, mutexes, semaphores and process relations are values, the same that specify the classes `MutexBlocking`, `Semaphore` and `ProcThreadRel`; sharing of these objects through `Arc` is not modelled.
- The two user programs are steps of transition systems, not methods, since they interleave; so are the retry loops `pipe_read` and `pipe_write`, whose rounds are methods as well.
- Standard condition-variable semantics; spurious wake-ups.
- Signals and fatal signals, file descriptors, thread stacks and task contexts, `exec`, clocks.
- Semaphore deadlock detection: the code has none.
- The physical page allocator and heap: new pages are fresh and consecutive.
- `FileHandle::read` and `write`, open flags, `link` and `unlink`.
- The idle `sched_yield` calls, printing and sleeping in the user programs.
- Device drivers, consoles, ELF loading, linker layout, assembly, and the measurement and reporting code.
- `proc_manage.rs` and `proc_rel.rs`: the variant with processes only, an easier form of the thread version.
