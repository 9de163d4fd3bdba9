# xv6-64, modelled and proved

A Dafny model of the parts of the xv6-64 kernel and its user programs whose state
can be stated exactly, with proofs over every input, every run or every
interleaving. State that the C code changes in place is a class with loops and
contracts; protocols are step machines over value records; what the code promises
is stated against independent specifications (unbounded histories, byte sequences,
partial maps, languages, trees).

| files | subject |
|---|---|
| RedoLog, Log, GroupCommit | the redo log: recovery, commit as a sequence of block writes with a crash between any two, group commit as an interleaving |
| BufferCache | the buffer cache with its MRU ring, against an array of blocks; a commit on it |
| Bitmap, BlockMap, BlockCount, FileSystem, Mkfs | block ownership, direct and indirect maps, how many blocks a write takes, read and write against byte sequences, filewrite's chunks, the initial image |
| Directory | directory entries, link counts and the tree |
| References, InodeCache, PathNames, SysFile | reference counts of open files and inodes through the system calls; path names; when the inode cache is too small |
| Paging, AddressSpace, FrameCount, Mmu, Vm | four-level page tables against a partial map, the page allocator, growing, copying and freeing address spaces, how many frames that takes (4-level paging, section 4.5 of the Intel 64 manual, volume 3A) |
| ProcTable, Lifecycle | the process table's scans, and process lifecycles on several CPUs |
| Counters, PipeRing, PipeProtocol, PipeStream, SleepLock | wrapping 32-bit counters, pipes, what each read and write call delivers, sleep and wakeup at lock granularity, sleep locks |
| Umalloc | the user allocator (section 8.7 of The C Programming Language, 2nd ed.) |
| TraceRing | the kernel trace ring against an unbounded history |
| Shell, ShellParser | the shell's grammar, printer, parser and NUL termination in the input buffer |
| Grep | the regular-expression matcher against a denotational semantics |

`dafny verify dfyconfig.toml` checks everything.

Conventions. Fields and datatype components that only record (histories, owners,
serial numbers) are ghost or are named as such in the header comment of their file.
A kernel panic is a precondition where callers must exclude it and an outcome where
a property says when it happens. `hide` statements only shorten proofs.

Properties that the code does not have, with the exact condition:

- A shrink of a process to size 0 makes growproc fail although the pages are gone
  (`Vm.Machine.GrowProc`).
- log_write looks at the size of the header before it takes log.lock: two operations
  can pass the test and overfill the header, so a crash can lose the old state, exactly
  if an operation may log MAXOPBLOCKS or more new blocks (`GroupCommit.BudgetDecides`,
  `GroupCommit.RaceLosesHome`). One chunk of filewrite may log 17
  (`FileSystem.ChunkLogsAtMost17`).
- A killed writer can leave a full pipe without waking a sleeping reader
  (`PipeProtocol.InvIffNoneAbandoned`, `PipeProtocol.LostWakeup`).
- A killed process can go to sleep on a pipe, exactly if the kill came between its test
  and its sleep (`PipeProtocol.KilledAsleepIff`, `PipeProtocol.KilledSleeps`).
- kill(0) marks a slot without a process, and the next process there starts out killed;
  a slot is marked exactly from a kill to the next reaping (`Lifecycle.BornKilled`,
  `Lifecycle.KilledUntilReaped`).
- A file or directory created in a directory that has been removed breaks link counts
  and tree (`Directory.LinkIffLinked`, `Directory.NewFileIffLinked`,
  `Directory.NewDirIffLinked`, `Directory.CreateInUnlinkedDirectory`).
- mkfs writes two entries of the same name, or a second dot entry, if its arguments say
  so (`Directory.MkfsTreeOk`, `Directory.MkfsTwice`).
- pids are negative from the 2^31-th process on (`Lifecycle.PidsUnique`).
- The root directory that mkfs writes has an unallocated block below its size
  exactly if its byte count is a multiple of the block size (`Mkfs.RootFilled`).
- A simple command with ten or more arguments does not survive printing and parsing
  (`Shell.RoundTrip`).

Where a comment and the code differ the model follows the code: kalloc's comment
promises 0 when memory is exhausted, but the code panics; traceread's comment speaks
of releasing the lock while copying, but the code keeps it; the shell's '>>' opens a
file exactly as '>' does.

## Model

| member | source | states |
|---|---|---|
| `RedoLog.EncodeHead` | log.c:102-113 | Encoding a list of at most LOGSIZE block numbers over any old header gives a header that decodes to exactly that list. |
| `RedoLog.RecoverHome` | log.c:115-122 | After recovery every home block named by the header holds its logged copy and every other home block is unchanged. |
| `RedoLog.RecoveryStateRecovers` | log.c:70-82 | Every disk state inside a recovery is recoverable and recovers to the same home blocks as the disk recovery started from. |
| `RedoLog.AnyNumberOfRecoveryCrashes` | log.c:115-122 | For every chain of recoveries, each cut off by a crash after any of its block writes, the last one leaves the home blocks that the first would have left. |
| `RedoLog.LogWritesKeepOldState` | log.c:176-188 | However many blocks have been copied to the log, recovery still gives the state before the transaction. |
| `RedoLog.HeadWriteCommits` | log.c:102-113 | Once the header is on disk, recovery gives the state after the transaction. |
| `RedoLog.CommitStateRecovers` | log.c:190-200 | For every disk state of a commit: it recovers to the old state if the header has not been written yet, otherwise to the new one. |
| `RedoLog.CommitIsCrashAtomic` | log.c:70-122 | A crash after any block write of a commit, followed by any number of crashes inside recovery, ends in exactly the old or exactly the new home blocks, and in the new ones if and only if the first header write reached disk. |
| `RedoLog.CommitCompletes` | log.c:190-200 | A commit that is not interrupted leaves an empty header and the home blocks of the cached state. |
| `Log.Log.constructor` | log.c:54-66 | The in-memory log before recovery: nothing logged, no operation, disk as given. |
| `Log.Log.Bread` | bio.c:97-106 | Reading through the cache gives the pinned copy if there is one, else the disk block. |
| `Log.Log.InstallTrans` | log.c:70-82 | The copy loop performs the specified sequence of block writes, one after the other, and unpins the logged blocks. |
| `Log.Log.ReadHead` | log.c:86-96 | Loads the list of blocks that the on-disk header encodes. |
| `Log.Log.WriteHead` | log.c:102-113 | Writes the header block, and nothing else, in one block write. |
| `Log.Log.RecoverFromLog` | log.c:116-122 | Leaves the recovered disk and performs exactly the block writes of the recovery trace, so the crash results apply to it. |
| `Log.Log.WriteLogBlocks` | log.c:176-188 | The copy loop writes the cached contents of the logged blocks to the log, in order, and keeps the pins. |
| `Log.Log.LogTransaction` | log.c:190-200 | Log blocks, then the header: the disk is the committed one and the history grows by exactly those writes. |
| `Log.Log.InstallAndErase` | log.c:190-200 | Installs the transaction, then empties the header; logged blocks lose their pins. |
| `Log.Log.Commit` | log.c:191-200 | Performs exactly the block writes of the commit trace, ends with no pins and an empty header, and makes the home blocks equal to the cached contents before it. |
| `Log.Log.EndOp` | log.c:146-172 | The last operation out commits; before that nothing reaches disk; cached contents never change. |
| `Log.Log.LogWrite` | log.c:212-231 | Both panics exactly when the source raises them; otherwise the block is pinned with its data and is in the header exactly once. |
| `GroupCommit.InvRecovers` | log.c:146-200 | In every state that satisfies the invariant a crash recovers exactly the committed writes. |
| `GroupCommit.StepKeepsInv` | log.c:126-231 | Every step (begin, sleeping in begin_op, log_write's unlocked test of the size, its locked append, end, each block write of commit, crash with any recovery) keeps the invariant, whatever is still allowed to be logged fitting the log. |
| `GroupCommit.GroupCommitSafety` | log.c:126-172 | With a budget per operation that leaves room, in every interleaving with crashes anywhere: a commit runs with no operation active, a crash recovers exactly the committed writes, those contain all writes of an operation or none, and once all operations have ended and the commit is over all writes are committed. |
| `GroupCommit.StepKeepsSpace` | log.c:126-141 | Every step keeps the bound on logged blocks plus unused budgets. |
| `GroupCommit.LogSpaceSuffices` | log.c:212-231 | In every run, on a log of any size: with at most MAXOPBLOCKS new blocks per operation, logged plus still allowed blocks never exceed LOGSIZE; and if MAXOPBLOCKS + 2 cap is below the log's size, log_write's size panic cannot fire. |
| `GroupCommit.RoomForThree` | log.c:126-141 | An empty log has room for three operations at once and not for a fourth. |
| `GroupCommit.StepKeepsWakeup` | log.c:126-172 | Every step keeps that a sleeper in begin_op waits for a commit or for space. |
| `GroupCommit.BeginOpSleepers` | log.c:126-141 | In every run, whatever operations log: a commit runs with no operation active, and with log.lock free somebody sleeping in begin_op means that a commit is running or that the reservation does not fit. |
| `GroupCommit.SleepersCounted` | log.c:125-172 | In every run the sleepers in begin_op are those that went to sleep since the last wakeup: an operation that ended with others active, or the end of a commit. |
| `GroupCommit.Race` | log.c:212-231 | With a budget of MAXOPBLOCKS or more, a run in which two operations test the size of the header before either appends ends with 30 blocks in a header for 29 slots. |
| `GroupCommit.RaceLosesHome` | log.c:176-188 | That run goes on to overwrite the first block after the log with another block of the same length before anything is committed, and a crash does not recover the old state. |
| `GroupCommit.BudgetDecides` | log.c:212-231 | For the kernel's log size, every reachable state recovers exactly the committed writes if and only if the budget per operation is below MAXOPBLOCKS. |
| `LinkedRing.UnlinkLinked` | bio.c:121-141 | Unlinking a node leaves next and prev inverse and the rest of the ring in order. |
| `LinkedRing.InsertLinked` | bio.c:39-56 | Inserting behind the head leaves next and prev inverse with the node first in the ring. |
| `BufferCache.BufferCache.constructor` | bio.c:39-56 | The loop links all NBUF buffers, the last one first, all with key (0,0) and no reference. |
| `BufferCache.BufferCache.Bget` | bio.c:62-93 | A cached block is found if it is there; otherwise an unreferenced clean buffer, the least recently used one, is recycled; otherwise no buffer. |
| `BufferCache.BufferCache.Recycle` | bio.c:81-92 | Scans backwards and never recycles a referenced or dirty buffer. |
| `BufferCache.BufferCache.Bread` | bio.c:97-106 | Returns the data last stored for the block, through every history of reads, writes and recycling; fails exactly if no buffer holds the block and none can be recycled; says which buffer was taken and its reference count. |
| `BufferCache.BufferCache.IdeRead` | memide.c:39-60 | A read fills the buffer with the block's last stored data. |
| `BufferCache.BufferCache.Modify` | bio.c:8-14 | Changing a locked buffer's data keeps the cache coherent, whatever else is cached. |
| `BufferCache.BufferCache.Pin` | log.c:229 | Marking a buffer dirty makes its data the stored contents of its block. |
| `BufferCache.BufferCache.Bwrite` | bio.c:110-116 | Data reaches disk and is the stored contents; no other block changes. |
| `BufferCache.BufferCache.Brelse` | bio.c:121-141 | Drops the lock and one reference; an unreferenced buffer moves to the front and all others keep their order. |
| `BufferCache.RecycleKeepsCoherent` | bio.c:81-88 | Giving a clean unreferenced buffer a new key keeps one buffer per block and agreement with the stored contents. |
| `BufferCache.PinKeepsCoherent` | log.c:229 | Pinning keeps every other buffer's agreement with the stored contents. |
| `BufferCache.WriteKeepsCoherent` | memide.c:39-60 | Writing a buffer keeps every other buffer's agreement with disk and stored contents. |
| `BufferCache.CommitHasBuffer` | bio.c:81-92 | If the logged blocks and the buffers that others hold are together fewer than NBUF, some buffer can be recycled. |
| `BufferCache.BufferCache.Pair` | log.c:181-182 | The two breads of a round, the second while the first buffer is held: neither runs out of buffers and neither waits. |
| `BufferCache.BufferCache.WriteLog` | log.c:176-188 | The copy loop over the cache: every logged block's stored data is in its log slot on disk, nothing else changes, pins stay, and a buffer to spare is left. |
| `BufferCache.BufferCache.InstallTrans` | log.c:70-82 | The install loop over the cache keeps all stored data and leaves no logged block dirty. |
| `BufferCache.BufferCache.WriteHead` | log.c:102-113 | Writes the header block through the cache and changes no other block. |
| `BufferCache.BufferCache.Commit` | log.c:190-200 | With the logged blocks pinned and one buffer to spare, commit never runs out of buffers; afterwards the disk has the stored data of every logged block and none is pinned. |
| `Bitmap.MaskIs` | fs.c:59-62 | The bit of block b in its byte is 1 << (b % 8). |
| `Bitmap.BitChange` | fs.c:60-62 | Setting or clearing a bit in its byte changes that bit and no other. |
| `Bitmap.FirstFree` | fs.c:53-72 | The two scan loops find the first clear bit below size, or none. |
| `BlockMap.PutWordReads` | fs.c:366-370 | A block number stored in an indirect block reads back, and every other entry keeps its value. |
| `BlockMap.InUseExactlyOnce` | fs.c:53-89 | Under the invariant a bit is set if and only if the block is metadata or is some inode's direct entry, indirect block or indirect entry, and it is that in exactly one place. |
| `BlockMap.AllocDirectOk` | fs.c:354-358 | A new block in a direct entry keeps block ownership. |
| `BlockMap.AllocEntryOk` | fs.c:361-373 | A new block in an indirect entry keeps block ownership. |
| `BlockMap.FreeDirectOk` | fs.c:390-395 | Freeing a direct entry keeps block ownership. |
| `BlockMap.FreeEntryOk` | fs.c:400-403 | Freeing one indirect entry keeps block ownership apart from the entries already freed. |
| `BlockMap.FreeIndirectOk` | fs.c:397-407 | Freeing the indirect block after its entries keeps block ownership. |
| `BlockMap.WriteSpecSplit` | file.c:133-150 | Writing two adjacent pieces one after the other is writing their concatenation. |
| `BlockMap.PatchedContent` | fs.c:455-484 | A byte-level patch of one file's blocks is exactly the specified write of that file and leaves every other file alone. |
| `FileSystem.FileSystem.Balloc` | fs.c:53-72 | Fails exactly if every block is in use; otherwise takes the first free block, zeroes it and marks it, changes nothing else, and logs the bitmap block and the block; every bitmap, data and inode block on disk that it changes goes through log_write. |
| `FileSystem.FileSystem.Bfree` | fs.c:76-89 | Exactly this block becomes free: one more free block, every other bit as before; the double-free panic cannot fire on a block in use; every bitmap, data and inode block on disk that it changes goes through log_write. |
| `FileSystem.FileSystem.Bmap` | fs.c:349-376 | Fails exactly if fewer blocks are free than the position lacks, indirect block included; otherwise takes exactly those, keeps ownership, every byte of every file and every other slot; every bitmap, data and inode block on disk that it changes goes through log_write. |
| `FileSystem.FileSystem.Readi` | fs.c:427-450 | Fails exactly as the source does; otherwise returns the slice of the file clipped to its size, and changes nothing. |
| `FileSystem.FileSystem.Writei` | fs.c:455-484 | Refuses exactly as the source does; runs out of blocks exactly if fewer are free than the range lacks; otherwise the file is the specified write of src at off, exactly the missing blocks were taken, no other file changes, all invariants hold, and only the listed blocks are logged; every bitmap, data and inode block on disk that it changes goes through log_write. |
| `FileSystem.FileSystem.Itrunc` | fs.c:384-411 | The file becomes empty, all its blocks are freed, ownership holds and no other file changes; every bitmap, data and inode block on disk that it changes goes through log_write. |
| `FileSystem.FileSystem.FreeInode` | fs.c:314-328 | iput's freeing branch: the inode holds no block any more and is free, no other file changes, and free inodes still have no blocks; every bitmap, data and inode block on disk that it changes goes through log_write. |
| `FileSystem.FileSystem.Ialloc` | fs.c:180-199 | Takes the first inode of type 0, cleared and typed, or panics exactly if there is none; because a free inode has no block, clearing it loses none: ownership, every other file and that property are kept; every bitmap, data and inode block on disk that it changes goes through log_write. |
| `FileSystem.FileSystem.FileWrite` | file.c:118-156 | Runs out of blocks exactly if fewer are free than the chunks lack in all; otherwise the loop writes exactly the prefix that Chunked says, moves the offset by it, returns n or -1 accordingly, and leaves free inodes without blocks; every bitmap, data and inode block on disk that it changes goes through log_write. |
| `BlockCount.MarkCounts` | fs.c:63-65 | Marking a free block leaves exactly one free block less. |
| `BlockCount.NeedThen` | fs.c:475-480 | What a range of blocks lacks is what its first part lacks plus what the rest lacks once the first part is there. |
| `BlockCount.SpentThen` | file.c:132-148 | Two adjacent writes take together exactly what one write of both takes. |
| `BlockCount.SpentFails` | fs.c:475-480 | A block that cannot be had in the middle of a write means that the whole range could not be had from the start. |
| `BlockCount.TookEntry` | fs.c:361-374 | Indirect block and entry, one after the other, cost exactly what the position lacks. |
| `FileSystem.ChunkedVersusWhole` | file.c:118-156 | All n bytes are written in chunks if and only if one write of all n would be accepted; otherwise nothing is written exactly if already the first chunk does not fit. |
| `FileSystem.ChunkLogsAtMost17` | file.c:133 | One chunk of filewrite logs at most 17 distinct blocks. |
| `Mkfs.Mkfs.constructor` | mkfs.c:94-115 | An empty image: all inodes blank, all files empty, the metadata blocks in use, no file block allocated, no bit set. |
| `Mkfs.Mkfs.Ialloc` | mkfs.c:224-235 | Hands out the next inode, blank with one link, and changes no other. |
| `Mkfs.Mkfs.MapBlock` | mkfs.c:269-286 | Fails exactly if the image has fewer blocks left than the position lacks; otherwise takes exactly those; no byte of any file changes. |
| `Mkfs.Mkfs.Iappend` | mkfs.c:256-297 | Fails exactly if the file would pass MAXFILE blocks or all files together no longer fit the image; otherwise appends exactly src, and freeblock stays the metadata blocks plus exactly what the files' sizes call for. |
| `Mkfs.Mkfs.WriteBitmap` | mkfs.c:238-251 | The bitmap has exactly the first `used` bits set. |
| `Mkfs.Mkfs.Build` | mkfs.c:117-165 | Succeeds exactly if the root and every file fit MAXFILE blocks and all of them together fit the image; then the image holds the root directory bytes and every file, inode 1 is a directory and the next ones are files with one link each, the others are free and have no blocks, and block ownership holds. |
| `Mkfs.NeedTight` | mkfs.c:256-297 | Appending to a file that has exactly its blocks takes exactly the difference between what its new and its old size call for. |
| `Mkfs.Mount` | fs.c:157-173 | The kernel's view of a finished image has its files, and is a valid file system if and only if the root's byte count is not a multiple of BSIZE. |
| `Mkfs.BuiltOk` | mkfs.c:158-165 | Rounding up the root's size and writing the bitmap establish block ownership for the whole image. |
| `Mkfs.RootFilled` | mkfs.c:158-163 | Every block below the rounded-up root size is allocated if and only if the root's byte count was not a multiple of BSIZE. |
| `Paging.MakePte` | vm.c:213-232 | An entry made of a frame and permissions gives both back and is present. |
| `Paging.IndicesInjective` | mmu.h:135-142 | Two user addresses with the same four indices lie in the same page. |
| `Paging.IndicesDeterminePage` | mmu.h:135-142 | The four indices put together are the page number, and a user address uses the lower half of the root table. |
| `Paging.PteRefines` | vm.c:161-201 | Walking the four tables finds a present entry for a page exactly if the abstract address space maps it, and finds its frame. |
| `Mmu.TranslateIs` | vm.c:161-201 | The hardware walk over the four tables in memory, whose rights are the conjunction of the flags of all four entries, reaches exactly the pages of the address space, each with the rights of its own entry: the entries above give PTE_W and PTE_U. |
| `Mmu.FreshSeen` | vm.c:279-306 | At every address of a page that allocuvm added the user may write and finds zeros. |
| `Mmu.CopySeen` | vm.c:402-429 | At every user address the copy faults exactly where the original does, and otherwise has the same rights and finds the same bytes on another frame. |
| `Mmu.DroppedSeen` | vm.c:313-334 | At every user address between the sizes deallocuvm leaves a fault; everywhere else the same frame, rights and bytes. |
| `Paging.MappedPagesBound` | vm.c:279-306 | Mapped pages use distinct frames, so no more pages are mapped than there are frames. |
| `Vm.Machine.Kfree` | kalloc.c:56-75 | Overwrites the page, and pushes exactly this frame on the free list. |
| `Vm.Machine.Kalloc` | kalloc.c:81-101 | Pops the first free frame; an empty list is the panic outcome. |
| `Vm.Machine.FreeRange` | kalloc.c:43-49 | Frees exactly the pages that lie wholly between the two addresses, in order, in front of the old list. |
| `Vm.Machine.WalkStep` | vm.c:161-201 | One level of the walk: finds the next table or, on request, adds an empty one; no mapping changes; it fails exactly if the table is missing and no frame was free, and then changes nothing. |
| `Vm.Machine.Walk` | vm.c:161-201 | Finds the lowest table of an address; no page's mapping changes; exactly the missing tables are taken from the free list; it fails exactly if fewer frames were free than tables were missing. |
| `Vm.Machine.MapPages` | vm.c:213-232 | Maps the requested page to the frame with the permissions and changes no other page; an existing mapping is the remap panic, and exactly that; the other failure is exactly fewer free frames than missing tables. |
| `Vm.Machine.AllocUvm` | vm.c:279-306 | The loop maps exactly the new pages to zeroed fresh frames and leaves the old ones; through the hardware walk the user can write and reads zeros at exactly the new addresses, and every other address is as before; sizes at or above KERNBASE are refused; remap cannot fire; it runs out exactly if fewer frames were free than pages and tables were missing, and otherwise takes exactly those. |
| `Vm.Machine.GrowByPage` | vm.c:291-304 | One round: a fresh zeroed page is mapped, mappages cannot report remap, and it fails exactly if fewer frames were free than the page and its missing tables need. |
| `Vm.Machine.DeallocUvm` | vm.c:313-334 | The loop unmaps exactly the pages between the two sizes and returns exactly their frames to the free list; those addresses fault and all others are as before. |
| `Vm.Machine.GrowProc` | proc.c:113-128 | After a call exactly the pages below the rounded-up size are mapped, except after a shrink to exactly 0 of a process with pages: then the call fails with the pages gone; the condition is stated both ways; the panic is exactly fewer free frames than missing pages and tables. |
| `Vm.Machine.SetupKvm` | vm.c:103-109 | A new root table with nothing mapped below and the shared kernel entry. |
| `Vm.Machine.CopyUvm` | vm.c:402-429 | The child has equal bytes and flags at every page below the size, on frames disjoint from the parent's, taken from the free list, and every user access through it does what it does through the parent; neither panic about the parent's entries nor remap can fire; it fails exactly if fewer frames were free than a root, the pages and their tables need. |
| `Vm.Machine.FreeVm` | vm.c:339-384 | Returns to the free list exactly the frames of the address space, each once; no other frame is touched. |
| `Vm.Machine.FreeTable` | vm.c:339-384 | Frees exactly the frames under one table entry by entry; a table is read only while it still has the contents it had before freevm. |
| `Vm.Machine.CopyThenFree` | vm.c:402-429 | copyuvm followed by freevm of the copy restores the set of free frames and leaves the parent's frames as they were; the copy fails exactly if fewer frames were free than it needs. |
| `FrameCount.PaidThen` | vm.c:161-201 | Two steps that each take exactly the frames of the nodes they add take together exactly those of both. |
| `FrameCount.PathsFail` | vm.c:291-304 | A page that cannot be had in the middle of a range means that the whole range could not be had from the start. |
| `ProcTable.Table.AllocProc` | proc.c:37-55 | The scan takes the first UNUSED slot and gives it the pid, or there is none. |
| `ProcTable.Table.Wakeup1` | proc.c:415-422 | Makes exactly the processes sleeping on the channel RUNNABLE with all other fields kept; afterwards none sleeps on it, and every other slot is unchanged. |
| `ProcTable.Table.Exit` | proc.c:181-222 | The loop with its nested wakeups equals one simultaneous change of every slot: the parent asleep in wait woken, children moved to init, init woken exactly if one of them is a zombie, the caller a zombie, nothing else. |
| `ProcTable.Table.Wait` | proc.c:228-266 | Reaps the first zombie child, whose slot is then UNUSED with pid 0, no parent and not killed; with none it returns if there is no child or the caller is killed, and sleeps on its own entry otherwise. |
| `ProcTable.Table.Kill` | proc.c:437-454 | Marks the first slot with the pid killed and makes it RUNNABLE exactly if it sleeps; nothing else changes. |
| `ProcTable.Table.Pick` | proc.c:277-314 | The scan finds the next RUNNABLE slot and makes it RUNNING. |
| `Lifecycle.StepKeepsInv` | proc.c:37-350 | Every step of every CPU (scheduling, fork's three unlocked steps, exit, wait, sleep, wakeup, kill) keeps the invariant. |
| `Lifecycle.InitInv` | proc.c:84-108 | The table after userinit satisfies the invariant. |
| `Lifecycle.RunKeepsInv` | proc.c:277-350 | The invariant holds after every run. |
| `Lifecycle.Safety` | proc.c:135-314 | In every run parents are alive, a process asleep in wait has no zombie child, and a RUNNING process is current on exactly one CPU, and conversely. |
| `Lifecycle.PidsUnique` | proc.c:52-55 | Live processes have different serial numbers; their pids, signed 32-bit words, are equal exactly if the serials are congruent modulo 2^32, so pids are unique while fewer than 2^32 were allocated, and positive while fewer than 2^31 were. |
| `Lifecycle.ZombiesReapedOnce` | proc.c:181-266 | A process that exited is a zombie or was reaped, never both, and no process is reaped twice. |
| `Lifecycle.WakeupExact` | proc.c:415-431 | A wakeup makes exactly the processes asleep on the channel RUNNABLE and changes nothing else in the system. |
| `Lifecycle.SleepStep` | proc.c:377-431 | A step leaves a process asleep on a channel exactly if it just went to sleep there, or was asleep there and the step neither wakes that channel nor kills the process. |
| `Lifecycle.SleepsUntilWoken` | proc.c:377-431 | In every run on every number of CPUs a process is asleep on a channel exactly if it went to sleep there and no wakeup of that channel and no kill of it came after: no wakeup is lost and none is spurious. |
| `Lifecycle.KilledUntilReaped` | proc.c:437-454 | In every run a slot is marked killed exactly if a kill hit it after it was last reaped. |
| `Lifecycle.BornKilled` | proc.c:437-454 | A run in which kill(0) hits a slot without a process, and the process that fork then puts there starts out killed. |
| `Lifecycle.FreeSlotPid` | proc.c:247 | A slot without a process has pid 0 or the pid that a failed fork left; a reaped pid is gone. |
| `Lifecycle.SchedulerGoesOn` | proc.c:277-314 | A scheduler that need not wait for the lock can take it or give it up, and with the lock can pick any RUNNABLE process. |
| `Lifecycle.ResumedGoesOn` | proc.c:318-350 | A process that comes back from a switch can go on: out of the switch, or with another round of wait. |
| `Lifecycle.ProcessGoesOn` | proc.c:135-454 | With the lock free a running process can sleep, yield, wake, kill, wait, exit unless it is init, and fork, whose steps can go on or fail. |
| `PipeRing.FullEmpty` | pipe.c:79-121 | The tests on wrapped 32-bit counters are the tests on the numbers of bytes ever written and read. |
| `PipeRing.PutOk` | pipe.c:93 | Storing a byte in a pipe that is not full keeps the ring equal to the unread bytes. |
| `PipeRing.TakeOk` | pipe.c:113-117 | The byte taken out is the oldest unread one. |
| `PipeRing.Buffer.constructor` | pipe.c:23-57 | A new pipe is empty with both ends open. |
| `PipeRing.Buffer.Fill` | pipe.c:79-98 | The store loop appends exactly addr[i..j] and stops only at the end or with the pipe full. |
| `PipeRing.Buffer.Drain` | pipe.c:101-121 | The copy loop delivers the next bytes in order, n of them or all there are. |
| `PipeProtocol.InitInv` | pipe.c:23-57 | A new pipe with nobody inside satisfies the invariant. |
| `PipeProtocol.StepKeepsInv` | pipe.c:60-121 | Every step of every reader, writer and closer, with sleep taken apart into its lock operations, keeps the invariant, except a killed writer's exit that abandons a reader. |
| `PipeProtocol.KeepsIffNotAbandons` | pipe.c:85-92 | A step keeps the invariant if and only if it is not the exit of a killed writer with unannounced bytes while a reader sleeps. |
| `PipeProtocol.AbandonBreaks` | pipe.c:86-89 | After that exit the lock is free and a reader sleeps on a full pipe. |
| `PipeProtocol.LostWakeup` | pipe.c:79-98 | A concrete run from a new pipe that ends with the lock free, the pipe full and the reader asleep. |
| `PipeProtocol.StoresFill` | pipe.c:84-94 | The writer's one-byte steps, taken n times with room for n bytes, do to the pipe exactly what the store loop does. |
| `PipeProtocol.NoLostWakeup` | proc.c:377-431 | The invariant holds after every run without kill. |
| `PipeProtocol.InvIffNoneAbandoned` | pipe.c:79-98 | In every run, with kills anywhere, the invariant holds before and after every step if and only if no killed writer leaves a sleeping reader that it owes a wakeup. |
| `PipeProtocol.SleepersHaveReason` | pipe.c:79-121 | With the lock free a sleeping reader means empty and write end open, a sleeping writer full and read end open; bytes read are a prefix of bytes written, at most 512 behind. |
| `PipeProtocol.Exclusion` | pipe.c:60-75 | At most one process holds each lock; the pipe is freed exactly when both ends are closed and the last closer has left, and then no process is inside or can enter. |
| `PipeProtocol.KillExact` | proc.c:437-454 | A kill marks its process and wakes it exactly if it sleeps; nothing else changes. |
| `PipeProtocol.KilledAsleepIff` | pipe.c:106-112 | A step puts a killed process to sleep exactly if it is the last step of a sleep that it had begun before the kill. |
| `PipeProtocol.KilledSleeps` | pipe.c:106-112 | A run in which the kill comes between the test of killed and the sleep: the reader sleeps although it is killed. |
| `PipeProtocol.NeverStuck` | pipe.c:60-121 | A process inside a call that is not asleep always has a step: the holder of the process-table lock, then the holder of the pipe lock, and with both free everybody. |
| `PipeStream.StartFlow` | pipe.c:23-57 | A new pipe has an empty history. |
| `PipeStream.StepKeepsFlow` | pipe.c:60-121 | Every step, kills and abandoned readers included, keeps the account of which call stored which byte and which bytes the reads gave out. |
| `PipeStream.WritesArrive` | pipe.c:79-98 | In every run the bytes that a call of write put into the stream are, in order, the first bytes it was given: all of them once it returns n, as many as its position while it runs or sleeps, fewer if it failed, and it fails only with the read end closed or its process killed. |
| `PipeStream.ReadsDeliver` | pipe.c:101-121 | In every run what the reads returned, one after the other, and the read under way has copied is exactly what was taken out of the stream, a prefix of what was written; none exceeds its limit; nothing for a positive limit means that the write end is closed; only a killed reader is interrupted. |
| `PipeStream.ShortReadDrains` | pipe.c:113-120 | A read about to return less than it was asked for has left the pipe empty. |
| `SleepLock.StepKeepsInv` | sleeplock.c:23-41 | Every step of acquiresleep and releasesleep, and kill, keeps the invariant. |
| `SleepLock.Safety` | sleeplock.c:23-41 | In every run, kills included, a process owns the lock exactly if it is the recorded owner, so two never do; with the inner lock free a process sleeps only while another owns the lock; and somebody can always go on. |
| `SleepLock.NoDeadlock` | sleeplock.c:23-41 | Some process can always take a step. |
| `Directory.LinkOk` | sysfile.c:132-178 | One more name for a file in a linked directory keeps link counts, unique names and the tree. |
| `Directory.FreshOk` | fs.c:180-199 | A newly allocated inode that nothing names keeps the invariant. |
| `Directory.DropOk` | fs.c:314-328 | Freeing an inode without links keeps the invariant. |
| `Directory.AttachOk` | sysfile.c:267-276 | Hanging a new directory below its parent, with ".." counted, keeps the invariant. |
| `Directory.RemoveOk` | sysfile.c:215-226 | Unlinking a file's name keeps the invariant. |
| `Directory.DetachOk` | sysfile.c:215-226 | Unlinking an empty directory keeps the invariant and leaves it with link count 0. |
| `Directory.DirRefs` | sysfile.c:116-128 | An empty directory is named by its parent's entry and by nothing else, so its link count is 1. |
| `Directory.ParentStays` | sysfile.c:218-221 | The parent of a directory that is removed keeps a positive link count. |
| `Directory.LinkIffLinked` | sysfile.c:132-178 | One more name for a file keeps link counting if and only if the directory that gets it is still linked. |
| `Directory.NewFileIffLinked` | sysfile.c:239-281 | Creating a file or device keeps link counting if and only if the parent directory is still linked. |
| `Directory.NewDirIffLinked` | sysfile.c:267-276 | Creating a directory keeps the tree if and only if the parent directory is still linked: a removed parent gets a link again and has no place in the tree. |
| `Directory.MkfsTreeOk` | mkfs.c:117-156 | The tree that mkfs writes satisfies the invariant if and only if the names, without a leading underscore and cut to 14 characters, are all different and none is a dot name. |
| `Directory.MkfsTwice` | mkfs.c:140-152 | A failing input: the same program given twice, once with the underscore. |
| `Directory.CreateInUnlinkedDirectory` | sysfile.c:239-281 | The smallest failing case: after mkdir d, cd d and rmdir d the tree is in order, and a file or a directory created in d breaks it. |
| `Directory.UnlinkUndoesLink` | sysfile.c:182-236 | Unlinking the name just linked restores the file system. |
| `Directory.DotDotReachesRoot` | fs.c:598-629 | From every linked directory, following ".." stays in linked directories and is at the root after n steps if and only if n is at least the directory's depth. |
| `Directory.NoDirectoryAboveItself` | fs.c:598-629 | No directory but the root comes back to itself along "..". |
| `Directory.Namespace.constructor` | mkfs.c:117-156 | Starts with the directory that mkfs writes for its arguments; valid exactly if their names are good. |
| `Directory.Namespace.DirLookup` | fs.c:498-521 | Finds a used entry with the name, or no used entry has it. |
| `Directory.Namespace.DirLink` | fs.c:525-551 | Fails exactly if the name is in use; otherwise writes the first free slot, or a new one, and changes nothing else. |
| `Directory.Namespace.IsDirEmpty` | sysfile.c:116-128 | True exactly if every entry after "." and ".." is unused. |
| `Directory.Namespace.LinkFile` | sysfile.c:132-178 | Succeeds exactly for a non-directory, an existing parent and an unused name; restores the count on every failure; keeps the invariant exactly if it fails or the parent is still linked. |
| `Directory.Namespace.Unlink` | sysfile.c:182-236 | Succeeds exactly for a name other than the dots whose inode is not a non-empty directory; the link-count panic cannot fire; keeps the invariant, in a removed parent too. |
| `Directory.Namespace.AddDots` | sysfile.c:267-273 | A new directory gets exactly "." and ".." and its parent one more link. |
| `Directory.Namespace.Create` | sysfile.c:239-281 | For an existing name the named inode is returned exactly if both are plain files, and nothing changes; otherwise the new inode is in place, and the invariant holds exactly if the parent is still linked. |
| `Directory.Namespace.LastPut` | fs.c:314-328 | The last reference frees the inode exactly if it has no links. |
| `References.Conserved` | file.c:27-80 | With nothing on loan a file's count is the number of descriptor slots holding it, an inode's the number of open files and current directories using it. |
| `References.ClearFdOk` | sysfile.c:92-102 | Emptying a descriptor turns its reference into one on loan. |
| `References.SetFdOk` | sysfile.c:40-51 | Filling a descriptor takes over one reference. |
| `References.RetireOk` | file.c:57-80 | The last close leaves the file's own inode reference on loan. |
| `References.BecomeOk` | sysfile.c:325-326 | A file that becomes an open inode takes over the inode reference. |
| `References.CountInodeOk` | fs.c:259-265 | Raising or lowering a used inode's count moves one reference to or from the loans. |
| `References.RecycleOk` | fs.c:243-251 | Recycling an unused slot keeps every inode in the cache at most once. |
| `References.ClearCwdOk` | proc.c:199-202 | Giving up a current directory puts its reference on loan. |
| `References.SetCwdOk` | proc.c:161 | A new current directory takes over one reference. |
| `PathNames.SkipElem` | fs.c:569-591 | Splits off the first path element, cut to 14 characters, leaving the elements behind it; none exactly for a path without elements. |
| `PathNames.ElementsOfJoin` | fs.c:556-591 | However a list of names is written, with any non-empty runs of slashes between them and any runs around them, the elements are these names, each cut to its first 14 characters. |
| `PathNames.ElementsIff` | fs.c:556-591 | A path has certain elements if and only if it is such a writing of names that, cut, are these. |
| `PathNames.WalkIff` | fs.c:598-629 | A list of names leads from one inode to another if and only if there is a chain of inodes in which each but the last is a directory that has the next one under the next name. |
| `PathNames.ParentIsFront` | fs.c:613-628 | nameiparent finds exactly what all names but the last lead to, if that is a directory; for no names there is no parent. |
| `PathNames.ParentThenLookup` | fs.c:598-642 | namei is nameiparent followed by one lookup of the last name. |
| `SysFile.PathStarts` | fs.c:602-605 | A path that begins with a slash starts at the root inode for every process; any other at the current directory of the process. |
| `SysFile.TargetIs` | sysfile.c:239-281 | create gives the file that namei finds, or a new inode next to an existing parent if it finds nothing, and fails otherwise. |
| `SysFile.LinkableIs` | sysfile.c:132-178 | link succeeds exactly if the old path leads to something that is no directory and the new one to nothing, next to an existing parent on the same device. |
| `SysFile.UnlinkableIs` | sysfile.c:182-236 | unlink succeeds exactly if the path leads somewhere by a last name other than the dots, and not to a directory with entries. |
| `SysFile.Kernel.constructor` | file.c:20-23 | Empty tables conserve references. |
| `SysFile.Kernel.FdAlloc` | sysfile.c:40-51 | Fills the first empty slot; fails exactly if there is none, and then nothing changes. |
| `SysFile.Kernel.FileAlloc` | file.c:27-41 | Takes an unused file with one reference on loan; fails exactly if all are in use. |
| `SysFile.Kernel.FileDup` | file.c:45-53 | One more reference, on loan. |
| `SysFile.Kernel.FileClose` | file.c:57-80 | Consumes one reference; with the last one the file's inode reference goes too, and no other file changes. |
| `SysFile.Kernel.Iget` | fs.c:224-254 | One more reference to the slot of the inode, recycling an unused slot only if the inode is not cached; panics exactly if every slot is in use by another inode; slots in use keep their inode. |
| `InodeCache.SummaryMore` | fs.c:224-254 | One reference more changes which inodes are in use and how many slots are free exactly as holding that inode does. |
| `InodeCache.BlockedSlots` | fs.c:233-251 | An inode cannot be fetched exactly if it is not in use and no slot is free. |
| `SysFile.Kernel.Idup` | fs.c:259-265 | One more reference. |
| `SysFile.Kernel.Iput` | fs.c:314-328 | One reference less. |
| `SysFile.Kernel.Namex` | fs.c:598-629 | A path that begins with a slash leads to what the walk from inode 1 of device 1 finds, whatever the current directory, any other to what the walk from the current directory finds; agrees with the path walk on the directory contents; adds exactly one reference, on its result, or none if there is no result; every slot in use keeps its inode; it panics exactly if the walk, on the cache before the call, comes to an inode that is not in use while no slot but the one it holds is free. |
| `SysFile.SlotsSuffice` | fs.c:224-254 | With two free inode slots no path lookup, create or unlink panics, and with three no link. |
| `SysFile.Kernel.Dup` | sysfile.c:54-65 | Succeeds exactly with a valid descriptor and a free slot, fills that slot, and conserves references. |
| `SysFile.Kernel.Close` | sysfile.c:92-102 | Succeeds exactly for a valid descriptor, empties that slot only, and conserves references. |
| `SysFile.Kernel.PipeAlloc` | pipe.c:23-57 | Two files on loan if and only if two are unused; otherwise none is on loan. |
| `SysFile.Kernel.Pipe` | sysfile.c:420-441 | Two new descriptors if and only if two files and two descriptors are unused; otherwise the descriptor table is unchanged; conserves references on every path. |
| `SysFile.Kernel.Create` | sysfile.c:239-281 | Gives the existing file or the new inode with one reference, and none on failure; its panic has the same kind of exact condition on the cache before the call. |
| `SysFile.Kernel.Open` | sysfile.c:284-331 | Unless it panics, on an exact condition on the cache before the call, opens exactly if the path leads to an inode, a directory only for reading, and a file and a descriptor are unused; the new descriptor's file is on that inode; conserves references on every path. |
| `SysFile.Kernel.Make` | sysfile.c:334-367 | mkdir and mknod succeed exactly if the name is free and its parent exists; no reference is left; they panic exactly if create does. |
| `SysFile.Kernel.Chdir` | sysfile.c:370-391 | Succeeds exactly if the path leads to a directory, which is then the current one; for "/" that is the root inode; conserves references; it panics exactly if the lookup does. |
| `SysFile.Kernel.Link` | sysfile.c:132-178 | Succeeds exactly for a non-directory, an existing parent on the same device and a free name; lets go of both inodes on every path; it panics exactly if one of its three fetches finds no slot, the earlier inodes being held. |
| `SysFile.Kernel.Unlink` | sysfile.c:182-236 | Succeeds exactly for an existing name other than the dots that is not a directory with entries; lets go of both inodes on every path; it panics exactly if the lookup does or the named inode finds no slot. |
| `SysFile.Kernel.Fork` | proc.c:158-161 | The child has the parent's descriptors and current directory, and references are conserved. |
| `SysFile.Kernel.Exit` | proc.c:192-202 | The process holds nothing any more, no other process changes, and references are conserved. |
| `Umalloc.FreedOk` | umalloc.c:25-44 | Inserting a block and merging it with what touches it keeps the list sorted and circular, leaves no two touching blocks, and keeps live and free blocks a partition of the units. |
| `Umalloc.StopsAtPlace` | umalloc.c:30-32 | The loop's test holds at exactly one node: the one the block belongs behind. |
| `Umalloc.FreedUntouched` | umalloc.c:25-44 | free changes no header or data unit of a block that stays allocated. |
| `Umalloc.TakenOk` | umalloc.c:76-77 | Taking a whole node keeps the heap invariant. |
| `Umalloc.CarvedOk` | umalloc.c:79-82 | Carving the tail of a node keeps the heap invariant. |
| `Umalloc.ExtendedOk` | umalloc.c:47-61 | Memory from sbrk enters the heap as one live block. |
| `Umalloc.ScannedAll` | umalloc.c:74-89 | A scan back at freep has seen only blocks that are too small, and cannot have grown the heap before; so malloc terminates. |
| `Umalloc.RoomIndex` | umalloc.c:86-88 | After morecore a block with room lies ahead of the scan. |
| `Umalloc.Allocator.constructor` | umalloc.c:21-22 | Before the first call nothing is allocated. |
| `Umalloc.Allocator.Store` | umalloc.c:64-90 | The user may write anything into an allocated block past its header without breaking the heap. |
| `Umalloc.Allocator.Free` | umalloc.c:25-44 | The block is free again, all others stay allocated and untouched, and the invariant holds. |
| `Umalloc.Allocator.FindSlot` | umalloc.c:29-32 | The search terminates at the node the block belongs behind. |
| `Umalloc.Allocator.MoreCore` | umalloc.c:47-61 | Adds exactly the units from sbrk to the free blocks, at least 4096, with a block of that size next to freep; nothing changes if sbrk fails. |
| `Umalloc.Allocator.Allocate` | umalloc.c:76-85 | Takes exactly nunits from the node; the result is a new live block. |
| `Umalloc.Allocator.Search` | umalloc.c:74-89 | The circular search terminates and finds room, growing the heap at most once. |
| `Umalloc.Allocator.Malloc` | umalloc.c:64-90 | A new block disjoint from all others with room for nbytes; fails only if sbrk fails and no free block is large enough; allocated blocks are untouched. |
| `Counters.SlotOf` | ktrace.c:44 | A ring whose size divides 2^32 uses the same slot for the wrapped and the unbounded counter. |
| `Counters.Distance` | ktrace.c:70 | The wrapped difference of two counters less than 2^32 apart is their true distance. |
| `TraceRing.FatesAddUp` | ktrace.c:80-105 | Delivered, overwritten and lost positions add up to all positions passed. |
| `TraceRing.Accounting` | ktrace.c:70-73 | Delivered plus overwritten plus lost events equal the reader's counter modulo 2^32. |
| `TraceRing.GapsAreLosses` | ktrace.c:44-73 | Between two events received one after the other exactly as many were missed as the gap in their sequence numbers says, modulo 2^32. |
| `TraceRing.PositionsOk` | ktrace.c:80-105 | The delivered positions ascend and are exactly those whose fate is delivered. |
| `TraceRing.Behind` | ktrace.c:70-73 | The writer's test fires exactly if the reader was a full ring behind, and then moves it by exactly one event. |
| `TraceRing.RecordedOk` | ktrace.c:44-67 | Recording keeps the last 128 events of the history in the ring. |
| `TraceRing.Ring.constructor` | ktrace.c:21-27 | An empty history. |
| `TraceRing.Ring.TraceEvent` | ktrace.c:31-77 | Appends exactly one event with all its fields; overwrites the oldest unread one exactly if the ring was full of unread events. |
| `TraceRing.Ring.Take` | ktrace.c:88-103 | Gives the oldest unread event; it is delivered, or lost if copying fails. |
| `TraceRing.Ring.TraceRead` | ktrace.c:80-105 | Returns consecutive events from the oldest unread on, as many as asked for or there are, or up to the first failing copy, with the source's return value. |
| `Grep.Match` | grep.c:73-82 | True if and only if some substring, a prefix with '^', is in the language of the pattern. |
| `Grep.MatchHere` | grep.c:85-96 | True if and only if some prefix of the text is in the language, all of it with a final '$'. |
| `Grep.MatchStar` | grep.c:99-106 | True if and only if the text begins with a run of the starred character followed by a match of the rest. |
| `Grep.ConsLanguage` | grep.c:85-96 | A piece of the first item followed by a word of the rest is a word of the whole. |
| `Grep.UnconsLanguage` | grep.c:85-96 | Every word of the whole splits that way. |
| `Grep.OneHere` | grep.c:93-94 | A single item matches exactly one accepted character in front of a match of the rest. |
| `Grep.StarStops` | grep.c:99-106 | A starred piece ends no later than the first character it rejects. |
| `Grep.CompileSpell` | grep.c:85-106 | Every pattern that can be written, with . for any character, * behind what is repeated and $ at the end, is what its writing means. |
| `Grep.CompileIff` | grep.c:85-106 | An expression means a pattern if and only if it is the writing of it: no expression has two meanings and every expression has one. |
| `Shell.ItemsRoundTrip` | sh.c:434-446 | The words and redirections of a simple command, in any order, are collected one by one; the tenth argument is a panic. |
| `Shell.SimpleMeans` | sh.c:419-449 | Collecting them gives the command with all its words as arguments, in order, inside its redirections, wherever those stood. |
| `Shell.ExecRoundTrip` | sh.c:403-449 | A simple command or block with its redirections, by <, > or >>, parses to its meaning. |
| `Shell.PipeRoundTrip` | sh.c:365-375 | A well-formed pipeline parses to its meaning. |
| `Shell.JobRoundTrip` | sh.c:348-362 | A well-formed background job parses to its meaning. |
| `Shell.LineRoundTrip` | sh.c:348-362 | A well-formed list parses to its meaning. |
| `Shell.LineWritten` | sh.c:348-362 | Whatever the parser accepts is the writing of some well-formed command line with that meaning. |
| `Shell.ParsesIffFormed` | sh.c:331-449 | The parser accepts a token list with a tree if and only if the list is the writing of a well-formed command line that means this tree and in which no simple command has MAXARGS arguments. |
| `Shell.TooManyArgs` | sh.c:434-446 | A well-formed command line is accepted with its meaning, or refused for too many arguments, exactly then. |
| `Shell.RoundTrip` | sh.c:331-449 | For every command tree, parsing the printed tokens gives the tree back if and only if every simple command has fewer than MAXARGS arguments; otherwise the parser reports too many. |
| `ShellParser.GetToken` | sh.c:269-311 | Takes the next token of the text with its exact extent, and leaves the cursor at the token after it. |
| `ShellParser.Peek` | sh.c:314-323 | Skips blanks and says whether the next token begins with one of the symbols. |
| `ShellParser.ParseRedirections` | sh.c:378-400 | The loop agrees with the grammar on tokens, including its panic. |
| `ShellParser.ParseCommandLine` | sh.c:348-362 | Terminates on every input and agrees with the grammar, panics included. |
| `ShellParser.ParsePipeline` | sh.c:365-375 | Terminates on every input and agrees with the grammar. |
| `ShellParser.ParseBlock` | sh.c:403-416 | Terminates on every input and agrees with the grammar. |
| `ShellParser.ParseCommand` | sh.c:419-449 | The argument loop agrees with the grammar, with arguments added to the command inside its redirections. |
| `ShellParser.ReadAddArg` | sh.c:434-446 | Adding an argument to the node inside the redirections is adding its word to the command. |
| `ShellParser.NulTerminate` | sh.c:453-496 | Writes a NUL at exactly the ends of all words of the tree. |
| `ShellParser.ReadsBack` | sh.c:453-496 | With all terminators in one buffer, every word reads back as exactly its token. |
| `ShellParser.ParseCmd` | sh.c:331-345 | On the buffer: the C strings of the resulting tree are exactly the command that the grammar assigns to the line, or the grammar's panic. |
| `ShellParser.LexRender` | sh.c:265-311 | Every text that writes a token list with any runs of space, tab, carriage return, newline and vertical tab before, between and behind the tokens, none needed next to a symbol, lexes to that list. |
| `ShellParser.LexWritten` | sh.c:265-311 | Every text is such a writing of the tokens that come out of it. |
| `ShellParser.LexIff` | sh.c:265-311 | A text lexes to a token list if and only if it is such a writing of it. |
| `ShellParser.TrailingGap` | sh.c:136-171 | Blanks at the end of a line change no token: in particular not the newline that a line read from the terminal ends with. |
| `ShellParser.TextParses` | sh.c:331-449 | A line parses to a tree if and only if it is some well-formed command line that means the tree, with few enough arguments, written with any gaps. |
| `ShellParser.TextRoundTrip` | sh.c:331-449 | For every choice of gaps, printing a command as text and parsing it gives the command back if and only if no simple command has too many arguments. |

## Left out

- Device I/O (ide.c, uart.c, console.c, keyboard, video), interrupts, boot code and assembly: the disk is memide.c's array of blocks, swtch is a scheduling step.
- exec, ELF loading, system-call dispatch and argument fetching, trap handling: glue over raw memory and registers.
- spinlock.c beyond mutual exclusion: acquire is an atomic step that waits for the lock to be free; pushcli and popcli and the memory model are not modelled.
- Races inside iget, iput and ialloc: file-system calls are atomic here; concurrency is in GroupCommit, PipeProtocol, SleepLock and Lifecycle.
- Device special files: readi and writei on T_DEV inodes go to a driver table and are not modelled.
- The on-disk encoding of inodes, the superblock and directory entries: FileSystem keeps disk inodes as records, Directory keeps entries as records with names already cut to 14 characters.
- ialloc's scan is FileSystem.FileSystem.Ialloc; in Directory and SysFile the number it finds is a parameter.
- uva2ka, copyout, inituvm, loaduvm and clearpteu: single-page helpers on top of walkpgdir; whether a copy to user memory fails is a parameter of TraceRead.
- grep's line buffer (grep.c:11-36), the shell's runcmd, and the other user programs.
- Who may close a pipe: PipeProtocol lets an end be closed once, when no process is inside a call through it; the reference counts of SysFile are why that is so, and the two models are not joined.
- Vm.Machine.MapPages: maps one page per call, as all its callers do; the loop over several pages is not modelled.
- Vm.Machine.FreeTable: one recursive method stands for the four nested loops of freevm, one level each.
- Vm.Machine.Kalloc: the trace event that kalloc and kfree record is not modelled.
- Umalloc.Allocator.Malloc: sizes are unbounded; a request near 2^32 units, more than physical memory holds, is not modelled.
- Umalloc.Allocator.MoreCore: whether sbrk succeeds and where it puts the memory is a parameter; the memory must be new and above the static header.
- FileSystem.FileSystem.FileWrite: the loop's separate transactions per chunk are in GroupCommit, not here.
- Mkfs.Mkfs.Build: the program reads its files and appends them block by block; here a file's bytes are appended at once.
- Lifecycle.StepKeepsInv: kill acts on any slot, a superset of what the pid search does; the search itself is ProcTable.Table.Kill.
- SysFile.Kernel.Iput: freeing the blocks of an inode without links moves no reference and is FileSystem.FileSystem.FreeInode and Directory.Namespace.LastPut.
- SysFile.Kernel.Namex: directory contents are a parameter that stays the same during a call.
- SysFile.Kernel.Open: the readable and writable marks of an open file and its offset are not modelled.
- SysFile.Kernel.Fork: the failing path of fork allocates no reference and is Lifecycle's ForkFail step.
- Directory.Namespace.DirLink: a directory that cannot grow any more is excluded; the program panics there.
- PipeProtocol.NoLostWakeup: runs without kill; PipeProtocol.InvIffNoneAbandoned covers the others.
- GroupCommit.GroupCommitSafety: the budget per operation is a hypothesis; which operations keep it is not modelled except for filewrite's chunks.
- BufferCache.BufferCache.Commit: no other process takes or gives up a buffer while commit runs; buffers that others hold throughout count against the spare one.
- TraceRing.Ring.TraceEvent: the caller's process name and the clock are parameters.
