# xv6, modelled and proved

A Dafny model of the hard parts of an xv6 RISC-V kernel with lazy `sbrk` and a heat-aware scheduler, of its
`mkfs`, and of two of its user programs. Code that updates state in place is modelled by classes and by methods
with loops; each is proved against a specification on values, and the main theorems range over every run.

The files form six groups.

- **Storage.** `LogDisk`, `Log` and `LogSystem` are the redo log of `kernel/log.c`: `Log` runs one commit or recovery
  with a power failure after any disk write, `LogSystem` is the state machine of all operations, buffers, commits and
  crashes together, and `LogHistory` tells from the steps alone what the disk must hold. `BufferCache` is the LRU
  cache of `kernel/bio.c`, and `CacheSteps` shows that it takes the cache steps of `LogSystem`. `FsBlock`, `FsState`,
  `FsMap`, `FsWrite`, `FsTrunc`, `FsLog` and `FileSystem` are the block allocator, `bmap`, `itrunc`, `readi`, `writei`
  and `filewrite`. `MkfsState`, `MkfsFiles` and `Mkfs` build the initial image, `Directory` looks names up in it, and
  `FsRun` puts the two together: any sequence of operations on an image made by `mkfs` acts on a table of byte
  sequences.
- **Memory.** `Pages` is the page allocator, `PageTable` the Sv39 radix tree and its translations, `Teardown` the
  recursion of `freewalk`, `VmState` the one invariant over all of physical memory, `Vm` the functions of
  `kernel/vm.c` and `kernel/kalloc.c`. `Lazy` states demand-zero paging against the eager allocator it replaced,
  `Words` tells from a program's own stores what its loads return, and `Process` carries it out on the page tables.
  `VmImages` and `VmRun` are whole runs over many address spaces.
- **Processes.** `Channels` is the interleaving of `sleep` and `wakeup` for any lock and channel, `SleepWakeup` that
  of nested sleep-locks; `ChannelCalls` and `SleepCalls` are about whole calls. `ProcTree` is the process table under
  `fork`, `exit` and `wait`, `Heat` the decision of the heat scheduler, `HeatRun` the scheduler at work, and `Pipe`
  the ring buffer.
- **Virtio.** `VirtioState`, `VirtioLog` and `Virtio` are driver and device as interleaved steps over shared rings,
  and the history of what the device did.
- **malloc.** `Malloc` is the circular free list of `user/umalloc.c`.
- **Shell.** `Shell` is the parser as functions, `ShellParser` the recursive descent with its cursor and
  `nulterminate`. `ShellTokens` shows that it sees nothing but the tokens, `ShellSyntax` which texts spell which
  tokens, and `ShellGrammar` which tokens write which command: the shell accepts just those texts and reads just those
  commands.

## What the code is found to do

- `log_write` panics when 29 blocks are logged, since `mkfs` counts the header block in `nlog`. No run of operations
  of at most nine blocks each reaches that; operations of ten blocks, the number that `begin_op` reserves, can.
- `mkfs` rounds the size of the root directory up to the next block even when it is a whole number of blocks. The
  image then has a hole, and only then, for example with 62 files; without it every image satisfies the file-system
  invariant.
- `malloc` passes the number of bytes to `sbrk` as an `int`. The memory obtained is the memory recorded exactly for
  requests of at most 0x7FFFFFE0 bytes.
- A lazy page that was never touched makes `fork` panic in `uvmcopy`, unless memory runs out first: with three free
  pages for each page to copy and one for the root, a hole is exactly what decides. A fault on a page that is mapped
  but closed to the access does not end: `lazy_alloc` reports success and the fault repeats, or `mappages` panics.
- A process whose number is divisible by 20 or by 25 has no tick at which it is let run at every heat; any other
  process has one in any hundred ticks.
- The branch of `usertrap` that adds 5 to the heat is never taken.
- When `copyin` fails midway, `writei` leaves that one block changed in the buffer cache and, unless it was logged
  already, not in the log; every other block that the file system changes is logged.

## Model

| member | source | states |
|---|---|---|
| `Malloc.Heap.FindGap` | user/umalloc.c:24-31 | the search loop of free ends, on the free block after which the returned block belongs in address order, also at the wrap-around of the circular list |
| `Malloc.LinkConsistent` | user/umalloc.c:32-43 | linking a returned block with up to two merges gives a list that is circular, address-ordered and of disjoint blocks no two of which touch, and keeps every unit of the arena in exactly one live or free block |
| `Malloc.MergePartition` | user/umalloc.c:32-41 | merging two touching free blocks frees and loses no unit |
| `Malloc.Heap.Free` | user/umalloc.c:24-44 | exactly the returned block leaves the live ones, the arena is unchanged, and some free block is now at least as large as it was |
| `Malloc.CoreRequestExact` | user/umalloc.c:46-61 | the memory asked of the kernel is the memory recorded in the header if and only if the request is at most 0x7FFFFFE0 bytes |
| `Malloc.CoreRequestTruncated` | user/umalloc.c:46-61 | the counterexample: the largest request obtains one unit and records 0x10000001 |
| `Malloc.GrowConsistent` | user/umalloc.c:52-60 | memory from sbrk enters as one more block that overlaps nothing, wherever the break was |
| `Malloc.Heap.Morecore` | user/umalloc.c:46-61 | the arena grows by just the requested region, which is on the free list afterwards, perhaps merged into the block at freep; nothing changes if sbrk fails |
| `Malloc.Heap.SbrkElsewhere` | user/umalloc.c:52-60 | memory that another user of sbrk obtains leaves a gap and disturbs neither list nor live blocks |
| `Malloc.Heap.Search` | user/umalloc.c:74-89 | one trip round the list finds the first large enough block after freep or shows that there is none |
| `Malloc.Heap.Take` | user/umalloc.c:75-84 | an exact fit is unlinked whole, a larger block gives up its tail; units are conserved |
| `Malloc.Heap.Alloc` | user/umalloc.c:63-90 | NULL exactly when no free block fits and the kernel refuses; otherwise a block of Units(nbytes) that overlaps no live block, from new memory only if no free block fitted; it terminates |
| `Malloc.Heap.StorePayload` | user/umalloc.c:63-90 | stores by the program into its own block cannot disturb the list |
| `LogDisk.HeaderRoundTrip` | kernel/log.c:86-114 | what write_head stores, read_head reads |
| `LogDisk.SlotWrite` | kernel/log.c:178-191 | filling a log slot changes nothing that a recovery would find while the header is empty |
| `LogDisk.HeaderWrite` | kernel/log.c:102-114 | the single header write turns what a recovery finds from the old contents into the whole transaction applied |
| `LogDisk.InstallWrite` | kernel/log.c:68-83 | installing a committed block changes nothing that a recovery would not |
| `LogDisk.ClearWrite` | kernel/log.c:193-203 | clearing the header after a complete installation changes nothing |
| `Log.Storage.LogWrite` | kernel/log.c:214-235 | panics exactly when one block less than LOGSIZE is logged; otherwise a block already in the list is absorbed, and any other appended and to be pinned |
| `Log.Storage.WriteLog` | kernel/log.c:178-191 | for a power failure after any write, the contents are those before the transaction; if it completes every slot holds its block |
| `Log.Storage.WriteHead` | kernel/log.c:102-114 | the list in memory reaches the header block, or the disk is unchanged |
| `Log.Storage.InstallTrans` | kernel/log.c:68-83 | for a power failure after any write, the recovered contents are unchanged; if it completes they are in place |
| `Log.Storage.Commit` | kernel/log.c:193-203 | for a power failure after any number of writes a recovery finds all or nothing of the transaction, all exactly when the header write took effect |
| `Log.Storage.RecoverFromLog` | kernel/log.c:116-123 | a recovery cut short anywhere leaves the same contents to recover; a complete one leaves them in place and the log empty |
| `Log.Storage.BootUntilRecovered` | kernel/log.c:54-65 | any number of boots cut short anywhere and then a complete one leave exactly the same contents outside the log |
| `Log.Storage.CommitThroughCrashes` | kernel/log.c:116-203 | crash atomicity end to end: a commit cut short after any write, then any number of boots cut short, then one that completes |
| `LogSystem.InvStep` | kernel/log.c:126-235 | every step of operations, buffers, commits, recoveries and power failures keeps the log, cache and reservation invariants |
| `LogSystem.CrashAtomicity` | kernel/log.c:68-123 | in every state of every run a recovery brings back exactly the contents of the last commit |
| `LogSystem.CommitIsHeaderWrite` | kernel/log.c:146-203 | the header write of a commit, made with no operation outstanding and no buffer half changed, makes the contents last logged the committed ones, and no other step changes them |
| `LogHistory.ContentsFollowSteps` | kernel/log.c:126-235 | in every state of every run, the contents of a block are the last store to it that a log_write followed since the last crash, or else what was committed then, and the committed ones are those at the last commit; all told from the list of steps |
| `LogHistory.Durability` | kernel/log.c:146-203 | in any run, when the log is empty again after a log_write with no crash between, a commit lies between and a recovery would bring back every block as last logged |
| `LogHistory.IdleIsDurable` | kernel/log.c:146-203 | whenever no operation and no commit is in progress, a recovery would bring back every block as last logged |
| `LogHistory.Completes` | kernel/log.c:68-203 | from every state of every run the commit or recovery under way can be brought to its end by its own writes and by readers letting go of blocks |
| `LogHistory.WritesReachDisk` | kernel/log.c:126-235 | from every idle state of every run an operation can store any block that nobody has locked, end and commit, after which a recovery brings that block back |
| `LogSystem.WriteAhead` | kernel/log.c:68-83 | no home block is written before the header on the disk names it and its log slot holds the new contents |
| `LogSystem.LoggedStaysCached` | kernel/log.c:214-235 | a logged block stays in the cache, pinned, until it is installed |
| `LogSystem.Admission` | kernel/log.c:126-142 | how much the three operations that can be outstanding at once may still log |
| `LogSystem.NoLogOverflow` | kernel/log.c:126-235 | with at most nine blocks per operation no log_write in any run meets a full log |
| `LogSystem.TenBlocksOverflow` | kernel/log.c:214-235 | the counterexample: a run from power-on in which three operations of ten blocks make log_write panic |
| `LogSystem.ReadsLatest` | kernel/bio.c:92-103 | in every run bread returns the contents last logged or installed |
| `LogHistory.ReadsLastLogged` | kernel/bio.c:92-103 | in every run bread returns the block as last stored and logged, told from the list of steps |
| `BufferCache.RecentFirst` | kernel/bio.c:116-137 | after any sequence of last releases the list is in the order of use: a buffer released later stands before one released earlier |
| `BufferCache.Bcache.constructor` | kernel/bio.c:36-53 | binit leaves every buffer unused and on the doubly linked list |
| `BufferCache.Bcache.Find` | kernel/bio.c:65-73 | the first loop of bget finds the block if it is cached and otherwise shows that it is not |
| `BufferCache.Bcache.FindUnused` | kernel/bio.c:75-88 | the second loop finds the least recently used buffer that nobody references |
| `BufferCache.Bcache.Bget` | kernel/bio.c:58-89 | at most one buffer per block; a miss recycles the least recently released unreferenced buffer, and a panic means that all are referenced |
| `BufferCache.TableLoad` | kernel/bio.c:75-88 | recycling a buffer for an uncached block drops at most the block it held and adds the new one |
| `BufferCache.Bcache.Bread` | kernel/bio.c:92-103 | the buffer holds the cached contents or the disk block, and no other buffer changes; as a cache, a block is referenced once more or loaded, and at most one block that nobody references is dropped |
| `BufferCache.Bcache.Brelse` | kernel/bio.c:116-137 | the last release moves the buffer to the front of the list and changes no other order |
| `BufferCache.UnlinkKeeps` | kernel/bio.c:128-129 | taking a node off keeps both directions of the list well formed and the order of the others |
| `BufferCache.PushKeeps` | kernel/bio.c:130-133 | putting a node at the front keeps both directions of the list well formed |
| `CacheSteps.ReadIsSteps` | kernel/bio.c:92-103 | bread takes the steps that LogSystem gives its cache: at most one recycling of an unreferenced block, then the read |
| `CacheSteps.LogReadIsSteps` | kernel/bio.c:92-103 | reading a block of the log can at most recycle a buffer of the others |
| `CacheSteps.ReleaseIsStep` | kernel/bio.c:116-137 | brelse is the release step of LogSystem |
| `CacheSteps.PinIsStep` | kernel/bio.c:139-144 | bpin in log_write is what the LogWrite step of LogSystem does to the references |
| `CacheSteps.UnpinIsStep` | kernel/bio.c:146-151 | bunpin in install_trans is what the InstallBlock step does to them |
| `CacheSteps.PinnedStays` | kernel/bio.c:58-151 | no bread drops or changes a block that is pinned or in use |
| `FsState.MarkUsed` | kernel/fs.c:65-88 | setting a bit of the bitmap adds just that block to the used ones |
| `FsState.AllocatedOk` | kernel/fs.c:50-88 | a block fresh from balloc is marked, zeroed and part of no file, and no block in use changes |
| `FileSystem.FindFree` | kernel/fs.c:72-87 | the scan of balloc returns the lowest clear bit, or 0 only if every block is used |
| `FileSystem.FileSys.Balloc` | kernel/fs.c:65-88 | the lowest free block, marked and zeroed, or 0 with nothing changed if the disk is full; every block it changes is logged |
| `FileSystem.FileSys.Bfree` | kernel/fs.c:91-105 | panics exactly for a block that is free already; otherwise clears just that bit |
| `FileSystem.FileSys.Ialloc` | kernel/fs.c:198-219 | the lowest free inode, or 0 only if there is none; ownership and all files are kept, and the changed inode is logged |
| `FileSystem.FileSys.FreeInode` | kernel/fs.c:336-362 | the last iput frees the inode and all its blocks; the other files are unchanged, and every block and inode that changes is logged |
| `FileSystem.FileSys.BmapDirect` | kernel/fs.c:388-396 | a direct block is found or allocated; no byte of any file changes |
| `FileSystem.FileSys.IndirectBlock` | kernel/fs.c:401-406 | the indirect block is found or allocated |
| `FileSystem.FileSys.BmapEntry` | kernel/fs.c:407-418 | the entry of the indirect block is found or filled in |
| `FileSystem.FileSys.Bmap` | kernel/fs.c:382-421 | the block of the file, allocated if missing, 0 only if the disk is full, even when the indirect block was allocated first; ownership is kept, no byte of any file changes, and every block that changes is logged |
| `FileSystem.FileSys.FreeDirects` | kernel/fs.c:432-437 | the first loop of itrunc frees each direct block once |
| `FileSystem.FileSys.FreeIndirect` | kernel/fs.c:439-449 | every entry of the indirect block and then the block itself are freed once |
| `FileSystem.FileSys.Itrunc` | kernel/fs.c:425-453 | the file is empty, its inode owns nothing, every other file keeps its bytes; every block and inode that changes is logged |
| `FileSystem.FileSys.ReadBlocks` | kernel/fs.c:482-495 | the loop of readi returns that stretch of the file and allocates nothing |
| `FileSystem.FileSys.Readi` | kernel/fs.c:471-496 | the bytes of the file from off on, clipped to its size; the state of the file system does not change |
| `FsWrite.WroteBlock` | kernel/fs.c:516-528 | one more block written at any offset, across the direct and indirect boundary, extends the bytes written and touches no other file |
| `FileSystem.FileSys.WriteBlocks` | kernel/fs.c:516-528 | the loop of writei writes all that can be read of the source, unless the disk is full; what counts as written falls short of it by less than a block; every block that changes is logged, but for the one in which copyin failed midway |
| `FileSystem.FileSys.Writei` | kernel/fs.c:505-539 | the file becomes the old one overwritten and extended at off, every other file is unchanged, no hole arises and the inode is flushed, on the full-disk and failed-copy paths too; -1 exactly for a bad range; every block that changes is logged, but for the one at off + r after a failed copy, and so is the inode |
| `FileSystem.ReadBack` | kernel/fs.c:471-539 | what was written is read back, and the rest of the file is what it was |
| `FileSystem.GrownFilesOk` | kernel/fs.c:505-539 | growing a file to what was written leaves every block below its size mapped |
| `FileSystem.WriteThenWrite` | kernel/fs.c:505-539 | two writes in a row are one write of the two sources |
| `FsLog.WriteBlockLogs` | kernel/fs.c:516-528 | after a block is written all that changed is logged if and only if all its bytes could be copied, it was logged already or it came out as it was |
| `Directory.Namecmp` | kernel/fs.c:543-547 | zero exactly if the names agree up to their ends and in at most fourteen bytes |
| `Directory.Dirlookup` | kernel/fs.c:551-575 | the inode of the first entry in use with that name and its offset, 0 if there is none; panics exactly for what is no directory or for a last entry cut short; nothing changes |
| `FsRun.Session.Do` | kernel/fs.c:382-539 | each operation has its effect on a table of byte sequences; a write puts all that can be read of its source there, unless the disk is full |
| `FsRun.Session.Run` | kernel/fs.c:65-539 | over every run each step has its effect on the table of files, and after each a bitmap bit is set exactly for metadata and for blocks that exactly one inode slot names |
| `FsWrite.TransactionBound` | kernel/file.c:149-175 | a chunk of filewrite at any offset and length logs at most MAXOPBLOCKS blocks, and at most 7 if the bitmap is one block |
| `FileSystem.FileSys.WriteChunk` | kernel/file.c:158-167 | one transaction is one writei within that bound: refused exactly for a bad range, short only if the source cannot be read or the disk is full; it logs every block and inode that it changes, but for the block of a failed copy |
| `FileSystem.ChunkRange` | kernel/file.c:149-166 | a chunk is refused for its range exactly when the write starts beyond the end of the file or has reached the largest file |
| `FileSystem.FileSys.Filewrite` | kernel/file.c:134-181 | the chunks add up to one write at the offset, whose new value is returned; it ends early, with -1, only beyond the end of the file, at the largest file size, on a full disk or at the end of what can be read; each transaction logs all that it changes on the disk, but for the block of a failed copy in the last one, and none exceeds the bound |
| `MkfsState.LayoutFits` | mkfs/mkfs.c:23-103 | the layout is sound exactly when the metadata fit on the disk, and where each inode and each bitmap bit lands |
| `Mkfs.Image.constructor` | mkfs/mkfs.c:92-111 | the image starts as zeros with every block from nmeta on free |
| `Mkfs.Image.Ialloc` | mkfs/mkfs.c:220-232 | the next inode is an empty file |
| `Mkfs.Image.MapBlock` | mkfs/mkfs.c:266-283 | blocks are handed out in order, exactly those the file lacks; it gives up exactly when the image has no more |
| `Mkfs.Image.Iappend` | mkfs/mkfs.c:252-294 | the file becomes the old one followed by the bytes, every other file is unchanged, the number of blocks used is exact, and it succeeds exactly when the bytes fit |
| `Mkfs.Image.AppendAll` | mkfs/mkfs.c:157-158 | appending block by block is appending the whole file |
| `Mkfs.Image.Balloc` | mkfs/mkfs.c:234-248 | the bitmap marks exactly the blocks handed out; it succeeds exactly when they fit one bitmap block |
| `MkfsFiles.BitmapWritten` | mkfs/mkfs.c:234-248 | with the bitmap written the image satisfies the ownership invariant of the kernel |
| `MkfsFiles.ListedAs` | mkfs/mkfs.c:130-155 | a program n given as n, _n or user/_n is listed as n |
| `Directory.RootLookup` | mkfs/mkfs.c:117-155 | looking up the name of file k in the root directory of the image finds inode k + 2 if and only if its first fourteen bytes differ from those of the names before it |
| `Mkfs.Image.AddFile` | mkfs/mkfs.c:130-161 | the directory entry and then the contents |
| `MkfsFiles.RootRounding` | mkfs/mkfs.c:163-168 | rounding up the size of the root leaves no hole if and only if it was not a whole number of blocks |
| `Mkfs.RootHole` | mkfs/mkfs.c:163-168 | the counterexample: an image with 62 files, whose root directory has a hole |
| `Mkfs.Image.Make` | mkfs/mkfs.c:68-173 | mkfs succeeds exactly when names, sizes and blocks fit; the image then holds every file, a root directory that lists them, and one owner for every block below freeblock |
| `FsRun.Boot` | mkfs/mkfs.c:68-173 | mounting the image gives a file system in which the invariants hold and every file has its contents |
| `FileSystem.FileSys.Mount` | mkfs/mkfs.c:68-173 | an image that owns its blocks and has no hole is a valid initial state |
| `Pages.Push` | kernel/kalloc.c:51-68 | pushing a page keeps the list acyclic and every page in one use |
| `Pages.Pop` | kernel/kalloc.c:73-90 | popping takes the head and nothing else |
| `Vm.Memory.Kinit` | kernel/kalloc.c:30-37 | every page between end and PHYSTOP is free and counted |
| `Vm.Memory.Freerange` | kernel/kalloc.c:39-45 | frees just the whole pages of the range |
| `Vm.Memory.Kfree` | kernel/kalloc.c:51-68 | panics exactly for a bad address; otherwise the page is filled with junk and heads the list |
| `Vm.Memory.Kalloc` | kernel/kalloc.c:73-90 | 0 exactly when no page is free; otherwise a page that was free, filled with junk |
| `Vm.Memory.GetMemoryStats` | kernel/kalloc.c:92-98 | free_pages is the number of pages on the list, which are the pages in no other use |
| `PageTable.EntryFields` | kernel/riscv.h:348-352 | PA2PTE and PTE2PA are inverse and the flags are kept apart |
| `PageTable.DistinctSlots` | kernel/riscv.h:355-363 | distinct page numbers use distinct last-level slots |
| `PageTable.SetEntry` | kernel/vm.c:143-172 | writing a last-level slot changes the translation of its own page and of no other, in any address space |
| `PageTable.AddTableSame` | kernel/vm.c:85-103 | creating an intermediate table changes no translation |
| `Vm.Memory.Walk` | kernel/vm.c:85-103 | panics exactly above MAXVA; returns the slot of the page, 0 only if it is missing and may not or cannot be made; no translation changes |
| `Vm.Memory.Walkaddr` | kernel/vm.c:108-126 | the physical address exactly of a page that is mapped for the user, else 0; nothing changes |
| `Vm.Memory.Mappages` | kernel/vm.c:143-172 | exactly the named pages are mapped; out of memory midway it maps a prefix and returns -1; a bad argument or a page already mapped panics |
| `Vm.Memory.Uvmunmap` | kernel/vm.c:202-229 | exactly the named range is unmapped, holes are passed over, and the pages behind go to the free list or the caller; panics exactly for a bad range |
| `Vm.Memory.Uvmcreate` | kernel/vm.c:233-242 | an empty address space, or 0 exactly when no page is free |
| `Vm.Memory.Uvmalloc` | kernel/vm.c:262-286 | zeroed pages up to the new size, or on a failure midway nothing but page tables added, which needs fewer free pages than three for each page asked for; panics only if a page is already mapped there |
| `VmState.GrewUndone` | kernel/vm.c:262-286 | a growth undone midway leaves no user page behind |
| `Vm.Memory.Uvmdealloc` | kernel/vm.c:292-304 | just the pages above the new size are freed |
| `Vm.Memory.Freewalk` | kernel/vm.c:308-324 | exactly the tables of the subtree become free, and every other table, page and translation is untouched |
| `Teardown.TakeStep` | kernel/vm.c:308-324 | one slot of the loop of freewalk |
| `Vm.Memory.Uvmfree` | kernel/vm.c:328-334 | every table and user page of the address space becomes free, despite lazy holes, and no other page changes use or contents |
| `Vm.Memory.Uvmcopy` | kernel/vm.c:342-370 | the child has a copy of every page with the same flags; out of memory midway, which needs fewer free pages than three for each page, leaves it with none; with enough memory it panics if and only if the parent has a hole |
| `Vm.Memory.LazyAlloc` | kernel/vm.c:486-519 | a hole gets one zeroed page; a page mapped for the user is success; a page closed to the user panics if a page is free |
| `VmImages.AllBack` | kernel/vm.c:202-370 | without address spaces every physical page is on the free list |
| `VmImages.CopyShows` | kernel/vm.c:342-370 | the child of a fork shows what the parent does, and no other address space changes |
| `VmImages.FreedOthers` | kernel/vm.c:328-334 | destroying an address space changes nothing that another shows |
| `VmRun.Spaces.DoGrow` | kernel/vm.c:262-286 | the image grows as with the eager sbrk, or not at all for want of memory; every other image stays |
| `VmRun.Spaces.DoTouch` | kernel/vm.c:486-519 | a load or store ends as on the lazy image, refused only beyond the size or for want of memory; it finds the word at its address, a store changes that word and no other of any space, and it never panics |
| `VmRun.Spaces.DoFork` | kernel/vm.c:342-370 | a copy of the image, or none for want of memory; with enough memory it panics if and only if the parent has an untouched page |
| `VmRun.ForkPanics` | kernel/vm.c:342-370 | the counterexample: create, grow lazily and fork makes the kernel panic |
| `VmRun.Spaces.Do` | kernel/vm.c:202-519 | each request does to the table of images what it should, or is refused for want of memory or, an access, beyond the size; the only panic is the copy of an untouched lazy page |
| `VmRun.Spaces.Run` | kernel/vm.c:202-519 | over every run of create, grow, lazy grow, shrink, load, store, fork and destroy, with failures midway, each request has its effect on the table of images, each access finds the last word stored there, by the space or before the fork that made it, since its page was last added or dropped, told from the requests and their results; each page is free or belongs to one address space, free_pages is the length of the list, and when all spaces are gone every page is free again |
| `Lazy.SbrkStands` | kernel/sysproc.c:93-134 | growing and shrinking lazily and eagerly keep the correspondence of the two images |
| `Lazy.LazySimulatesEager` | kernel/sysproc.c:93-134 | over every run of sbrk, loads and stores below the size, demand-zero paging returns the values that the original sbrk does and ends in a corresponding image |
| `Words.ReadOverWrite` | kernel/sysproc.c:93-134 | in every run of sbrk, loads and stores below the size, an access finds the last word stored there since its page was last added or dropped, and sbrk returns the size, told from the operations alone |
| `Words.FinalWords` | kernel/sysproc.c:93-134 | and after the run every word is the one last stored there |
| `Process.Process.Run` | kernel/sysproc.c:93-134 | a program of sbrk, loads and stores on the page tables returns what it would with the eager allocator, as far as memory lasts: for each access the word last stored there, for sbrk the size |
| `Process.Process.Sbrk` | kernel/sysproc.c:108-134 | on the page tables: the image of the process changes as the lazy one, and no other address space changes |
| `Lazy.AccessAgrees` | kernel/trap.c:111-142 | an access ends the same way in both images if and only if it is permitted below the size, or not to a lazy hole above it |
| `Process.Process.PageFault` | kernel/trap.c:111-142 | a fault above the size kills; below it a hole gets a zeroed page and memory exhaustion kills; other address spaces are unchanged |
| `Process.Process.Access` | kernel/trap.c:111-142 | a load or store with the faults it takes ends as the lazy image says, short of memory running out: it finds the word at its address, and a store changes that word and no other of any address space |
| `Heat.NoFastHeating` | kernel/trap.c:81-111 | the branch that adds 5 is reached by no cause |
| `Process.Process.Growproc` | kernel/proc.c:344-363 | on the page tables: the image changes as the eager one, or not at all, which needs fewer free pages than three for each page asked for |
| `Process.DistinctPages` | kernel/proc.c:344-363 | no physical page is mapped at two places, in one address space or in two |
| `ProcTree.ProcTable.FindUnused` | kernel/proc.c:184-202 | the scan of allocproc finds an unused slot or shows that there is none |
| `ProcTree.ProcTable.ForkAlloc` | kernel/proc.c:374-377 | the child gets a fresh pid and no parent yet |
| `ProcTree.ProcTable.ForkFail` | kernel/proc.c:380-385 | a child given up before it has a parent leaves the tree as it was |
| `ProcTree.ProcTable.ForkLink` | kernel/proc.c:406-408 | the child joins the tree under its parent |
| `ProcTree.ProcTable.Reparent` | kernel/proc.c:419-431 | exactly the children of the exiting process go to init |
| `ProcTree.ProcTable.Exit` | kernel/proc.c:436-477 | the process becomes a zombie without children, its pid and status recorded once; the tree invariant holds whenever wait_lock is free |
| `ProcTree.ProcTable.Wait` | kernel/proc.c:481-531 | reaps the first zombie child and returns the pid and status with which it exited; fails, changing nothing, exactly if that status cannot be copied out, or without a zombie child if there is no child or the process was killed; otherwise it sleeps |
| `ProcTree.RootIsInit` | kernel/proc.c:367-531 | following parents from any process that has run leads to init |
| `ProcTree.ZombieReapable` | kernel/proc.c:436-531 | every zombie has a live parent that can reap it, and its status was not returned yet |
| `ProcTree.ProcTable.Run` | kernel/proc.c:367-531 | over every run each step has its effect on the table or none, the pids that wait returns are all different, and each comes with the status with which that process called exit |
| `HeatRun.Scheduler.UpdateHeat` | kernel/proc.c:534-557 | the loop cools every process in use by one and not below zero |
| `HeatRun.InvStep` | kernel/proc.c:563-695 | a process that runs does so on one CPU, and a CPU runs only a process that is Running |
| `HeatRun.LifeCycle` | kernel/proc.c:563-695 | which steps change the state of a process, and how |
| `HeatRun.HeatBalance` | kernel/proc.c:534-557 | over every run the heat of a process is what the timer charged it less one for each pass of update_heat, as long as there was something to take off |
| `HeatRun.ClockCounts` | kernel/proc.c:563-695 | the clock counts the timer interrupts of CPU 0 and of no other |
| `HeatRun.NoRise` | kernel/proc.c:534-695 | between two schedulings the heat of a process does not rise, whatever timer interrupts, sleeps, wakeups, forks and passes of other CPUs happen |
| `HeatRun.Waiting` | kernel/proc.c:534-695 | a runnable process that is passed over stays runnable and cools by one in each pass of update_heat |
| `Heat.Decide` | kernel/proc.c:604-631 | the computation of the scheduler, in its integer types, is the skip predicate |
| `Heat.ChanceRange` | kernel/proc.c:604-621 | skip_chance is a percentage of at most 90 exactly for heats below the overflow; beyond it the process is always skipped |
| `Heat.SkipRule` | kernel/proc.c:604-631 | short of the overflow, a process is passed over exactly if the pseudo-random number r is below 90 and its heat is at least 1520 + 20r |
| `Heat.SkippedWhenHot` | kernel/proc.c:604-631 | a process can be skipped at some tick if and only if its heat is at least 1520 |
| `HeatRun.SkipBound` | kernel/proc.c:534-695 | a runnable process of heat h that is passed over each time is let run at its first decision after h - 1519 passes of update_heat, by any CPU and at any tick |
| `HeatRun.SkipBoundTight` | kernel/proc.c:534-695 | with fewer passes it is still passed over at a tick where its pseudo-random number is 0 |
| `HeatRun.AllowedAtTick` | kernel/proc.c:604-695 | a pass that sampled a tick where the number is at least 90 lets the process run whatever its heat |
| `HeatRun.Scheduler.Go` | kernel/proc.c:563-695 | the scheduler, its timer interrupts and its processes take the steps that these results are about |
| `Heat.AllowedFromNinety` | kernel/proc.c:623-630 | a process is let run at a tick at every heat exactly when its pseudo-random number is at least 90 |
| `Heat.HundredTicks` | kernel/proc.c:604-631 | any hundred consecutive ticks hold such a tick if and only if neither 20 nor 25 divides the pid |
| `Channels.MoveInv` | kernel/proc.c:758-804 | for any use of sleep and wakeup, every step of every process between two lock operations keeps the invariant |
| `Channels.NoLostWakeup` | kernel/proc.c:758-804 | in every run, a process that sleeps on a channel, or is on its way to, has slept through no wakeup on it by a holder of lk since it released lk |
| `Channels.WakeupReachesAll` | kernel/proc.c:788-804 | at the end of the loop of wakeup nobody sleeps on its channel with its lock or is on the way to |
| `ChannelCalls.SleepReturns` | kernel/proc.c:758-785 | in every run, a process that comes back from sleep was woken in between, by a wakeup on its channel or from elsewhere, and holds its lock again |
| `ChannelCalls.WakeupReturns` | kernel/proc.c:788-804 | in every run, when a call of wakeup comes back nobody sleeps on its channel with its lock or is on the way to |
| `SleepWakeup.MoveInv` | kernel/proc.c:758-804 | every step of processes that take and give back nested sleep-locks keeps the invariant |
| `SleepWakeup.NoLostWakeup` | kernel/proc.c:758-804 | in every run, when lk is free, a process asleep on a sleep-lock, whatever others it owns, waits for another process that owns it |
| `SleepWakeup.WakeupReachesAll` | kernel/proc.c:788-804 | at the end of the loop of wakeup nobody sleeps on its channel or is on the way to |
| `SleepWakeup.MutualExclusion` | kernel/sleeplock.c:21-41 | in every run at most one process owns a sleep-lock, however they are nested |
| `SleepCalls.AcquireReturns` | kernel/sleeplock.c:21-32 | in every run, a process that comes back from acquiresleep owns the sleep-lock besides what it owned before, and nobody else owns it |
| `SleepCalls.ReleaseReturns` | kernel/sleeplock.c:34-41 | a process that comes back from releasesleep has given back that sleep-lock and no other |
| `Pipe.Compare32` | kernel/pipe.c:88-121 | the 32-bit counters tell full and empty apart even after they wrap |
| `Pipe.Pipe.Write` | kernel/pipe.c:76-103 | exactly the bytes up to j join the stream: it fails if the reader is gone or it is killed, sleeps exactly on a full pipe with bytes left, and otherwise writes all that copyin can read |
| `Pipe.Pipe.Read` | kernel/pipe.c:105-130 | waits, or fails if killed, exactly on an empty pipe open for writing; otherwise returns the next bytes of the stream, as many as asked for, as there are and as there is room for; a byte whose copyout fails is consumed and lost |
| `Pipe.Pipe.Close` | kernel/pipe.c:58-74 | the pipe is freed exactly when both ends are closed |
| `Pipe.Pipe.Run` | kernel/pipe.c:76-130 | for any interleaving of readers and writers each turn has its effect, the bytes consumed followed by those buffered are the bytes sent, and at most PIPESIZE wait |
| `Virtio.Disk.Alloc3Desc` | kernel/virtio_disk.c:199-213 | three distinct free descriptors exactly if three are free, otherwise none with the free ones as before |
| `Virtio.Disk.FreeChain` | kernel/virtio_disk.c:185-197 | the loop frees exactly the three descriptors of the chain |
| `VirtioState.TwoChains` | kernel/virtio_disk.c:156-213 | eight descriptors make at most two disjoint chains of three |
| `VirtioState.WindowBound` | kernel/virtio_disk.c:215-327 | no ring ever holds more than two entries, counting the one being written |
| `VirtioState.Compare16` | kernel/virtio_disk.c:294-327 | indices at most two apart are told apart even after they wrap |
| `VirtioState.DecodeFormatted` | kernel/virtio_disk.c:235-265 | the device reads from the descriptors exactly the request that was made |
| `Virtio.Disk.Prepare` | kernel/virtio_disk.c:215-272 | a request is formatted and entered into the ring without overwriting a pending entry; with fewer than three free descriptors the caller sleeps |
| `Virtio.Disk.Publish` | kernel/virtio_disk.c:272-281 | the index moves past the entry only after it is written |
| `Virtio.Disk.DeviceFinish` | kernel/virtio_disk.c:235-265 | the device carries out just the request asked for, once |
| `Virtio.Disk.IntrOne` | kernel/virtio_disk.c:312-324 | one round of the interrupt loop never panics, and releases the buffer of the request that finished |
| `Virtio.Disk.Intr` | kernel/virtio_disk.c:294-327 | afterwards no finished request is left unannounced |
| `Virtio.Disk.Finish` | kernel/virtio_disk.c:284-291 | a caller returns only after its request was carried out, and its descriptors are free again |
| `VirtioState.BooksMove` | kernel/virtio_disk.c:215-327 | a request is executed exactly when the device fills in its status |
| `VirtioLog.LogbookExecute` | kernel/virtio_disk.c:215-262 | carrying out a request adds one event to the history, a read with the contents that the writes before it left |
| `Virtio.Disk.DoRequest` | kernel/virtio_disk.c:215-272 | with three descriptors free a call adds one request with exactly the buffer, direction and block it was called with, and otherwise nothing |
| `VirtioLog.OrdersExecute` | kernel/virtio_disk.c:215-262 | the event of a request has the direction and block that its call named, and a write moves the buffer as it was handed over |
| `Virtio.Disk.DoReturn` | kernel/virtio_disk.c:284-291 | a caller that returns finds its request once in the history, done as its call asked for, and in its buffer what the device moved: for a read the block as it was then, for a write what was handed over |
| `Virtio.Disk.Do` | kernel/virtio_disk.c:215-327 | each step of callers, device and interrupt moves one request on whenever there is one for it to move, and a call that gets its descriptors is entered just as it was made |
| `Virtio.Disk.Run` | kernel/virtio_disk.c:215-327 | in every interleaving of callers, device and interrupts the chains are disjoint and no ring entry is overwritten; every request whose caller returned is in the history, once; each event is what one call in the list of steps asked for, writes with the buffer as it was then; every call that finds three free descriptors is entered; reads see the writes before them, and the disk holds what the writes left |
| `ShellParser.GetToken` | user/sh.c:266-309 | the next token, spelled out in the characters of the text, with just blanks (space, tab, CR, LF, VT) skipped before and after it; it always ends |
| `ShellParser.Peek` | user/sh.c:311-321 | skips just blanks and loses no token |
| `ShellSyntax.SpelledTokens` | user/sh.c:263-309 | tokens set down with any blanks before, between and after them are the tokens the shell finds; only two words, or > before > or >>, need a blank between |
| `ShellSyntax.TextIsSpelled` | user/sh.c:263-309 | every text is its tokens set down in this way |
| `ShellTokens.ParseTokens` | user/sh.c:328-447 | what the shell makes of a text depends on its tokens alone, and they have to be one line to the last |
| `ShellParser.ParseRedirections` | user/sh.c:375-398 | the redirections that the grammar finds there |
| `ShellParser.ParseSimple` | user/sh.c:416-447 | parseexec, with its limit of MAXARGS words |
| `ShellParser.ParseParens` | user/sh.c:400-414 | parseblock |
| `ShellParser.ParsePipeline` | user/sh.c:362-373 | parsepipe |
| `ShellParser.ParseList` | user/sh.c:345-360 | parseline |
| `ShellGrammar.ItemsRead` | user/sh.c:416-447 | words and redirections in any order, also redirections before the first word |
| `ShellGrammar.LineRead` | user/sh.c:345-360 | parseline reads every writing of a command, and stops where it ends |
| `ShellGrammar.LineWritten` | user/sh.c:345-360 | whatever parseline reads is a writing of the command it returns |
| `ShellGrammar.WritingIsRead` | user/sh.c:328-447 | a command written in any legal way, with any runs of blanks between its tokens, is the one the shell reads |
| `ShellGrammar.OnlyWritingsAreRead` | user/sh.c:328-447 | and whatever the shell reads was written in such a way |
| `ShellGrammar.ReadIffTyped` | user/sh.c:328-447 | the shell reads a text as a command if and only if the text writes that command down |
| `ShellGrammar.Unambiguous` | user/sh.c:328-447 | no text can be read in two ways |
| `ShellGrammar.RoundTrip` | user/sh.c:328-447 | every legal command can be written, and written with any blanks it is read back |
| `ShellGrammar.LeftoverPanics` | user/sh.c:336-340 | a complete line with more tokens after it is refused |
| `ShellGrammar.WordAfterAmpPanics` | user/sh.c:336-360 | for one, a word after & |
| `ShellGrammar.AmpThenWord` | user/sh.c:336-360 | the line "a & b" is refused |
| `ShellParser.EndsOutside` | user/sh.c:450-494 | the place where nulterminate writes is never a character of a word |
| `ShellParser.NulTerminate` | user/sh.c:450-494 | writes a NUL at exactly the ends of the words |
| `ShellParser.WordsSurvive` | user/sh.c:450-494 | afterwards every word of the command is the C string at its start |
| `ShellParser.ParseCommand` | user/sh.c:328-343 | on every string parsing ends; it panics exactly on a text that writes no command down, and otherwise the command left in place is the one the text writes down |
| `ShellParser.CommandRoundTrip` | user/sh.c:328-494 | any command, written in any way with any blanks, parsed and terminated in place, is what the shell runs |

## Left out

- Assembly, traps as machine state, CSRs, the PLIC, UART, console, `printf` and the activity statistics: hardware and output.
- Spinlocks are taken as atomic steps: each model says which steps are atomic, and the interleaving is of those steps.
- Path lookup beyond one `dirlookup`, `dirlink`, link counts, `exec`, system-call dispatch and argument fetching.
- `copyin`, `copyout` and `copyinstr`: how much of a user buffer can be read or stored is a parameter of `writei`, `readi`, `pipewrite` and `piperead`.
- The kernel's own page table, `kvmmap` and `uvmfirst`: `Vm` models user page tables, in which a mapping below the trapframe is to a page of the allocator.
- The byte layout of inodes and of the superblock: inodes are tables of addresses, sizes and types beside the other blocks; link counts are not in them.
- `begin_op` waiters, and the number of buffers: in `LogSystem` an operation that must wait is a step not yet taken, and the cache can grow; `BufferCache` has the fixed number.
- A write to a disk block is atomic and synchronous for the file system and the log; `Virtio` treats the device separately.
- `user/grep.c`, `user/grind.c`, `ramdisk.c`, the test and demo programs, `runcmd` and the built-in `cd` of the shell.
- Malloc.Heap.Alloc: requires nbytes <= 0x7FFFFFE0, the exact range in which `morecore` records the memory it obtained; whether `sbrk` grants a request is a parameter, the break is a multiple of 16 and `base` lies below the heap.
- BufferCache.Bcache.Bget: requires a device number other than 0, which `binit` leaves in buffers that hold no block.
- Vm.Memory.Uvmalloc: requires a new size below the trapframe, which `sys_sbrk` does not check.
- Vm.Memory.Freerange: only the call of `kinit`, from `end` to `PHYSTOP`.
- Process.Process.Sbrk: requires that the size stays below the trapframe, which `sys_sbrk` does not check.
- Lazy.LazySimulatesEager: accesses are to aligned 8-byte words, the size stays below the trapframe, and memory is not exhausted.
- Process.Process.constructor: a process starts with an empty address space.
- FsRun.Session.Do: an operation on a free inode, at which `ilock` would panic, is refused.
- FsRun.Boot: requires directory entries that do not fill whole blocks, the case in which the root has no hole.
- Mkfs.Image.Make: requires an inode for every file, which `mkfs` does not check; the files named on the command line can be opened and read.
- ShellParser.ParseSimple: the node that `parseexec` fills in on the heap is built when the words are known, and the redirections are wrapped around it then.
- Channels.NoLostWakeup: a process holds one lock besides process locks when it calls `sleep` or `wakeup`; a wakeup from elsewhere, and `kill`, may wake any process at any time.
- HeatRun.SkipBound: `update_heat` is one step, and so is each decision; the scheduler's locks and its statistics are not in the model.
- VmRun.Spaces.Run: memory is mapped by `growproc` and on demand, so all of it is open to the user; segments loaded by `exec` and the trapframe are not in the runs.
- Virtio.Disk.Run: a caller that sleeps for descriptors is a step not taken; wake-ups are the subject of `SleepWakeup`.
- Heat.HundredTicks: requires that pid times tick does not wrap in 64 bits.
- HeatRun.HeatBalance: requires that the heat does not wrap in 64 bits, and a slot in use throughout.
- Directory.RootLookup: requires fewer than 65534 files, since an inode number in a directory has 16 bits; a root directory cannot hold as many.
