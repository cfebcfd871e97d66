# Verified models of xv6

Dafny models of the parts of the xv6 teaching kernel and its user programs whose correctness is hardest to see from the
code: the write-ahead log over the buffer cache, the block allocator and file contents, the memory allocators and page
tables, sleep and wakeup, the process table, pipes, the shell parser and grep's matcher.

Each part has up to three layers. Values and functions say what a state is and what one step does to it. Classes and
methods with loops, in the form of the C code, are proved to take exactly those steps; a kernel panic is a result `ok`
that is false. State machines over whole runs, with any number of processes and a crash or a kill at any point, carry
the theorems about every reachable state.

| files | models |
|---|---|
| Basics | machine numbers, sequences and sets |
| Blocks, BufferCache, CacheRuns | bio.c over memide.c |
| LogDisk, LogRuns, LogReservation, LogBuffers, LogCode, CommitStarves | log.c |
| Bitmap, FsModel, FsBytes, FsTrunc, FsCode | fs.c, file.c |
| Mkfs | mkfs.c |
| Malloc | umalloc.c |
| VmModel, VmSteps, VmKernel, VmUser, VmAccess, VmCode, VmLeak | vm.c, kalloc.c, growproc |
| Sleep, SleepLocks | sleep and wakeup of proc.c, sleeplock.c |
| ProcTable, ProcRuns, ProcCode | proc.c |
| Pipe, PipeRuns | pipe.c |
| ShellModel, ShellCode, ShellText, ShellAppend, ShellGrammar, ShellAccepts, ShellPrint | the parser of sh.c |
| Grep | the matcher of grep.c |

`dafny verify dfyconfig.toml` checks the whole project.

## Where the code falls short of a natural promise

For each of these the model follows the code; a lemma or contract gives the exact condition under which the promise holds.

- A commit panics for want of a buffer iff the logged blocks and the other buffers in use come to NBUF or more:
  `LogBuffers.CommitOk`, `LogCode.Log.Commit`. On the image mkfs makes log_write stops at 29 blocks, one fewer than NBUF,
  and then one process that reads outside a transaction, as fileread does (file.c:105-110), is enough:
  `CommitStarves.ReaderStarvesCommit`.
- The log reservation excludes the "too big a transaction" panic iff the log has LOGSIZE + 1 blocks; mkfs makes LOGSIZE. The
  test for space also comes before absorption: `LogReservation.NeverPanicsIff`, `LogReservation.FullLogRefusesAbsorption`.
- A full filewrite chunk, 13 * BSIZE bytes, always logs more than the MAXOPBLOCKS begin_op reserves for it
  (`FsCode.FileSystem.Filewrite`), though never more than the log holds (`FsCode.ChunkFits`). By the count `FsCode.Dirtied` a
  write keeps to the reservation iff it has at most 3 * BSIZE bytes, or 6 * BSIZE + 1 on a disk with one bitmap block:
  `FsCode.ReservedIff`.
- malloc's size arithmetic is right iff nbytes <= 0x7ffffff0: `Malloc.SizeArithmetic`.
- mkfs leaves an inconsistent root directory iff it ends at a block boundary, which is for 30 files and every 32 more:
  `Mkfs.RootFix`, `Mkfs.Image.Build`.
- copyuvm loses a page when it fails for want of a page table: `VmCode.Vm.Copyuvm`, with the free-page counts at which that
  happens (`VmUser.LeaksIff`, `VmUser.LeakExample`) and a machine on which it does (`VmLeak.CopyLosesPage`).
- growproc treats a shrink to size 0 as an error after the pages are gone: `VmCode.Vm.Growproc`.
- kill(0), or a pid left by a fork that failed, marks a slot nobody has, and the next child there is born killed:
  `ProcRuns.KilledIff`, `ProcRuns.BornKilled`.
- A wakeup made without the lock under which the condition was tested can be lost; one made with it
  never is: `Sleep.LostWithoutLock`, `Sleep.NoLostWakeup`.
- A killed writer can leave a full pipe without waking a sleeping reader: `PipeRuns.ReadersOkIff`, `PipeRuns.AbandonedReader`.
- Of two redirections of the same descriptor the shell has the one written first in force: the last one is outermost, and
  runcmd opens it first (sh.c:82-90): `ShellAccepts.Means`, `ShellPrint.ChainExample`.
- The shell's `>>` means the same as `>` (sh.c:387-392), although the tokens differ: `ShellAppend.AppendIsTruncate`.

## Model

| member | source | states |
|---|---|---|
| BufferCache.UnlinkLinked | bio.c:128-132 | taking a buffer out by its two neighbours' pointers leaves a ring, linked both ways, of exactly the others in their order |
| BufferCache.PushLinked | bio.c:133-137 | hanging it in behind the head gives the ring with that buffer first |
| BufferCache.MoveToFrontPermutes | bio.c:126-138 | moving a buffer to the front keeps the list a permutation of all NBUF buffers |
| BufferCache.BreadKeeps | bio.c:96-106 | bread changes the contents of no block, over hits, recycling and the disk read, and keeps one buffer per block |
| BufferCache.BwriteKeeps | bio.c:108-116 | bwrite makes the new data the contents of its block, on disk and in the cache, and changes no other block |
| BufferCache.BrelseKeeps | bio.c:118-141 | brelse changes no block's contents, list order apart |
| BufferCache.Bcache.constructor | bio.c:38-56 | binit links all buffers into one ring and tags them with device 0 |
| BufferCache.Bcache.Find | bio.c:68-76 | the walk from the front finds the first buffer of the block in list order, and none exactly when it is not cached |
| BufferCache.Bcache.FindFree | bio.c:78-91 | the walk from the tail finds the clean, unreferenced buffer nearest the tail, and none exactly when there is none |
| BufferCache.Bcache.Bget | bio.c:58-93 | returns the matching buffer with one reference more, or else recycles the buffer found by the second walk; it panics exactly when neither exists |
| BufferCache.Bcache.Iderw | memide.c:35-60 | succeeds exactly for a locked buffer of the disk that has something to transfer and a block in range, and then makes exactly one transfer in the direction B_DIRTY says |
| BufferCache.Bcache.Put | bio.c:126-140 | the last reference moves the buffer to the front, both pointer rings staying well formed |
| BufferCache.Bcache.Bread | bio.c:95-106 | the returned buffer is valid and holds the block's contents; panics exactly where bget or iderw does |
| BufferCache.Bcache.Bwrite | bio.c:108-116 | one disk write, of the buffer's block with its new data; panics exactly for a buffer that is not locked, of another device or past the disk, and then writes nothing |
| BufferCache.Bcache.Brelse | bio.c:118-141 | drops lock and reference, and with the last one moves the buffer to the front; panics exactly for a buffer that is not locked |
| CacheRuns.InvNext | bio.c:58-141 | every step of any process keeps data agreement, reference counts, tags, exclusive holding and list order |
| CacheRuns.RunInv | bio.c:38-141 | that invariant in every state of every interleaving of any number of processes |
| CacheRuns.BreadReturnsLast | bio.c:95-106 | in every run, whoever bread returned to holds the contents last given to that block, and holds the buffer alone |
| CacheRuns.OneBufferPerBlock | bio.c:58-93 | in every run there is at most one buffer per block of a real device, and the list has every buffer once |
| CacheRuns.RecyclesOldest | bio.c:78-91 | in every run a recycled buffer is unreferenced and not dirty, was released longest ago of those, and its contents are on disk |
| LogDisk.HeaderRoundTrip | log.c:85-113 | read_head reads back the list write_head wrote, for every list that fits |
| LogDisk.RecoverAt | log.c:69-82 | recovery sets each listed home block to its log copy and no other block outside the log |
| LogDisk.CrashDuringRecovery | log.c:115-122 | recovery cut off after any number of its writes and run again ends with the same home blocks |
| LogDisk.CrashDuringCommit | log.c:177-202 | a crash after any number of the writes of commit recovers to exactly the old or exactly the new home blocks, the new ones from the header write on |
| LogDisk.CommitDone | log.c:192-202 | a finished commit leaves the new home blocks and an empty header |
| LogDisk.CommitHeaderFirst | log.c:193-202 | a home block is written only once the header and the log area on disk hold that very write |
| LogDisk.CommitChain | log.c:177-202 | the writes of write_log, write_head, install_trans and the clearing write_head, each computed from the contents it finds, are the writes of commit |
| LogDisk.CommitKeepsHome | log.c:192-202 | a commit changes no home block as readers of the cache see it |
| LogDisk.RecoverChain | log.c:115-122 | likewise for read_head, install_trans and write_head in recovery |
| LogRuns.InvNext | log.c:125-233 | every step, a crash among them, keeps the invariant that ties disk, header, cache and history |
| LogRuns.GroupAtomicity | log.c:125-202 | wherever any run of any number of operations stops, recovery leaves exactly the committed groups, whole and in order; every group consists of ended operations with all their updates, and no operation is split |
| LogRuns.GroupsOnlyGrow | log.c:192-202 | no step, a crash included, takes back a committed group |
| LogRuns.CommitIsDurable | log.c:145-202 | in every run, when a commit ends, the committed groups since the last crash hold every update made since then, each once and in order |
| LogRuns.CommitRun | log.c:192-202 | a commit from any state is a chain of one step per disk write and a last one |
| LogRuns.RecoverRun | log.c:115-122 | likewise a recovery |
| LogRuns.QuietWhileWriting | log.c:125-174 | while a commit or recovery writes, no operation is open and nothing can be logged |
| LogRuns.HeaderBeforeHome | log.c:192-202 | in every run no commit writes a home block before its header lists that write |
| LogReservation.ReservationHolds | log.c:125-141 | in every run of operations within MAXOPBLOCKS, logged blocks plus unused reservations never exceed LOGSIZE |
| LogReservation.BeginOpAdmits | log.c:125-141 | in every run begin_op lets an operation in if and only if nothing is being committed or recovered and one more reservation fits LOGSIZE; with no operation open, and right after a commit, it always does, so it never waits for ever on an idle log |
| LogReservation.NeverPanicsIff | log.c:213-231 | log_write never panics for an operation within its reservation if and only if the log has at least LOGSIZE + 1 blocks |
| LogReservation.FullLogRefusesAbsorption | log.c:218-227 | whatever the log size, some run within budget reaches a full log on which log_write refuses a block that is logged already |
| LogBuffers.FreeIffFew | bio.c:78-91 | whoever uses the cache, bget can recycle a buffer if and only if the logged blocks and the other buffers in use are together fewer than NBUF |
| LogBuffers.PinnedCount | log.c:220-231 | the blocks in the in-memory header pin exactly that many buffers |
| LogBuffers.CopyStepCopies | log.c:183-188 | copying one held buffer to another, writing it and releasing both changes one block on disk and in the cache, and nobody else's references, locks or locked buffers |
| LogBuffers.Rewritten | log.c:104-112 | reading, writing and releasing a block of the log area does likewise and leaves a buffer to recycle |
| LogBuffers.CommitOk | log.c:177-190 | commit gets a buffer for its first log block if and only if the logged blocks and the other buffers in use are together fewer than NBUF |
| CommitStarves.ReaderStarvesCommit | bio.c:78-92 | a run of the cache after which log.size - 1 blocks are pinned, one process has read another block, and bget of a log block has no step to take |
| LogCode.Log.CopyToLog | log.c:182-189 | one turn of write_log is one disk write, of the cached block to its place in the log |
| LogCode.Log.WriteLog | log.c:177-190 | exactly the log copies, in order; fails exactly where the first bget does |
| LogCode.Log.InstallTrans | log.c:69-82 | exactly the installs, in order, and every block unpinned |
| LogCode.Log.Encode | log.c:105-110 | the loop writes the encoding of the in-memory list |
| LogCode.Log.WriteHead | log.c:98-113 | one disk write, of the encoded list into the header block |
| LogCode.Log.Decode | log.c:88-94 | the loop makes the in-memory list the one encoded in the block |
| LogCode.Log.ReadHead | log.c:84-96 | the in-memory list becomes the list on disk |
| LogCode.Log.Commit | log.c:192-202 | exactly the commit's writes in order, with the list empty after, no home block changed for readers and no buffer touched that others have locked; succeeds if and only if nothing is logged or the logged blocks and the other buffers in use are together fewer than NBUF |
| LogCode.Log.RecoverFromLog | log.c:115-122 | exactly the recovery's writes in order, leaving the recovered disk; a chain of RecoverWrite steps and a RecoverEnd of the state machine |
| LogCode.Log.BeginOp | log.c:125-141 | goes on if and only if no commit is under way and one more reservation fits; a BeginOp step of the state machine, and where it sleeps instead no such step is possible |
| LogCode.Log.LogWrite | log.c:213-233 | appends the block unless listed, pins it, and panics exactly on its three tests, space before absorption |
| LogCode.Log.Update | log.c:213-233 | changing a held buffer and logging it is a LogWrite step of the state machine, and where log_write panics no such step is possible |
| LogCode.Log.EndOp | log.c:143-174 | an EndOp step of the state machine, which never meets the panic; the last open operation, and only it, goes on to commit |
| LogCode.Log.EndCommit | log.c:162-174 | a chain of CommitWrite steps, one per disk write, and a CommitEnd; panics exactly where the commit finds no buffer |
| Bitmap.WithBitIs | fs.c:64-69 | changing the bit of one block changes no other block's bit, across bytes and bitmap blocks |
| Bitmap.BitIs | fs.c:62-64 | the bit of block b is bit b % 8, counted from the lowest, of byte b % 4096 / 8 of bitmap block b / 4096 |
| FsModel.GainedOwned | fs.c:56-78 | a slot that gains a free block keeps ownership exact: a bit is set iff the block is metadata or named by exactly one slot of one inode |
| FsModel.DirectMapped | fs.c:379-383 | allocating the next direct block keeps ownership and all file contents, and extends exact allocation by one |
| FsModel.EntryMapped | fs.c:387-398 | the same for the next entry of an indirect block |
| FsModel.BothMapped | fs.c:387-398 | the same for the first indirect block, which takes two allocations |
| FsModel.OneBlockKeeps | fs.c:499-503 | writing into one block of one file keeps ownership and exact allocation |
| FsBytes.WroteTrans | fs.c:499-505 | two block-sized writes, the second where the first ended, are one write of the joined bytes |
| FsBytes.PieceWrote | fs.c:499-505 | one turn of writei's loop changes exactly the bytes it covers; bytes of a new block start as zeros |
| FsBytes.WriteDone | fs.c:482-512 | after writei the file is the old one overlaid with the source, other files are unchanged, allocation is exact for the new size and changed inodes are on disk |
| FsModel.OverlayReads | fs.c:479-512 | what was written reads back, and every other byte and the length are as they should be |
| FsTrunc.ReleaseOne | fs.c:414-430 | the block in a slot not visited yet is still marked in use, so freeing it does not panic, and frees only it |
| FsTrunc.TruncDone | fs.c:408-436 | after all slots the file's blocks and only those are free, ownership is exact again and other files are unchanged |
| FsCode.BlockNumbers | fs.h:38-48 | which disk block holds the bit of a block and which holds an inode |
| FsCode.LoggedTrans | fs.c:371-512 | if each of two operations logs every block it changes, so do both together |
| FsCode.BitLogged | fs.c:68-69 | a block whose bit changed has its bitmap block logged |
| FsCode.FileSystem.Balloc | fs.c:53-78 | the lowest free block over all bitmap blocks, marked and zeroed, with both changed blocks logged; panics exactly when every block is in use |
| FsCode.FileSystem.Bfree | fs.c:80-96 | clears the bit, and panics exactly for a block that is free |
| FsCode.FileSystem.Bmap | fs.c:371-401 | the block of a file, found without any change or made as the next one; keeps ownership, exact allocation and all contents; every block of the disk it changes is logged; panics exactly for a block past MAXFILE or for want of a free block |
| FsCode.FileSystem.BmapIndirect | fs.c:385-398 | the same through the indirect block, with what it logs |
| FsCode.FileSystem.WriteOne | fs.c:499-505 | one turn of writei's loop against the byte view, and what it logs |
| FsCode.FileSystem.WriteBlocks | fs.c:499-505 | the whole loop is one write; every block it changes is logged, and the number of blocks it can log |
| FsCode.FileSystem.Writei | fs.c:479-512 | -1 exactly for an offset past the end or too large a file, and then nothing changes; else the contents are overlaid, others untouched, the invariant kept; every bitmap, data, indirect or inode block that differs afterwards was given to log_write, at most Dirtied blocks were, and at least those the bytes fall in; panics only when every block is in use |
| FsCode.FileSystem.ReadOne | fs.c:470-475 | a piece of the contents, with no change to anything |
| FsCode.FileSystem.Readi | fs.c:450-477 | the contents from the offset on, cut at the end of the file; nothing is allocated, logged or changed |
| FsCode.FileSystem.Fileread | file.c:95-113 | the offset moves past exactly the bytes returned; nothing else changes |
| FsCode.FileSystem.WriteChunk | file.c:135-150 | a chunk is written whole or not at all, and its transaction logs every block that differs afterwards, at most LOGSIZE blocks and at least those it falls in |
| FsCode.FileSystem.Filewrite | file.c:115-156 | the state goes from the first to the last through one transaction after another, each logging every block it changes, at most LOGSIZE of them, and all but the last more than MAXOPBLOCKS; the file is overlaid with exactly the bytes the offset moved over; it returns n iff all were written and stops early only where they cannot fit |
| FsCode.ChunkFits | file.c:127-137 | for every offset, size and number of bitmap blocks, a chunk dirties at most LOGSIZE blocks, counting data, bitmap, indirect and inode blocks |
| FsCode.ChunkLargest | file.c:127-137 | by the count Dirtied, a write of n bytes stays within LOGSIZE on every disk, for every file size and offset, if and only if n <= CHUNK; one byte more at the end of a file of NDIRECT blocks counts LOGSIZE + 1 |
| FsCode.ReservedIff | file.c:127-137 | by the same count it stays within the MAXOPBLOCKS that begin_op reserves if and only if n <= 3 * BSIZE, and on a disk with one bitmap block if and only if n <= 6 * BSIZE + 1 |
| FsCode.BitmapRange | fs.c:56-78 | allocations touch no more bitmap blocks than the disk has |
| FsCode.DataDistinct | fs.c:371-401 | no disk block is two blocks of one file, so a write logs as many data blocks as it falls in |
| FsCode.BitmapFew | fs.c:56-78 | n allocations touch at most n bitmap blocks, however many there are |
| FsCode.OverlayTwice | file.c:139-151 | consecutive chunks overlay as one write does |
| FsCode.FileSystem.Itrunc | fs.c:403-436 | never reaches the freeing-free-block panic; exactly the file's blocks become free, the file is empty, other files are unchanged, the invariant holds, and every block that differs afterwards was logged |
| Mkfs.UptoBit | mkfs.c:237-251 | the bitmap block that balloc builds has exactly the first n bits set |
| Mkfs.Image.constructor | mkfs.c:93-115 | the zeroed image with all blocks after the metadata free satisfies the kernel's invariant |
| Mkfs.Image.Fresh | mkfs.c:271-283 | freeblock++ is an allocation of the lowest free block in the bitmap still to be written |
| Mkfs.Image.Iappend | mkfs.c:255-297 | the file's contents grow by exactly the bytes given, other files keep theirs, and the kernel's invariant is kept; succeeds if and only if the file stays within MAXFILE blocks and the disk has the blocks it takes, and takes exactly those |
| Mkfs.Image.Ialloc | mkfs.c:223-235 | the next inode number, an empty file |
| Mkfs.Image.Balloc | mkfs.c:237-251 | writes the bitmap of the blocks in use; asserts exactly when they do not fit one bitmap block |
| Mkfs.Image.CopyIn | mkfs.c:152-153 | copying a file in block-sized reads appends all of it, under the same condition |
| Mkfs.Image.AddFiles | mkfs.c:130-156 | each inode holds its file, the directory all entries in order; succeeds if and only if there are inodes, and blocks for the files and their entries |
| Mkfs.Image.Build | mkfs.c:67-168 | succeeds if and only if there are inodes for the files and blocks for them and the directory; then the image holds the files, and satisfies the kernel's invariant if and only if the number of files is not 30 more than a multiple of 32 |
| Mkfs.RoomNext | mkfs.c:130-156 | the next file either fits as counted or all of them together do not |
| Mkfs.MisalignedImage | mkfs.c:158-163 | an image of thirty files, empty ones, that does not satisfy the invariant |
| Mkfs.RootFix | mkfs.c:158-163 | rounding the root's size keeps the invariant if and only if it was not a multiple of BSIZE |
| Malloc.InsertGapped | umalloc.c:33-42 | putting a block back keeps the list in address order, disjoint and fully coalesced |
| Malloc.InsertUnits | umalloc.c:33-42 | the free units after are the free units before and those of the block |
| Malloc.LinkedRing | umalloc.c:33-42 | the header writes of free make the ring in memory exactly that list |
| Malloc.FreeKeeps | umalloc.c:24-44 | free moves the block's units from allocated to free and changes hands of no other unit |
| Malloc.TakeKeeps | umalloc.c:75-83 | cutting from the tail of a block moves exactly those units from free to allocated |
| Malloc.GrowKeeps | umalloc.c:53-59 | memory from sbrk is one more allocated block until free lists it |
| Malloc.SizeArithmetic | umalloc.c:69 | the block has room for nbytes and sbrk is asked for what it takes if and only if nbytes <= 0x7ffffff0; up to there the block has no unit to spare, and sbrk is asked for 32768 bytes or, if that is more, the block |
| Malloc.Heap.FindSpot | umalloc.c:30-32 | the ring search ends, at the element after which the block belongs |
| Malloc.Heap.Free | umalloc.c:24-44 | the free list is the old one with the block inserted and merged; the allocated blocks lose exactly it; units owned stay |
| Malloc.Heap.Morecore | umalloc.c:46-61 | after it some free block is large enough, and owned units grow by exactly what sbrk was asked for; NULL iff sbrk fails |
| Malloc.Heap.Cut | umalloc.c:75-85 | the units are cut off the end of the block found and freep is the element before it |
| Malloc.Heap.Malloc | umalloc.c:63-90 | for nbytes up to where the size arithmetic is right: the search ends, also after morecore; a result is a block of the needed units that was not allocated before; sbrk is asked if and only if no free block is large enough, and NULL comes exactly when it then fails, with nothing changed hands |
| VmModel.PlainWrite | vm.c:334 | writing a page that is neither directory nor table changes no mapping |
| VmModel.HungTables | vm.c:45-52 | hanging in an empty table changes no mapping of any directory, keeps each frame to one owner, and keeps every directory entry in use writable and open to user mode |
| VmModel.AllowedIs | vm.c:49-52 | what the hardware allows at a page, by directory and table entry together, is what the table entry alone says |
| VmModel.MapTables | vm.c:69-73 | mapping a page to a frame nobody has keeps each frame to one owner |
| VmModel.UnmapTables | vm.c:269-275 | unmapping a user page gives up exactly its frame |
| VmSteps.SkipTable | vm.c:266-268 | the jump over a missing table misses no mapped page |
| VmSteps.Popped | kalloc.c:83-95 | taking the head leaves the rest of the list, linked through the free pages |
| VmSteps.Pushed | kalloc.c:59-77 | a freed page becomes the head of the list |
| VmCode.Vm.constructor | kalloc.c:46-53 | before freerange every managed frame is held |
| VmCode.Vm.Kalloc | kalloc.c:79-95 | the page released last, or 0 exactly when none is free; frames are conserved |
| VmCode.Vm.Kfree | kalloc.c:55-77 | the page, filled with junk, goes to the front of the list; panics exactly for an address that is no managed page |
| VmCode.Vm.Freerange | kalloc.c:46-53 | exactly the whole pages of the range become free |
| VmCode.Vm.Walkpgdir | vm.c:32-55 | the table for the address, making one if asked, under a directory entry that is writable and open to user mode; changes no mapping; 0 exactly when it is missing and not asked for or not to be had |
| VmCode.Vm.MapOne | vm.c:68-78 | one page mapped and nothing else; panics only for a page mapped already, fails exactly for want of a table |
| VmCode.Vm.Mappages | vm.c:57-80 | a range mapped to consecutive frames, page by page, all of it unless memory runs out; tables made are exactly those needed |
| VmKernel.KernelMap | vm.c:103-115 | the four rows of kmap together map physical memory above KERNBASE, read-only from EXTMEM to the kernel's data, and the devices to themselves |
| VmKernel.RowsApart | vm.c:110-115 | the rows do not overlap, so mapping them cannot panic |
| VmKernel.TabsInUse | vm.c:117-136 | how many tables a directory has, from which of its entries are in use |
| VmCode.Vm.Setupkvm | vm.c:117-136 | a directory with exactly the kernel's mappings if and only if 65 frames are free, each frame at its place above KERNBASE, none of it open to user mode and the kernel's text not writable; otherwise 0 and every frame given back; no owned page touched |
| VmAccess.KernelBits | vm.c:103-115 | what the kernel's half allows: nothing in user mode, and no writing of kernel text |
| VmCode.Vm.FreePage | vm.c:269-276 | the frame of a mapped page freed and its entry cleared, nothing else unmapped |
| VmCode.Vm.Deallocuvm | vm.c:251-279 | terminates for oldsz <= KERNBASE; exactly the pages from newsz to oldsz are unmapped and their frames freed, everything else stays mapped and unchanged |
| VmCode.Vm.Freevm | vm.c:281-298 | gives back exactly the frames the directory owned, each once; pages that still have an owner are untouched, and the kernel's half stays closed to user mode in every directory |
| VmCode.Vm.AllocOne | vm.c:234-246 | one zeroed page added, or nothing mapped and the page left to free |
| VmCode.Vm.Allocuvm | vm.c:219-249 | succeeds if and only if there are frames for the pages and the tables missing; then zeroed pages of their own, readable and writable in user mode by both levels of the table, are added from oldsz to newsz, and what is allowed at every other page stays; failure gives every page back, leaving all earlier mappings and at most new tables; the kernel's half stays private |
| VmAccess.GrewAllowed | vm.c:241 | the pages added are open to reading and writing in user mode, and for all other pages of the directory the same is allowed as before |
| VmAccess.PrivateNew | vm.c:117-136 | a new directory with the kernel's half leaves no kernel page open to user mode anywhere |
| VmAccess.GoneKernel | vm.c:281-298 | when a directory goes, the others keep the kernel's half as it was |
| VmSteps.PagesIff | vm.c:232-233 | the pages of a size are those that start below it |
| VmUser.GrewCountNext | vm.c:233-246 | page by page, the frames left and the tables there are; where a table cannot be had, growing needs more frames than there were |
| VmUser.TabsAdd | vm.c:44-53 | a directory that gains one table has exactly one more in use |
| VmCode.Vm.GiveBack | vm.c:235-245 | the error exits of allocuvm leave no added page mapped or owned |
| VmUser.LeaksIff | vm.c:325-337 | the free-frame counts at which a copy runs out just after taking a page whose table is missing, in closed form |
| VmUser.NoLeak | vm.c:325-337 | a copy that runs out at any other point is not at such a count |
| VmUser.LeakExample | vm.c:335-336 | 66 free frames and one page to copy is such a case; 65 and 67 are not |
| VmLeak.CopyLosesPage | vm.c:313-343 | boot, setupkvm, allocuvm of one page and copyuvm on a machine of 133 frames end with one frame held that nobody has |
| VmUser.CopyDisjoint | vm.c:315-338 | each frame of a copy belongs to one page of the child and to nothing that was there before |
| VmCode.Vm.CopyOne | vm.c:325-337 | one page copied to a new frame with the same flags, or the point at which memory ran out |
| VmCode.Vm.Copyuvm | vm.c:313-343 | succeeds iff enough frames are free, then every page below sz has the same bytes and flags on new frames, the child is allowed at each exactly what the parent is, and nothing of the kernel's half; no owned page changes in any case; a failing copy gives everything back if and only if Leaks does not hold, else it loses one frame |
| VmAccess.CopyAllowed | vm.c:330-336 | by both levels of the tables the child may do at each copied page what the parent may, and elsewhere what setupkvm allows |
| VmCode.Vm.Growproc | proc.c:155-175 | the mapped pages are those below the size afterwards if and only if a process is not shrunk to size 0; growing succeeds iff there are frames for it, and the new pages are readable and writable in user mode; the kernel's half stays private |
| Sleep.StepInv | proc.c:415-474 | every step of any clients, through either branch of sleep, keeps the invariant that ties each process's place, the locks, and the conditions made true under them |
| Sleep.NoLostWakeup | proc.c:415-452 | in every run, for every lock lk (ptable.lock included) and channel, from a process's finding its condition false under lk to its being woken no wakeup of the channel is made under lk: none is lost |
| Sleep.WakeupWakesAll | proc.c:454-474 | in every run a wakeup of a channel under lk leaves nobody waiting for a condition of that channel under lk, neither asleep nor between test and sleep |
| Sleep.NobodyStuck | proc.c:415-474 | in every run of clients that wake what they make true, while nobody holds lk nobody waits for a condition under lk that is true |
| Sleep.SleepReturnsLocked | proc.c:447-451 | in every run a process that called sleep is in it still or has returned with the lock it gave held again, ptable.lock included |
| Sleep.LostWithoutLock | proc.c:429-437 | a run in which a wakeup made without the lock is lost, so holding it is what the promise takes |
| SleepLocks.Beneath | sleeplock.c:22-42 | every run of acquiresleep and releasesleep, with processes doing anything else besides, is a run of sleep and wakeup beneath |
| SleepLocks.StepInv | sleeplock.c:22-42 | every step keeps: the condition waited for is that the lock is free, its holder is recorded, and the spinlock is held where the code needs it |
| SleepLocks.OneHolder | sleeplock.c:22-32 | in every run a sleep lock has at most one holder |
| SleepLocks.NobodyStuck | sleeplock.c:34-42 | in every run, when a sleep lock and its spinlock are free nobody waits for it |
| SleepLocks.NeverBlocked | sleeplock.c:22-42 | in every run, outside sleep and wakeup only a spinlock another process has can hold up acquiresleep or releasesleep |
| ProcCode.Ptable.Wakeup1 | proc.c:454-465 | exactly the processes sleeping on the channel become runnable; a Wakeup step of the state machine |
| ProcCode.Ptable.Allocproc | proc.c:79-92 | the first unused slot becomes an embryo with a new pid, a ForkAlloc step of the state machine; -1 exactly when no such step is possible |
| ProcCode.Ptable.Exit | proc.c:250-266 | the loop with its nested wakeups is an Exit step of the state machine; init panics |
| ProcTable.ExitedSlot | proc.c:250-266 | slot by slot: who is woken, whose parent becomes init, who becomes a zombie |
| ProcCode.Ptable.Wait | proc.c:270-312 | reaps the first zombie child if there is one, a Reap step of the state machine; else returns -1 if and only if there is no child or the caller is killed, else a WaitSleep step; none of these steps is possible otherwise |
| ProcCode.Ptable.Kill | proc.c:476-497 | the first slot with the pid is marked and not asleep afterwards, a Kill step of the state machine; -1 exactly when there is none |
| ProcCode.Ptable.Pick | proc.c:333-344 | the next runnable slot becomes running, none before it was runnable; a Sched step of the state machine |
| ProcRuns.StepInv | proc.c:180-392 | every step of fork, exit, wait, sleep, wakeup, kill, yield and scheduling keeps the invariant |
| ProcRuns.LiveParent | proc.c:250-266 | in every run every process but init, dead or alive, has a parent that is alive |
| ProcRuns.NoSleepOverZombie | proc.c:270-312 | in every run nobody sleeps in wait with a zombie child, without a child, or killed |
| ProcRuns.PidsUnique | proc.c:293 | in every run no two slots share a pid other than 0 and none has that of a process already collected, so kill hits the process it names or nobody |
| ProcRuns.AsleepIff | proc.c:418-490 | after a step a process is asleep if and only if it has just called sleep, or was asleep and the step is no wakeup of its channel, no exit that wakes it and no kill of it; who is woken becomes runnable |
| ProcRuns.KillWakes | proc.c:485-492 | a kill leaves its process marked and not asleep, runnable exactly if it slept or was runnable, with pid, parent and channel unchanged, and everything else as it was |
| ProcRuns.KilledGetsToRun | proc.c:487-490 | in every run a killed process that is asleep has called sleep since the kill |
| ProcRuns.RunningOnOneCpu | proc.c:322-392 | in every run a process is running iff a CPU has it, and then only one does |
| ProcRuns.ReapedOnce | proc.c:270-312 | in every run each exited process is collected at most once, and is there as a zombie until then |
| ProcRuns.KilledIff | proc.c:476-497 | between two reapings a slot is marked killed if and only if it was before or a kill has hit it, in use or not; so a child starts unkilled iff no kill has hit its slot since it was last reaped |
| ProcRuns.BornKilled | proc.c:484-492 | a run in which kill(0) hits an unused slot and the next child is killed before it has run |
| ProcRuns.Lifecycle | proc.c:180-312 | a run from fork through a sleep in wait, the child's sleep, wakeup and exit, to its being collected |
| Pipe.Ring.Put | pipe.c:93 | adds one byte at the end, across the wrap of the buffer and of the 32-bit counter |
| Pipe.Ring.Get | pipe.c:116 | takes the first byte, likewise |
| Pipe.Ring.Write | pipe.c:78-98 | until it returns or sleeps, writes as many bytes as fit, in order; it returns if and only if all are written, and otherwise leaves the pipe full, failing exactly if nobody can read or the process is killed; who is woken |
| Pipe.Ring.Read | pipe.c:100-121 | reads the first min(n, pending) bytes; it does not return if and only if the pipe is empty with an open writer, and then fails exactly if the process is killed; who is woken |
| PipeRuns.Fifo | pipe.c:78-121 | in every run with any readers, writers, kills and closes, bytes read are a prefix of bytes written and at most PIPESIZE are pending |
| PipeRuns.WholeWrite | pipe.c:84-97 | in every run, of what a call of pipewrite was given a beginning is in the pipe or through it, in order, nothing skipped or repeated, whoever else writes; all of it if the call has returned, not all if it failed, and while it goes on its process has exactly the rest to write |
| PipeRuns.EndOfFile | pipe.c:106-120 | in every run a read of at least one byte that returned none means a closed writing end and everything ever written read |
| PipeRuns.WriterEnds | pipe.c:84-97 | a stretch of pipewrite returns exactly if the rest fits, else fills the pipe and fails exactly if nobody can read or the process is killed, and sleeps otherwise |
| PipeRuns.ReaderEnds | pipe.c:106-120 | a stretch of piperead on an empty pipe with an open writer fails if the process is killed and sleeps if not; otherwise it returns what there is |
| PipeRuns.SleepingWriter | pipe.c:84-112 | in every run a sleeping writer means a full pipe with an open reader and bytes left to write, a sleeping reader an open writing end, and neither is killed |
| PipeRuns.Transfers | pipe.c:78-121 | for every sequence of bytes there is a run on which the call that writes it returns and all of it is read, in order; with more than PIPESIZE bytes the writer sleeps on the way |
| PipeRuns.ReadersOkIff | pipe.c:85-92 | a step leaves every sleeping reader on an empty pipe with an open writer if and only if it is not a killed writer leaving a full pipe over a sleeping reader |
| PipeRuns.ReadersOkRun | pipe.c:106-112 | so on every run without such a step |
| PipeRuns.NotBothAsleep | pipe.c:78-121 | on those runs readers and writers never wait for each other |
| PipeRuns.AbandonedReader | pipe.c:86-88 | a run with such a step, at whose end a reader sleeps on a full pipe |
| ShellModel.Tok | sh.c:265-308 | a word token is a maximal run of word characters, and every token but the end moves the cursor |
| ShellCode.Parser.Gettoken | sh.c:265-308 | the scanning loops find the token Tok |
| ShellCode.Parser.PeekFor | sh.c:310-320 | whether the next token starts with one of the characters |
| ShellCode.Parser.Parseredirs | sh.c:374-397 | the loop finds the redirections of the grammar, or its panic |
| ShellCode.Parser.Parsewords | sh.c:426-446 | the loop over words and redirections is the grammar's, with both panics |
| ShellCode.Parser.Parseexec | sh.c:399-446 | terminates on every text; the result is the grammar's, for words and for parentheses |
| ShellCode.Parser.Parsepipe | sh.c:361-372 | likewise for pipelines |
| ShellCode.Parser.Parseline | sh.c:344-359 | likewise for lines, with its loop over & |
| ShellCode.Parser.Parsecmd | sh.c:327-342 | likewise for a whole command, nothing being left over |
| ShellText.LineWords | sh.c:344-446 | every word and file name of a parsed command is a maximal run of word characters |
| ShellText.Nulterminate | sh.c:448-493 | exactly the character after each word and file name becomes NUL |
| ShellText.ReadsBack | sh.c:448-493 | after that each word and file name reads back as exactly its token |
| ShellText.SeesMeaning | sh.c:448-493 | read as the strings now in the buffer, word by word and file name by file name, the parsed command is what the text means |
| ShellText.Parsecmd | sh.c:327-342 | on the buffer: succeeds if and only if the text is a phrase of the grammar, and then the command with its words as strings in place is what the phrase means; else the text is untouched |
| ShellGrammar.WrapAround | sh.c:380-395 | the redirections of a command, wrapped one after the other, nest with the last one outermost |
| ShellGrammar.ItemsFound | sh.c:431-442 | any words with any redirections among them are parsed to those words and redirections in order |
| ShellGrammar.PrimFound | sh.c:399-446 | a command or parenthesised line with its redirections is parsed as what it means, whatever may follow it |
| ShellGrammar.LineFound | sh.c:344-372 | likewise a line of pipelines with any number of & after each and ; between them |
| ShellAccepts.LineSound | sh.c:344-446 | whatever the parser accepts is a phrase of the grammar, token by token |
| ShellAccepts.Accepts | sh.c:327-342 | for every text, the parser accepts it if and only if its tokens are a phrase of the grammar; every other text panics |
| ShellAccepts.Means | sh.c:327-446 | for every text, whatever its blanks, the command built is what its phrase means: redirections nest with the last outermost, pipes and lists to the right, and & applies to the pipeline before it |
| ShellPrint.ScanSpell | sh.c:265-308 | every sequence of tokens, words being any characters but blanks, symbols and NUL, is scanned back from its spelling |
| ShellPrint.Unambiguous | sh.c:344-446 | phrases with the same tokens mean the same command |
| ShellPrint.RoundTrip | sh.c:327-446 | parsing the print of any command tree with legal words and fewer than MAXARGS arguments gives that tree |
| ShellPrint.ChainExample | sh.c:386-392 | a > x > y is the redirection to y around that to x |
| ShellPrint.BackListExample | sh.c:350-357 | c & ; d is a list of c in the background and d |
| ShellAppend.AppendIsTruncate | sh.c:387-392 | any text with a >> parses as the same text with > and a blank there: to the same command, words in the same places, or the same panic |
| ShellAppend.TokSame | sh.c:288-294 | the two texts scan to the same tokens in the same places, but for the one symbol |
| ShellAppend.InputIffLess | sh.c:384-386 | wherever redirections begin in whatever text, the first is an input if and only if < begins it |
| ShellAppend.AppendExample | sh.c:390-392 | a>>b is an output redirection of a to b |
| Grep.Match | grep.c:72-82 | true iff the text splits into prefix, part in the pattern's language and suffix; ^ wants no prefix, a final $ no suffix |
| Grep.MatchHere | grep.c:84-96 | true iff a beginning of the text is in the language, the whole text for a final $ |
| Grep.MatchStar | grep.c:98-106 | true iff zero or more fitting characters and then a match of the rest begin the text |

## Left out

- Directories, paths and link counts (fs.c:517-671, sysfile.c), the inode cache and its locking (fs.c:160-361): inodes are taken as already locked; a directory's records are bytes.
- Devices behind readi and writei (fs.c:459-463, 488-492): only files on disk are modelled.
- Real disks, the network add-on, console, traps, system calls, boot and exec: device and assembly code, which would add no hard property. memide.c is the disk.
- Memory ordering and the xchg loop of spinlock.c: acquire and release are atomic steps; swtch is the hand-over of ptable.lock.
- Liveness: the runs prove that nobody is left asleep wrongly, not that the scheduler is fair.
- 32-bit overflow of nextpid and of the shell's and grep's pointers: they are unbounded numbers here.
- BufferCache.Bcache.Bread: demands that the buffer's sleeplock is free, since its wait for it is in CacheRuns, not in the sequential code.
- BufferCache.Bcache.Brelse: demands a reference on a locked buffer, which CacheRuns keeps in every run.
- LogCode.Log.Commit: other processes may hold buffers all along, but take and release none while it runs, and none has a logged block locked or refers to the log area; the interleaving of their steps with its own is in CacheRuns.
- LogCode.Log.RecoverFromLog: demands that nobody uses the cache, as at boot.
- LogCode.Log.Update: demands a held buffer of a block outside the log area.
- LogCode.Log.BeginOp: the sleep on the log and the wakeups end_op makes for it are an instance of Sleep that is not spelled out.
- LogCode.Log.ReadHead: demands a header that lists no more than LOGSIZE blocks, which every run keeps; the C code would overrun its array.
- FsCode.FileSystem.Bmap: demands a block the file has, the next one, or one past MAXFILE; writei and readi ask for no other.
- FsCode.ChunkLargest: about the count Dirtied, which writei never exceeds; no disk on which writei reaches LOGSIZE is exhibited, and one needs a bitmap block per allocated block.
- FsCode.FileSystem.Balloc: the cache and log under it are the seq fields it updates; `logged` is the set of blocks given to log_write.
- Mkfs.Image.Iappend: an image that runs out of blocks counts as a failure; mkfs.c itself would write on past FSSIZE.
- Mkfs.Image.Ialloc: likewise past NINODES.
- Malloc.Heap.Free: demands a block that malloc returned, as C does.
- Malloc.Heap.Malloc: demands nbytes <= 0x7ffffff0, which is exactly where Malloc.SizeArithmetic has the request right; beyond it the block is too small or sbrk is asked to shrink. What sbrk would answer is a parameter.
- VmAccess.GrewAllowed: the accessed and dirty bits the hardware sets in entries are not modelled.
- VmCode.Vm.Copyuvm: sequential, like all of VmCode: no other CPU takes or frees a page while it runs, so Leaks speaks of the pages free when it starts.
- VmCode.Vm.Kfree: demands that the page is not on the free list already, which the code does not test.
- VmCode.Vm.Mappages: demands that the user pages it maps get frames their caller holds, a nonempty range and no wrap of the address.
- VmCode.Vm.Deallocuvm: demands oldsz <= KERNBASE; above that the jump over a missing table can wrap to address 0.
- inituvm, loaduvm, clearpteu, copyout, switchuvm (vm.c): they would add only easy members.
- acquiresleep, releasesleep and sleep (sleeplock.c, proc.c): steps of the machines in Sleep and SleepLocks, not methods, since their loops wait for other processes.
- Sleep.NobodyStuck: about conditions whose clients wake the channel under the lock before they let it go; a client that promises nothing is covered by Sleep.NoLostWakeup alone.
- ProcCode.Ptable.Wait: freeing the kernel stack and address space of the child is in VmCode, not here.
- ProcRuns.StepInv: fork, exit and wait are steps between taking and releasing ptable.lock; the parts of fork outside it are steps of their own.
- Pipe.Ring.Write: the loop is cut where it sleeps; PipeRuns puts the stretches together.
- ShellCode.Parser.Parsewords: redirections are collected in order and wrapped around the finished exec node, where the C code wraps first and fills the node through a second pointer.
- runcmd and main of sh.c, and grep's buffering loop: system-call plumbing.
