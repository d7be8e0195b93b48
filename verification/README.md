# A verified model of the kernel and tools

This project models the parts of an x86 teaching kernel (xv6 with double-indirect
files, lazily grown heaps, `dup2` and `freemem`) and of two POSIX stream tools in
which the hard promises lie, and proves those promises.  Code that changes state is
a class or a method with loops, proved against a specification; protocols between
processes are state machines with one step for each lock operation or disk write,
and their properties are stated over every run.

* **Write-ahead log** (`LogDisk`, `LogCode`, `LogSystem`, `LogSafety`, `LogProgress`,
  `SmallLog`).
  `LogDisk` gives the meaning of a disk with a log and shows that commit and recovery
  can be cut off after any write.  `LogCode` is the code of log.c over a buffer cache.
  `LogSystem` is the whole concurrent machine: operations, buffers, locks, group
  commit, crashes and recovery, over NBUF buffers; `LogSafety` proves its invariant and
  what follows for every run.  `LogProgress` shows that operations get their work to the
  disk, and `SmallLog` has the runs that exhaust the log or the buffers.
* **Buffer cache** (`BufferCache`): the doubly linked ring of bio.c.
* **Files** (`FsTree`, `FsBitmap`, `FsGrow`, `FsWrite`, `FsBudget`, `FsTrunc`,
  `FsCode`, `FsRuns`, `FsLog`): block trees in real disk blocks, a bitmap in real bytes,
  files as flat byte sequences on top, and the log space that a write needs.
* **User heap** (`Umalloc`).
* **Memory** (`VmTree`, `VmMoves`, `VmCount`, `VmCode`, `VmUser`, `VmProcess`,
  `VmRuns`, `VmMachine`): page tables in physical frames with an owner for every frame,
  the page allocator, how many frames each operation needs, the image of its memory that
  a process sees, and any number of processes at work on one memory.
* **Sleep locks and pipes** (`SleepLock`, `LockProgress`, `Pipe`, `PipeCalls`), **open
  files** (`FileRefs`).
* **Shell parser** (`ShellLex`, `ShellGrammar`, `ShellCode`, `ShellStrings`,
  `ShellPrint`, `ShellAccept`), **grep** (`Grep`), **split_files and merge_files** (`Streams`,
  `StreamsCode`, `StreamsRoundTrip`).

## Where the code falls short

Several promises hold only under a condition.  Each of these is stated as a lemma with
the exact condition, or with a run that breaks the promise.

* The log needs more than LOGSIZE blocks, because its first block is the header
  (`SmallLog.LogSizeNeeded`); mkfs gives it LOGSIZE.  With fewer, an operation within
  its budget can panic, and two operations can overrun the slots.
* A group of NBUF blocks pins every buffer, and commit panics before its first write
  (`LogCode.Log.Commit`, `LogSafety.FullGroupStuck`).  NBUF is LOGSIZE, so with a log of
  any size three operations within their budgets can bring this about
  (`SmallLog.NoSizeServes`).  Given more than LOGSIZE blocks, the system panics exactly
  when log_write meets a list of LOGSIZE blocks or bread meets NBUF pinned buffers
  (`LogSafety.LogSpaceSuffices`).
* An operation that has logged MAXOPBLOCKS blocks panics when it logs one of them again
  while the list is full, although that would take no more room
  (`SmallLog.AbsorptionPanics`); a full list means that every operation in progress has
  used its whole budget (`LogSafety.FullLogUsesBudgets`).
* `itrunc` panics exactly when the double-indirect block lists anything
  (`FsCode.FileSystem.Itrunc`), which every file beyond the single index block has.
* `malloc` of nearly 2^32 bytes wraps to a block that is too small, and from
  2^31 - 15 bytes on `sbrk` gets an argument that is not positive (`Umalloc.EnoughUnits`,
  `Umalloc.SbrkArgument`); the heap is broken exactly when such a request finds no free
  block that is large enough (`Umalloc.Heap.Malloc`).
* `sbrk` lets a process grow beyond KERNBASE, and around 2^32
  (`VmProcess.Process.SysSbrk`).  For a process larger than KERNBASE `fork` panics
  exactly when there are frames enough to get that far (`VmProcess.Process.Fork`), and
  shrinking into user memory always panics (`VmMoves.ShrinkToUser`,
  `VmProcess.SbrkAndBack`).  Shrinking from one size above KERNBASE to another panics,
  frees a frame that the kernel maps for itself, or is fine, as `VmMoves.ShrinkFate` says.
* `fork` leaves the child whatever guard-page address its slot held; the child's page
  faults are right exactly when that is the parent's address (`VmRuns.ForkGuard`).
  A process that shrinks below its guard page and grows over it again loses that page
  (`VmRuns.GrowthGuard`).  Giving back the whole process with `sbrk` returns -1 after
  the pages are gone.
* A killed pipe writer can leave a full pipe behind with its reader asleep
  (`Pipe.KilledWriter`); a reader sleeps on anything but an empty, open pipe exactly as
  long as no wakeup follows and the pipe is not emptied (`Pipe.SleepingReader`,
  `Pipe.MissedExactly`).
* `split_files` drops what is left in its buffers when the last read was full
  (`StreamsRoundTrip.SplitThenMerge`), and a buffer of t bytes is too small for
  `merge_files` except for one file, or two files and an even t
  (`StreamsRoundTrip.BufferSuffices`).

## Model

| member | source | states |
|---|---|---|
| `LogDisk.DecodeEncode` | xv6/log.c:86-113 | the header block written for a list of home blocks has their number and then the list in its first words, keeps the rest, and reads back as that list |
| `LogDisk.RecoveryCrash` | xv6/log.c:116-122 | after any prefix of recovery's writes the home blocks still mean what they meant before, so recovery may crash any number of times; when it completes the log is empty and the home blocks hold that meaning |
| `LogDisk.CommitPoint` | xv6/log.c:193-202 | the one header write turns the meaning of all home blocks from the old one to the whole group's |
| `LogDisk.CommitCrash` | xv6/log.c:193-202 | after any prefix of commit's writes the home blocks mean the old state or the whole group, never a mix, and which of the two depends only on the header write; a complete commit has installed the group and emptied the log |
| `LogCode.Log.constructor` | xv6/log.c:53-67 | after initlog, on any disk that an earlier run may have left, the home blocks are exactly what was committed, the log is empty, nothing is dirty, and the disk has seen exactly the recovery trace |
| `LogCode.Log.Bread` | xv6/bio.c:62-106 | fails exactly when the block is not cached and every buffer is dirty or held; otherwise returns cached contents before disk contents, and no dirty or held buffer is lost |
| `LogCode.Log.MakeRoom` | xv6/bio.c:78-92 | recycling drops one clean buffer that is not held, and fails exactly when there is none |
| `LogCode.Log.Bwrite` | xv6/bio.c:110-116 | one atomic disk write of the buffer, which is clean afterwards |
| `LogCode.Log.Room` | xv6/bio.c:78-92 | while fewer than NBUF blocks are logged a read of any block finds a buffer |
| `LogCode.Log.NoRoom` | xv6/bio.c:78-92 | with NBUF logged blocks no other block can be read |
| `LogCode.Log.WriteHead` | xv6/log.c:102-113 | writes exactly the header block, encoding the in-memory list |
| `LogCode.Log.ReadHead` | xv6/log.c:86-96 | the in-memory list becomes the one on disk |
| `LogCode.Log.WriteLog` | xv6/log.c:178-190 | the cached contents of the logged blocks, and nothing else, go to the slots in order, or it panics for want of a buffer exactly with NBUF blocks |
| `LogCode.Log.InstallTrans` | xv6/log.c:70-82 | every slot goes to its home block, in order, and no buffer is dirty afterwards |
| `LogCode.Log.Commit` | xv6/log.c:193-202 | the disk sees exactly the write trace whose crash safety CommitCrash states; panics exactly with NBUF logged blocks, before the first write |
| `LogCode.Log.BeginOp` | xv6/log.c:126-141 | an operation gets in exactly when the list and a full budget for it and every operation in progress fit into LOGSIZE |
| `LogCode.Log.EndOp` | xv6/log.c:146-175 | the last operation commits the whole group, with exactly commit's trace; any other changes nothing but the count |
| `LogCode.Log.RecoverFromLog` | xv6/log.c:116-122 | the disk sees exactly the write trace whose crash safety RecoveryCrash states |
| `LogCode.Log.LogWrite` | xv6/log.c:214-233 | panics exactly on a full log or with no operation in progress; otherwise the block is in the list once and pinned, and a block already there is absorbed |
| `LogSafety.StepSafe` | xv6/log.c:126-233 | every step of the concurrent machine keeps the invariant, and changes what recovery would restore only at commit's header write |
| `LogSafety.CrashSafety` | xv6/log.c:69-202 | in every state of every run, with crashes anywhere and inside recovery any number of times, the home blocks mean the value of each block at the last committed group or, before any, at the start |
| `LogSafety.RecoveryRestores` | xv6/log.c:116-122 | when recovery has cleared the log the home blocks on disk are exactly those values and bread returns them |
| `LogSafety.RunningUncommitted` | xv6/log.c:193-233 | up to the header write the disk still holds the state before the transaction, and every logged block is cached and dirty |
| `LogSafety.ReadsNewest` | xv6/bio.c:61-141 | after a block is modified, every read of it returns that modification until the next one or a crash, through all steps of all processes and of commit |
| `LogSafety.AtomicGroups` | xv6/log.c:69-233 | in every state of every run with crashes, for every home block: recovery would restore exactly the committed contents and bread returns exactly the newest ones, where a modification sets the newest, the commit point makes all newest contents the committed ones, and a crash makes the committed ones the newest |
| `LogSafety.NothingPending` | xv6/log.c:145-175 | in every state of every run in which the system serves and no operation is in progress, the list is empty and every modification since the last crash is committed: the newest and the committed contents of every home block are equal, and on disk |
| `LogProgress.CanFinish` | xv6/log.c:116-202 | from every such state of every run without an operation in progress or a buffer in use, recovery or a commit of fewer than NBUF blocks can run to its end without a crash or a panic, and then the disk has what bread returned before |
| `LogProgress.OperationServed` | xv6/log.c:126-233 | whenever the system is at rest, any process can change any home block by one operation, and the commit it starts can run to its end with exactly that block changed on disk |
| `LogSafety.CheckPasses` | xv6/log.c:218-221 | the test of log_write made outside the lock does not panic for an operation that has logged fewer than MAXOPBLOCKS blocks |
| `LogSafety.FullLogUsesBudgets` | xv6/log.c:126-141 | when the list is full every operation in progress has logged MAXOPBLOCKS blocks |
| `LogSafety.PanicsExactly` | xv6/bio.c:62-93 | of all steps exactly two kinds panic: log_write with a list of LOGSIZE blocks, and bread of an uncached block with NBUF pinned buffers |
| `LogSafety.LogSpaceSuffices` | xv6/log.c:126-233 | over every interleaving with a log of more than LOGSIZE blocks: the list plus all unused budgets is at most LOGSIZE, the list fits the slots, at most NBUF buffers are in use, committing implies no operation outstanding, and a state is a panic if and only if the step into it exhausts the list or the buffers |
| `LogSafety.SmallGroupsServe` | xv6/bio.c:78-92 | a run in which logged blocks and buffers in use stay below NBUF never panics |
| `LogSafety.FullGroupStuck` | xv6/log.c:178-190 | in front of the first slot of a group of NBUF blocks no step gets further and every bread of an uncached block panics |
| `LogSafety.FullGroupLost` | xv6/log.c:178-202 | a group of NBUF blocks is never committed: nothing more reaches the disk until the next crash |
| `SmallLog.SmallLogPanics` | xv6/log.c:218-219 | with at most LOGSIZE log blocks an operation with budget left can panic although the list is shorter than LOGSIZE |
| `SmallLog.SmallLogOverruns` | xv6/log.c:218-230 | with at most LOGSIZE log blocks two operations pass the unlocked test together and the list outgrows the slots |
| `SmallLog.AbsorptionPanics` | xv6/log.c:218-230 | with more than LOGSIZE log blocks an operation can panic on logging again one of its own MAXOPBLOCKS blocks |
| `SmallLog.FullGroupPanics` | xv6/log.c:178-190 | with more than LOGSIZE log blocks three operations within their budgets can end with NBUF logged blocks, no buffer in use, and a panic at the first slot |
| `SmallLog.NoSizeServes` | xv6/param.h:11-12 | for every size of the log some run of operations within their budgets panics |
| `SmallLog.LogSizeNeeded` | xv6/mkfs.c:25 | the list fits the slots and every panic comes from a list of LOGSIZE blocks or NBUF pinned buffers, in all runs, if and only if the log has more than LOGSIZE blocks |
| `BufferCache.Unlink` | xv6/bio.c:132-133 | the two pointer writes take one buffer out of a well-linked ring and leave a well-linked ring of the others |
| `BufferCache.LinkFront` | xv6/bio.c:134-137 | the four pointer writes put a buffer behind the head of a well-linked ring |
| `BufferCache.Bcache.constructor` | xv6/bio.c:38-56 | the ring holds the head and every buffer once, next and prev inverse |
| `BufferCache.Bcache.Find` | xv6/bio.c:69-76 | the scan finds a buffer with the block if there is one |
| `BufferCache.Bcache.FindIdle` | xv6/bio.c:81-91 | the scan finds, of the buffers without references and clean, the one released longest ago, or that there is none |
| `BufferCache.Bcache.Bget` | xv6/bio.c:61-93 | a cached block is found and counted; otherwise the least recently released idle buffer is recycled; panics exactly when neither exists; no block of a device is ever in two buffers, and the ring is unchanged |
| `BufferCache.Bcache.Brelse` | xv6/bio.c:120-141 | one reference less; with the last one the buffer becomes the most recent, and the ring stays well linked with every buffer once |
| `FsTree.PathsDistinct` | xv6/fs.c:375-474 | file block numbers below MAXFILE and data positions of the index tree correspond one to one |
| `FsTree.AddrWords` | xv6/fs.c:375-474 | the block of file block bn is the one that the raw words name: one of the inode's first eleven, one of the 128 in the block its twelfth names, or one of the 128 in a block that the block of its thirteenth names |
| `FsTree.LinkAddr` | xv6/fs.c:401-404 | hanging a new zeroed block into the tree fills its own position and no other position of any inode |
| `FsTree.LinkOwned` | xv6/fs.c:375-474 | after an allocation every allocated block is owned by exactly one position of exactly one inode |
| `FsTree.LinkRaw` | xv6/fs.c:375-474 | an allocation changes no byte of any file |
| `FsTree.StoreRaw` | xv6/fs.c:625-631 | bytes stored in a data block are the bytes of one block of one file and of no other |
| `FsBitmap.SetBitAt` | xv6/fs.c:66-68 | marking a block used changes the bit of that block and of no other |
| `FsBitmap.ClearBitAt` | xv6/fs.c:89-93 | clearing a block changes the bit of that block and of no other |
| `FsBitmap.BitOf` | xv6/fs.c:64-68 | the bit of block b is bit b mod 8, from the lowest, of byte b / 8 |
| `FsCode.FileSystem.Balloc` | xv6/fs.c:56-78 | the first free block, marked and zeroed; fails exactly when all are used |
| `FsCode.FileSystem.Bfree` | xv6/fs.c:81-96 | clears the block's bit, or panics exactly on a block that is already free |
| `FsCode.FileSystem.EnsureRoot` | xv6/fs.c:381-387 | one of the inode's own addresses is there afterwards, newly allocated only if it was missing |
| `FsCode.FileSystem.EnsureEntry` | xv6/fs.c:397-406 | the entry of an index block is there afterwards, newly allocated and the index block logged only if it was missing |
| `FsCode.FileSystem.BmapSingle` | xv6/fs.c:390-407 | the block that the single index block's raw word names, with single ownership of every block kept |
| `FsCode.FileSystem.BmapDouble` | xv6/fs.c:418-470 | the block that the raw words of the double index block and of the one below it name, with single ownership of every block kept |
| `FsCode.FileSystem.Bmap` | xv6/fs.c:375-474 | returns the block that the raw words of inode and index blocks name for bn, keeps single ownership and all file bytes, allocates only on that position's path, changes nothing if the block was there, and panics only out of range or on a full disk |
| `FsCode.FileSystem.WriteBlocks` | xv6/fs.c:625-631 | the copy loop writes exactly the given bytes of the one file |
| `FsCode.FileSystem.Writei` | xv6/fs.c:608-638 | the file becomes its old contents with the new bytes spliced in, no other file changes, no block below the size is missing, the inode block is logged last; a write past the end, with wrap-around, or beyond the largest file is refused and changes nothing |
| `FsCode.FileSystem.Readi` | xv6/fs.c:579-603 | returns exactly the file's bytes from the offset on, across all three kinds of blocks, and allocates nothing |
| `FsWrite.WriteContents` | xv6/fs.c:608-638 | a finished write is a splice of the flat contents |
| `FsWrite.SpliceSplice` | xv6/file.c:135-152 | writing in consecutive chunks is writing at once |
| `FsWrite.SpliceAt` | xv6/fs.c:625-631 | which byte is where, and how long the file is, after a write |
| `FsWrite.ContentsAt` | xv6/fs.c:590-601 | byte o of a file is byte o mod 512 of the block that the raw words name for file block o / 512 |
| `FsBudget.MissingFew` | xv6/file.c:127-152 | at most five positions on the paths of a chunk are without a block |
| `FsBudget.ChunkBudget` | xv6/file.c:127-152 | a chunk allocates at most five blocks, logs at most seven data and index blocks, and stays within MAXOPBLOCKS if it touches at most two bitmap blocks |
| `FsBudget.ChunkFits` | xv6/file.c:127-152 | the same for all that the chunk's transaction logs, the inode block included, and each single log_write finds fewer than MAXOPBLOCKS blocks logged |
| `FsCode.FileSystem.WriteChunk` | xv6/file.c:140-145 | one transaction of filewrite, with what it logs within that budget |
| `FsCode.FileSystem.Filewrite` | xv6/file.c:117-156 | a prefix of the source is spliced into the file, all of it unless a chunk is refused, and every transaction on the way is within budget |
| `FsRuns.Serve` | xv6/fs.c:481-638 | a write, read or truncation by writei, readi or itrunc does to all files together, and answers, what it does on flat byte strings; it panics only for want of a block or where Itrunc says |
| `FsRuns.ServeAll` | xv6/fs.c:481-638 | the same over any sequence of writes, reads and truncations of any files, so every byte read back is the last one written there |
| `FsRuns.ReadBack` | xv6/fs.c:579-638 | on flat byte strings a read of what was just written gives it back, and reads elsewhere do not notice |
| `FsLog.ChunkPasses` | xv6/log.c:218-221 | none of the log_writes of a chunk that touches at most two bitmap blocks panics, in any state that satisfies the log's invariant |
| `FsTrunc.GoneIsFree` | xv6/fs.c:491-510 | a block freed on the way is free in the bitmap, so freeing it again would panic |
| `FsTrunc.EmptiedOwned` | xv6/fs.c:491-510 | what itrunc reaches with an empty double-indirect tree is all that the inode owns |
| `FsCode.FileSystem.TruncDirect` | xv6/fs.c:491-496 | exactly the direct blocks are freed, without a double free |
| `FsCode.FileSystem.TruncSingle` | xv6/fs.c:500-510 | exactly the single index block and the blocks it lists are freed, without a double free |
| `FsCode.FileSystem.TruncDouble` | xv6/fs.c:518-558 | as the code has it, this part gets through exactly when the double index block lists nothing |
| `FsCode.FileSystem.Itrunc` | xv6/fs.c:481-562 | frees exactly the blocks the inode owns if its double-indirect tree is empty, and otherwise panics |
| `FsCode.LongFileNotEmpty` | xv6/fs.c:518-558 | every file longer than its direct and singly indirect blocks makes itrunc panic |
| `Umalloc.OneBlockEach` | xv6/umalloc.c:24-90 | every unit obtained from sbrk lies in exactly one free or live block, and no other unit lies in any |
| `Umalloc.FreedBlocks` | xv6/umalloc.c:33-42 | inserting a block and joining it with the neighbours it touches keeps address order, non-overlap and coverage, and leaves no two free blocks touching |
| `Umalloc.FreedRing` | xv6/umalloc.c:33-42 | the pointers still form one cycle through the free blocks in address order |
| `Umalloc.TakeWhole` | xv6/umalloc.c:76-77 | taking a free block out of the list keeps all of this |
| `Umalloc.TakeTail` | xv6/umalloc.c:78-82 | cutting the tail off a free block keeps all of this |
| `Umalloc.FreshBlock` | xv6/umalloc.c:57-59 | new memory above all else can be freed like a live block |
| `Umalloc.FreeRun` | xv6/umalloc.c:46-61 | a run of free units lies within one free block |
| `Umalloc.EnoughUnits` | xv6/umalloc.c:69 | a request gets room for its bytes exactly when rounding it up does not wrap around 2^32, and then not a unit too much |
| `Umalloc.SbrkArgument` | xv6/umalloc.c:54 | the int given to sbrk stays positive exactly up to 0x7FFFFFF0 bytes |
| `Umalloc.Heap.Search` | xv6/umalloc.c:30-32 | the walk from freep ends, at the last free block below the one being freed |
| `Umalloc.Heap.Free` | xv6/umalloc.c:24-44 | one cycle in address order, no two free blocks touching, free and live blocks partition the arena; exactly this block leaves the live ones |
| `Umalloc.Heap.Morecore` | xv6/umalloc.c:46-61 | the heap grows by exactly the units asked for, but no fewer than 4096, and some free block then has the units asked for, unless sbrk refuses, and then nothing changes; breaks the heap exactly from 2^31 bytes on |
| `Umalloc.Heap.Take` | xv6/umalloc.c:75-85 | a block of the size asked for becomes live and overlaps no other |
| `Umalloc.Heap.Malloc` | xv6/umalloc.c:63-90 | the walk ends; the result is a new live block of the rounded-up size that overlaps no live block, or null exactly if no free block is large enough and sbrk refuses; all other live blocks stay, and the heap grows exactly when no free block is large enough; the heap breaks exactly when no free block is large enough for a request of 2^31 bytes or more |
| `VmTree.AddTableEntry` | xv6/vm.c:53-66 | a new page table changes no entry of any directory |
| `VmTree.SetEntryAt` | xv6/vm.c:90-96 | writing an entry changes the entry of one virtual page of one directory and no other |
| `VmTree.AttachPage` | xv6/vm.c:90-96 | a frame that nobody owned becomes a user page with exactly one owner |
| `VmTree.DetachPage` | xv6/vm.c:301-308 | an unmapped page's frame has no owner left, and every other frame keeps its owner |
| `VmTree.DropDir` | xv6/vm.c:315-330 | letting go of one directory's frames leaves every other directory as it was |
| `VmTree.WalkBits` | xv6/vm.c:38-70 | the entry of an address is found by its bits 22 to 31 in the directory and its bits 12 to 21 in the table |
| `VmMoves.KernelLayout` | xv6/vm.c:123-137 | the kernel's mappings, address by address: which are there, what they map to, and that only the kernel's text is read-only and none is open to programs |
| `VmCode.Vm.constructor` | xv6/kalloc.c:32-57 | after boot exactly the frames between the end of the kernel and PHYSTOP are free, each once |
| `VmCode.Vm.Kalloc` | xv6/kalloc.c:86-99 | the first free frame, which nobody owns; fails exactly when none is free |
| `VmCode.Vm.Kfree` | xv6/kalloc.c:62-80 | the frame is free again and no entry or user page changes |
| `VmCode.Vm.Freemem` | xv6/kalloc.c:101-138 | counts exactly the frames that are neither owned nor in hand |
| `VmCode.Vm.WalkAlloc` | xv6/vm.c:38-70 | the page table is there and all entries are unchanged, or no frame was free and nothing changed |
| `VmCode.Vm.MapUser` | xv6/vm.c:78-103 | panics exactly on a page that is mapped; without memory nothing changes; otherwise exactly this entry changes and the frame belongs to the directory |
| `VmCode.Vm.MapRange` | xv6/vm.c:78-103 | a range of kernel pages is mapped upwards, without panic over a hole, and nothing else changes but page tables of the directory |
| `VmCode.Vm.Setupkvm` | xv6/vm.c:141-163 | a new directory with exactly the kernel's mappings and no user page, exactly when 65 frames are free; otherwise every frame is back and nothing else changed; never panics |
| `VmCode.Vm.Allocuvm` | xv6/vm.c:251-279 | over unmapped pages: all of them zeroed user pages exactly when the free frames cover the pages and the missing tables, and otherwise nothing but page tables; refused sizes change nothing; frames are conserved on every path |
| `VmCode.Vm.Deallocuvm` | xv6/vm.c:287-311 | for all 32-bit sizes: exactly the mapped user pages of the range are unmapped and freed, whole missing tables skipped; panics, or frees a frame of the kernel, exactly as ShrinkFate says |
| `VmCode.Vm.Unmap` | xv6/vm.c:301-308 | the frame of a mapped user page passes the tests of deallocuvm and kfree and is free afterwards; no other entry, owner or page changes |
| `VmCode.Vm.MeetKernel` | xv6/vm.c:297-308 | above KERNBASE the first mapped page decides: kfree's panic, a frame of the kernel freed, or no mapped page at all |
| `VmMoves.ShrinkToUser` | xv6/vm.c:297-308 | shrinking to a size within user memory panics exactly from a size above KERNBASE |
| `VmCode.Vm.Freevm` | xv6/vm.c:315-330 | exactly the frames of this directory go to the free list; other directories and pages are unchanged |
| `VmCode.Vm.Copyuvm` | xv6/vm.c:347-379 | the new directory has the same bytes, rights and holes in frames of its own, exactly for a size of at most KERNBASE and free frames for the directory, its tables and the mapped pages; panics exactly for a larger size and one frame more; otherwise every frame is back and nothing else changed |
| `VmCode.Vm.ReservePage` | xv6/trap.c:41-68 | a zeroed page where there was none; fails exactly without a frame for the page and for a missing table, and then no entry, owner or page changes; panics exactly on a mapped page when a frame is free |
| `VmCount.CountNew` | xv6/vm.c:251-279 | the frames that enter a directory are as many as the tables and pages they are there for |
| `VmCount.GrowthShort` | xv6/vm.c:263-277 | a growth that has stopped has used fewer frames than the pages and missing tables it needs |
| `VmCount.GrowthFull` | xv6/vm.c:262-278 | a finished growth has used all of them |
| `VmCount.CopyShort` | xv6/vm.c:357-379 | a copy that has stopped has used fewer frames than it needs |
| `VmCount.CopyFull` | xv6/vm.c:347-374 | a finished copy has used exactly the frames it needs |
| `VmUser.LazyGrowth` | xv6/sysproc.c:113 | raising the size alone, to any 32-bit value, gives the image of eager growth |
| `VmUser.EagerGrowth` | xv6/vm.c:262-278 | mapping zeroed pages gives that same image |
| `VmUser.Unmapped` | xv6/vm.c:296-310 | unmapping from a smaller size on gives the smaller image |
| `VmUser.Touched` | xv6/trap.c:41-68 | mapping a zeroed page into a hole below the size is not seen |
| `VmUser.Poked` | xv6/trap.c:120-153 | a byte stored by the program shows in its own image and in no other process's |
| `VmUser.GuardExact` | xv6/trap.c:120-153 | page faults answer every access as the image says, and never panic, exactly when the guard field is right |
| `VmProcess.Process.Growproc` | xv6/proc.c:158-175 | eager growth of the image, exactly when the new size is below KERNBASE and the free frames suffice; a size that wraps around reports success and changes nothing; shrinking with its special cases, its panics included; no other process sees a difference |
| `VmProcess.Process.SysSbrk` | xv6/sysproc.c:91-119 | for every process and argument: image and result are those of memory that grows at once exactly when the size does not wrap around; shrinking panics, or goes astray, exactly as ShrinkFate says; from a size within user memory it always returns, and the size stays there exactly when it shrinks or ends at most at KERNBASE |
| `VmProcess.SbrkAndBack` | xv6/sysproc.c:91-119 | sbrk(n) and then sbrk(-n) panics exactly when the size was above KERNBASE in between, as with size 2 and n 2^31 - 1 |
| `VmProcess.Process.PageFault` | xv6/trap.c:120-153 | the image is unchanged; the process is killed exactly outside its size, in the kernel's part or on the guard page, and for want of memory exactly without frames enough; the kernel panics only on a mapped page |
| `VmProcess.Process.Load` | xv6/trap.c:120-153 | a read gives the byte of the image or the outcome of the fault handler's tests; it ends the process for want of memory exactly when frames are missing; the image is unchanged |
| `VmProcess.Process.Store` | xv6/trap.c:120-153 | a write changes exactly that byte of the image or has the outcome of the fault handler's tests; it ends the process for want of memory exactly when frames are missing |
| `VmProcess.Process.Fork` | xv6/proc.c:181-196 | the child's image equals the parent's in frames of its own, exactly for a size of at most KERNBASE and frames for its kernel stack and the copy; for a larger size it panics exactly when frames are there; a failed fork returns every frame; no other process sees a difference |
| `VmRuns.StepRefines` | xv6/sysproc.c:91-119 | a step, as the operations of one process promise it, keeps the memory of all processes in order and is a step of the machine whose memory grows at once, with the same reply |
| `VmRuns.LazyRefinesEager` | xv6/sysproc.c:91-119 | over every run of such steps by any number of processes the replies and the final memory are those of eager growth |
| `VmMachine.Machine.Carry` | xv6/sysproc.c:91-119 | the code of sbrk, of an access or of fork, run on one of the processes that share the memory, makes exactly such a step, or, exactly when frames are missing, nothing that any program can see |
| `VmMachine.Machine.Run` | xv6/sysproc.c:91-119 | any list of careful operations, carried out by that code until frames run out, gives the replies and leaves the memory of eager growth |
| `VmRuns.SeenWhole` | xv6/vm.c:262-278 | the image that the kernel shows of a process is made of whole pages, one for each page of its size |
| `VmRuns.StoreLaw` | xv6/trap.c:120-153 | in the machine whose memory grows at once, a byte that was stored is read back until it is stored again, and no other byte of any process changes |
| `VmRuns.BrkLaw` | xv6/sysproc.c:91-119 | there sbrk returns the old size, the new memory reads as zeros and the old memory as before |
| `VmRuns.SpawnLaw` | xv6/proc.c:181-196 | there a child reads what its parent reads, and what it stores the parent does not see |
| `VmRuns.GrowthGuard` | xv6/sysproc.c:113 | growth keeps the guard field right exactly when it does not climb over the guard address |
| `VmRuns.ForkGuard` | xv6/proc.c:194-211 | the child's guard field is right exactly when its slot held the parent's address, and otherwise touching the guard page panics |
| `SleepLock.StepInv` | xv6/sleeplock.c:22-53 | every lock step of every process keeps the invariant |
| `SleepLock.MutualExclusion` | xv6/sleeplock.c:22-42 | in every state of every run at most one process holds the sleep lock |
| `SleepLock.NoLostWakeup` | xv6/proc.c:429-486 | with the inner spinlock free and the lock not taken, no process sleeps on it or is about to |
| `SleepLock.QueryAnswers` | xv6/sleeplock.c:44-53 | holdingsleep says yes exactly to the holder |
| `SleepLock.NoDeadlock` | xv6/sleeplock.c:22-42 | while some process is busy with the lock, some busy process can take a step |
| `LockProgress.AcquireCompletes` | xv6/sleeplock.c:22-32 | acquiresleep of a lock that is not taken takes it by steps of the caller alone, when the inner spinlock is free |
| `LockProgress.WokenTakes` | xv6/sleeplock.c:22-32 | so does a process that slept in acquiresleep and has been woken |
| `LockProgress.ReleaseCompletes` | xv6/sleeplock.c:34-42 | releasesleep gives the lock back by steps of the holder alone, when the spinlocks are free, and leaves nobody asleep on it |
| `Pipe.PutOk` | xv6/pipe.c:93 | putting a byte keeps the ring equal to the undelivered part of the history |
| `Pipe.TakeOk` | xv6/pipe.c:114-116 | taking a byte keeps the ring equal to the undelivered part of the history |
| `Pipe.Tests` | xv6/pipe.c:85-106 | the tests for full and empty mean that, whatever the 32-bit counters have wrapped to |
| `Pipe.StepInv` | xv6/pipe.c:59-121 | every step of every reader, writer and closer keeps the invariant |
| `Pipe.Fifo` | xv6/pipe.c:78-121 | in every state of every run, the bytes read followed by the bytes in the ring are the bytes written, in order |
| `Pipe.ReadIsStream` | xv6/pipe.c:100-121 | each read returns consecutive bytes of the stream |
| `PipeCalls.ReadReturns` | xv6/pipe.c:100-121 | in every run, a read of n bytes that returns gives the next bytes of the stream, n of them unless it has emptied the pipe, and none, for n > 0, only with the stream at its end and the write end closed |
| `PipeCalls.ReadFails` | xv6/pipe.c:106-111 | a read fails only for a killed process in front of an empty pipe that can still be written |
| `PipeCalls.WriteReturns` | xv6/pipe.c:78-98 | in every run, a write that returns has put in all its bytes and returns their number, or has put in a beginning of them and returns -1, in front of a full pipe that cannot be read any more or because it was killed |
| `PipeCalls.CallEnds` | xv6/pipe.c:78-121 | a call ends in one of these ways only |
| `PipeCalls.ReadCompletes` | xv6/pipe.c:100-121 | a read that finds bytes or a closed write end, with the lock free, returns by its own steps, with as many of the waiting bytes as it asked for |
| `PipeCalls.WriteCompletes` | xv6/pipe.c:78-98 | a write that finds room for all its bytes, with the lock free, puts them in, in order, and returns by its own steps |
| `Pipe.WritesInOrder` | xv6/pipe.c:78-98 | what each process has put into the stream is what its calls were to write, in order and, for a call that returned its count, all of it |
| `Pipe.SleepingWriter` | xv6/pipe.c:85-92 | with the lock free a writer sleeps only on a full pipe whose read end is open |
| `Pipe.SleepingReader` | xv6/pipe.c:106-112 | with the lock free and a reader asleep, the pipe is empty and its write end open, if and only if no killed writer's bytes are waiting without a wakeup |
| `Pipe.MissedExactly` | xv6/pipe.c:85-97 | bytes wait without a wakeup exactly from a killed writer's giving up on a full pipe until readers are woken or the pipe is emptied |
| `Pipe.LiveWritersWake` | xv6/pipe.c:78-98 | in a run in which no process is killed while it writes, a reader sleeps, with the lock free, only on an empty pipe whose write end is open |
| `Pipe.KilledWriter` | xv6/pipe.c:86-89 | a run in which a killed writer leaves a full pipe with its reader asleep and the lock free |
| `Pipe.FreedUnused` | xv6/pipe.c:70-74 | a freed pipe has both ends closed and no process inside a call on it |
| `PipeCalls.FreedExactly` | xv6/pipe.c:59-75 | with the lock free, the pipe is freed exactly when both its ends are closed |
| `PipeCalls.CloseCompletes` | xv6/pipe.c:59-75 | an open end that nobody uses can be closed by steps of the closer alone, with the lock free; the pipe is then freed exactly if the other end was closed, and nobody sleeps waiting for the closed end |
| `FileRefs.FileTable.Filealloc` | xv6/file.c:26-41 | the first free file gets one reference; fails exactly when none is free |
| `FileRefs.FileTable.Filedup` | xv6/file.c:44-53 | one more reference, or the panic exactly on a free file |
| `FileRefs.FileTable.Fileclose` | xv6/file.c:56-80 | one reference less; with the last one the pipe end or inode is released; panics exactly on a free file |
| `FileRefs.FileTable.Fdalloc` | xv6/sysfile.c:43-56 | the lowest free descriptor of the process |
| `FileRefs.FileTable.Dup` | xv6/sysfile.c:58-70 | the lowest free descriptor becomes another name for the file; counts equal descriptor slots, no panic |
| `FileRefs.FileTable.Dup2` | xv6/sysfile.c:73-139 | newfd becomes another name for oldfd's file after closing its own; bad descriptors and oldfd equal to newfd change nothing; counts equal descriptor slots, no panic |
| `FileRefs.FileTable.Close` | xv6/sysfile.c:182-193 | the descriptor is gone and its file released exactly with the last one |
| `FileRefs.FileTable.Open` | xv6/sysfile.c:407-422 | the lowest free descriptor stands for the inode, or the inode is released at once; fails exactly without a free file or descriptor |
| `FileRefs.FileTable.Pipealloc` | xv6/pipe.c:22-57 | a file for each end, or the table as it was; fails exactly without a page or two free files |
| `FileRefs.FileTable.Pipe` | xv6/sysfile.c:512-534 | the two lowest free descriptors stand for the two ends; fails exactly without a page, two free files or two free descriptors, with descriptors and files as before, and the ends are released exactly when only the descriptors were missing |
| `FileRefs.FileTable.ForkFds` | xv6/proc.c:206-208 | the child has exactly the parent's descriptors, each counted |
| `FileRefs.FileTable.ExitFds` | xv6/proc.c:243-249 | the process has no descriptor left, all others are unchanged, and counts still equal descriptor slots |
| `FileRefs.ReleasedWhenUnused` | xv6/file.c:56-80 | whatever was taken has been released, once, exactly when no descriptor of any process stands for it |
| `ShellLex.LexInOrder` | xv6/sh.c:288-331 | tokens are non-empty, in order and apart, and a word is followed by no word character |
| `ShellLex.BlanksOutside` | xv6/sh.c:285-331 | in every line, the characters outside all tokens are exactly the spaces, tabs, carriage returns, newlines and vertical tabs |
| `ShellLex.TokensPlain` | xv6/sh.c:286-331 | every token is a word without any of the characters <|>&;() that ends where one of these or a blank follows, or ">>", or one of these characters |
| `ShellCode.Parser.GetToken` | xv6/sh.c:288-331 | returns the next token of the line and moves behind it; 0 exactly at the end |
| `ShellCode.Parser.Peek` | xv6/sh.c:333-343 | tells whether the next token starts with one of the symbols |
| `ShellCode.Parser.ParseRedirs` | xv6/sh.c:397-420 | wraps the command in the redirections the grammar finds, later ones outside |
| `ShellCode.Parser.ParseSimple` | xv6/sh.c:449-469 | the command, or the panic, of the grammar for words and redirections |
| `ShellCode.Parser.ParseBlock` | xv6/sh.c:422-436 | the command, or the panic, of the grammar for a block |
| `ShellCode.Parser.ParseExec` | xv6/sh.c:438-469 | the command, or the panic, of the grammar for a block or a simple command |
| `ShellCode.Parser.ParsePipe` | xv6/sh.c:384-395 | the command, or the panic, of the grammar for a pipeline |
| `ShellCode.Parser.ParseLine` | xv6/sh.c:367-382 | the command, or the panic, of the grammar for a line; the mutual recursion ends |
| `ShellCode.ParseCmd` | xv6/sh.c:350-365 | the command of the whole line, or a panic, leftovers included |
| `ShellAccept.Accepted` | xv6/sh.c:350-469 | an accepted line has balanced parentheses, the strings of the command are exactly its words, and the command has as many words, input and output redirections, pipes, lists and background commands as the line has tokens for them |
| `ShellStrings.Nulterminate` | xv6/sh.c:471-516 | exactly the ends of all words and file names of the command become NUL |
| `ShellStrings.LineTokens` | xv6/sh.c:367-469 | every word and file name of a parsed command is a word token of the line |
| `ShellStrings.ReadsBack` | xv6/sh.c:471-516 | after nulterminate every word and file name reads as exactly its token |
| `ShellPrint.LexJoin` | xv6/sh.c:288-331 | a printed line lexes into exactly the items printed |
| `ShellPrint.RoundTrip` | xv6/sh.c:350-469 | parsing the printed form of any command tree with at most nine words per command gives the tree back |
| `ShellPrint.WordLimit` | xv6/sh.c:459-463 | a command of words parses exactly when it has fewer than ten, and otherwise panics |
| `Grep.MatchHere` | xv6/grep.c:84-96 | true exactly when some stretch of the text starting here belongs to the pattern's atoms, and ends with the text if the pattern says so |
| `Grep.MatchStar` | xv6/grep.c:98-106 | the same for a starred character and the rest of the pattern; the loop ends |
| `Grep.Match` | xv6/grep.c:72-82 | true exactly when some stretch of the text belongs to the pattern's language, anchored where the pattern is |
| `Grep.EmptyLaw` | xv6/grep.c:84-91 | the empty pattern matches at the start of any text, and $ only the empty text |
| `Grep.CharLaw` | xv6/grep.c:92-94 | at the start of a text a character of a pattern matches itself and a period any character, with the rest of the pattern behind it |
| `Grep.StarLaw` | xv6/grep.c:98-106 | a starred character matches nothing, or one character and then again |
| `Grep.AnywhereLaw` | xv6/grep.c:72-82 | a pattern without a leading ^ matches exactly where it matches at the start of some tail of the text |
| `Streams.MergeShares` | POSIX/merge_files.c:267-389 | merging the shares of a stream dealt out round-robin gives the stream |
| `StreamsRoundTrip.MergedAt` | POSIX/merge_files.c:267-389 | byte k of file i comes in the output behind exactly the bytes before position k of all files and byte k of the files before it |
| `StreamsCode.DealChunk` | POSIX/split_files.c:204-231 | byte p of the stream goes to the buffer of file p mod n, and no buffer is ever written beyond t bytes |
| `StreamsCode.Flush` | POSIX/split_files.c:233-244 | full buffers are written out, all of them after a short read, and no byte is lost or reordered |
| `StreamsCode.SplitFiles` | POSIX/split_files.c:198-250 | every file gets its share of the stream, less the last partial buffer when the last read was full |
| `StreamsCode.Round` | POSIX/merge_files.c:350-373 | one byte of every file that has one left, in file order |
| `StreamsCode.FillBuffer` | POSIX/merge_files.c:342-378 | whole rounds up to at least t bytes or the end, so up to t + n - 1 bytes |
| `StreamsCode.MergeFiles` | POSIX/merge_files.c:267-389 | for every buffer size the output is all bytes ordered by position and then by file |
| `StreamsRoundTrip.KeptAll` | POSIX/split_files.c:233-244 | all files keep all their bytes exactly when t is 1, the length is no multiple of t, or it is one of n times t |
| `StreamsRoundTrip.SplitBytes` | POSIX/split_files.c:198-250 | byte k of file i is byte k * n + i of the stream, and it is there exactly when the stream is that long and, should its length be a multiple of t, all t bytes of its buffer are |
| `StreamsRoundTrip.SplitThenMerge` | POSIX/split_files.c:198-250 | merging what was split gives the stream back exactly under that condition, for any buffer size of the merge |
| `StreamsRoundTrip.BufferSuffices` | POSIX/merge_files.c:345-373 | t bytes of output buffer are enough for every input exactly for one file, or two files and an even t |

## Left out

- Boot, interrupts, drivers and the MMU itself: the disk is a sequence of blocks with atomic writes, and an access by a program looks up the page tables and faults as the hardware would.
- Spinlocks and memory ordering: acquire and release are atomic steps.
- Directories, path lookup, inode allocation, link counts and device files: they would only add easy members; `FsCode` starts at an inode number.
- `exec`, `wait` and the scheduler's choice of process.
- `kalloc`'s and the open-file table's locks: the calls modelled in `VmCode` and `FileRefs` run one at a time.
- `grep`'s reading of lines, the shell's execution of commands, and the option handling and error exits of the stream tools.
- `mystrings` and the other POSIX tools.
- Pipe: sleep and wakeup are single steps; `SleepLock` takes them apart.
- LogSystem: the loop of sleeps in begin_op is a step that is enabled when its test passes.
- Umalloc.Heap.Malloc: nothing is promised about the heap once it is broken.
- VmCode.Vm.Deallocuvm: nothing is promised about memory once a frame of the kernel has been freed.
- VmMachine.Machine.Run: it stops where frames run out, because there a process is killed that eager growth would have refused at sbrk; the sizes stay within user memory and every operation leaves the guard fields right, for `SysSbrk`, `GrowthGuard` and `ForkGuard` say exactly what happens otherwise.
- StreamsCode.MergeFiles: the output buffer grows as the writes need it; `BufferSuffices` says when the t bytes of the code are enough.
- FsCode.FileSystem.Itrunc: the intended reading of the second index level is not modelled; the code as it stands is.
