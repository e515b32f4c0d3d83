# Verified models of the xv6 labs

A Dafny model of the state-changing cores of this xv6 repository and its lab exercises: the redo log with the buffer cache
and the inode layer, page tables and the frame allocator with demand mapping, the process table with lazy tick accounting,
the even/odd round-robin scheduler, the K&R heap, pipes, the shell's parser, the pattern matcher of grep and the semaphore
protocol of the cricket exercise. `dafny verify dfyconfig.toml` checks everything.

How the parts are built:

- Code that updates structures in place is a class whose methods have the loops and updates of the source. Each method is
  proved against a function or predicate on values, and the properties are proved about those.
- Concurrency is a state machine. A section under a lock, a single-block disk write and an operation on a semaphore are one
  step each; runs are arbitrary sequences of enabled steps, and the main theorems hold in every state they reach.
- `panic` stops the run: it is a result (`None`, `false`, `Panic`) where a caller can cause it, and it is proved not to
  happen where the source relies on that.
- Pointers are indices, addresses or frame numbers. 32-bit arithmetic is written out where it can wrap.
- The predicates of `Guards.dfy` are always true. A long condition is stated for all x with such a predicate of x; a proof
  sees its parts only where it names the predicate, and otherwise passes the condition on.

| file | models |
|---|---|
| `Params.dfy`, `Guards.dfy`, `Options.dfy` | shared constants of `param.h`; the hiding predicates; the option type |
| `Words.dfy`, `Bytes.dfy` | 32-bit words and bytes; blocks of bytes, their words and bits |
| `BufferCache.dfy` | `bio.c`: the LRU ring of buffers over a disk |
| `Crash.dfy` | what any prefix of the disk writes of commit and recovery leaves |
| `Log.dfy` | `log.c` over the buffer cache: the code issues exactly those writes |
| `LogProtocol.dfy` | operations, group commit, crashes and recoveries, interleaved |
| `LogRefinement.dfy` | each call of `log.c` is a sequence of steps of that protocol |
| `Files.dfy`, `Space.dfy`, `FileSystem.dfy` | `fs.c`: free map, block pointers, inodes; free and missing blocks; file contents |
| `FileCrash.dfy` | the files of the inode layer after a crash in the log below it |
| `Mount.dfy` | inode layer, log, cache and disk together: an operation from the system call to the disk |
| `Heap.dfy` | `umalloc.c` |
| `PageTables.dfy`, `VirtualMemory.dfy` | `vm.c`, `kalloc.c` and the page-fault branch of lab 5 |
| `ProcStates.dfy`, `Procs.dfy`, `ProcTable.dfy` | `proc.c` of lab 6: steps, invariants over runs, and the code |
| `Sched.dfy` | the scheduler and timer rule of the second lab 6 variant |
| `Pipe.dfy`, `PipeProtocol.dfy` | `pipe.c`: the ring, and the processes at its ends |
| `Shell.dfy`, `ShellGrammar.dfy`, `ShellParser.dfy` | `sh.c`: the parser's functions, the grammar that they read exactly, and the parser with its cursor |
| `Grep.dfy` | the matcher of `grep.c` |
| `Cricket.dfy`, `CricketMatch.dfy` | `cricket-semaphores.c`: the score board, and the threads |

Where code and intent differ, the model follows the code:

- log_write tests for room before it looks whether the block is listed already. With a log larger than LOGSIZE it panics
  exactly if LOGSIZE blocks are listed, on a call that would have listed nothing new (`WhenFull`, and the run of
  `AllBuffersListed`). An operation that has changed fewer than MAXOPBLOCKS blocks before the call never meets that, and the
  pieces that filewrite cuts, and itrunc, make all their calls so (`Writei`, `Itrunc`).
- mkfs makes a log of LOGSIZE blocks, one too few for three such operations at once (`LogTooSmall`); alone, each has room
  (`Mount.Write`). And NBUF is LOGSIZE too: when NBUF blocks are listed, every buffer is dirty and commit finds none for the
  first log block (`Commit`). A commit of fewer blocks completes.
- A killed writer with more than 512 bytes to go leaves a full pipe without waking readers (`KilledWriterLosesWakeup`).
  No wakeup is lost in a run exactly if that does not happen beside a sleeping reader (`NoLostWakeup`).
- The yield rule of the even/odd scheduler spares running time 0, so a dispatch that passes 2^32 is charged up to four ticks
  (`FourTicks`) instead of two (`BoundedDispatch`).
- malloc's rounding wraps for the last seven sizes (`UnitsEnough`, `UnitsWrap`).
- A demand fault needs two frames when the page's table is missing too; `PageFault` states the exact condition.
- In the shell `>>` makes the same redirection as `>`.
- The lab 5 and second lab 6 directories have no `memlayout.h` and `param.h` of their own; the constants are those of
  `lab6/lab6/memlayout.h` and `lab6/lab6/param.h`.

## Model

| member | source | states |
|---|---|---|
| `BufferCache.Unlink` | lab6/lab6/bio.c:132-133 | taking a buffer out of the circle of next and prev pointers leaves the circle of the others, in order |
| `BufferCache.PushFront` | lab6/lab6/bio.c:134-137 | relinking a buffer behind the head makes it the first of the circle and changes no other order |
| `BufferCache.MoveToFrontKeepsOrder` | lab6/lab6/bio.c:121-141 | moving a released buffer to the front keeps the list a permutation of all NBUF buffers, ordered by last release |
| `BufferCache.Bcache.constructor` | lab6/lab6/bio.c:39-56 | binit links all buffers into one circle, last one first, all unused |
| `BufferCache.Bcache.FindCached` | lab6/lab6/bio.c:69-76 | the first loop of bget finds a buffer of the block if and only if there is one |
| `BufferCache.Bcache.FindReusable` | lab6/lab6/bio.c:81-91 | the second loop finds, of all unreferenced clean buffers, the least recently released one; none only if there is none |
| `BufferCache.Bcache.Bget` | lab6/lab6/bio.c:62-93 | a hit gains one reference, a miss takes over the least recently released reusable buffer and never a dirty or referenced one, panic exactly when there is none; at most one buffer per block of a device other than 0 |
| `BufferCache.Bcache.Bread` | lab6/lab6/bio.c:97-106 | the caller gets the buffer locked and valid, with what it held if valid before, else what the disk holds; or sleeps with a reference to it, exactly if somebody holds it; panic exactly if there is no buffer |
| `BufferCache.Bcache.Awake` | lab6/lab6/bio.c:97-106 | a process that slept gets, once the buffer is released, what the last holder left, or the disk contents, and no other buffer changes |
| `BufferCache.Bcache.Bwrite` | lab6/lab6/bio.c:110-116 | exactly one block reaches the disk, and the buffer is clean |
| `BufferCache.Bcache.MoveToFront` | lab6/lab6/bio.c:132-137 | the pointer updates implement the move to the front |
| `BufferCache.Bcache.Brelse` | lab6/lab6/bio.c:121-141 | one reference less; the last holder moves the buffer to the front, otherwise the order stays; if the buffer agrees with the disk or is dirty, cache and disk stay in agreement |
| `Crash.HeaderReads` | lab6/lab6/log.c:86-113 | the header that write_head fills in is read back by read_head as the same count and blocks |
| `Crash.StageStep` | lab6/lab6/log.c:193-202 | each single-block write of commit moves the disk from one stage to the next: log written, committed, installed, cleared |
| `Crash.CommitStages` | lab6/lab6/log.c:193-202 | what any prefix of commit's writes leaves on disk |
| `Crash.RecoverOld` | lab6/lab6/log.c:116-122 | recovery of a disk whose header lists nothing, with any number of crashes, changes no home block |
| `Crash.RecoverCommitted` | lab6/lab6/log.c:70-122 | recovery of a committed disk, with any number of crashes at any write, ends with the whole transaction installed |
| `Crash.CrashAtomicity` | lab6/lab6/log.c:69-202 | a crash after any k writes of commit, then any number of crashing recoveries and a completed one: home blocks are all old if k is at most n, all new otherwise, so the first header write alone decides |
| `Log.BreadCoherent` | lab6/lab6/log.c:213-233 | bread gives the latest logged contents: a block that is pinned in the cache is never read from disk |
| `Log.BwriteCoherent` | lab6/lab6/bio.c:110-116 | bwrite makes disk and block map agree on the block |
| `Log.LogWriteCoherent` | lab6/lab6/log.c:213-233 | log_write changes the block map and pins the buffer, and the disk stays |
| `Log.CommitKeepsView` | lab6/lab6/log.c:193-202 | publishing and installing change no home block of the block map |
| `Log.Absorb` | lab6/lab6/log.c:224-230 | a block is listed after log_write if and only if it was before or is the one written |
| `Log.FewPins` | lab6/lab6/bio.c:62-93 | while fewer than NBUF blocks are listed, some buffer is not pinned |
| `Log.FullPins` | lab6/lab6/bio.c:62-93 | with NBUF blocks listed every buffer is dirty, so bget has none for any other block |
| `Log.LogSystem.Acquire` | lab6/lab6/bio.c:97-106 | through the log, bread of a block that nobody holds returns what the block map says, and buffers that anybody holds do not change; it panics exactly if the block is not cached and no buffer can be reused |
| `Log.LogSystem.ReaderBread` | lab6/lab6/bio.c:97-106 | a process without an operation may hold a buffer, with the contents the block map says, and all that commit and operations rely on stays; it panics exactly if the block is not cached and no buffer can be reused |
| `Log.LogSystem.CopyBlock` | lab6/lab6/log.c:74-81 | one round of install_trans or write_log is exactly one disk write, the next one of the plan; it goes through if a buffer is to spare, and panics without a write if all are dirty |
| `Log.LogSystem.WriteLog` | lab6/lab6/log.c:178-190 | write_log issues the log writes of the plan in order and changes no home block and no pin; it completes if a buffer is to spare, stops only where no buffer can be reused, and stops before its first write if all are dirty |
| `Log.LogSystem.InstallTrans` | lab6/lab6/log.c:70-82 | install_trans issues the home writes of the plan in order and completes if a buffer is to spare, and stops only where no buffer can be reused; the installed blocks are not pinned any more |
| `Log.LogSystem.FillHeader` | lab6/lab6/log.c:106-110 | the loop of write_head fills in the count and all block numbers |
| `Log.LogSystem.WriteHead` | lab6/lab6/log.c:102-113 | write_head is one disk write, of the header block, with the listed blocks filled in; it goes through if a buffer is to spare |
| `Log.LogSystem.ReadHead` | lab6/lab6/log.c:90-94 | read_head makes the in-memory list the one of the header block |
| `Log.LogSystem.Commit` | lab6/lab6/log.c:193-202 | commit, while others hold any buffers but those of log blocks and listed blocks, issues exactly the writes whose every prefix is analysed for crashes, ends with nothing pinned, and leaves every home block of the block map as it was; whoever holds buffers, it stops only where no buffer can be reused; with no buffer in use it completes exactly if fewer than NBUF blocks are listed, and with NBUF it panics before its first write |
| `Log.LogSystem.RecoverFromLog` | lab6/lab6/log.c:116-122 | recover_from_log issues exactly the writes whose every prefix is analysed for crashes, all of them if no buffer is in use, as after a start; it stops only where no buffer can be reused |
| `Log.LogSystem.BeginOp` | lab6/lab6/log.c:126-141 | an operation is admitted if and only if no commit runs and MAXOPBLOCKS more blocks for every open operation fit |
| `Log.LogSystem.EndOp` | lab6/lab6/log.c:146-163 | the last operation out starts the commit, no other does |
| `Log.LogSystem.ListBlock` | lab6/lab6/log.c:224-230 | the absorption loop lists the block once |
| `Log.LogSystem.LogWrite` | lab6/lab6/log.c:214-233 | log_write panics exactly when the log is full or no operation is open; otherwise the block map takes over the buffer and the buffer is pinned; the disk does not change and nothing is written to it |
| `LogProtocol.RecoverableRecovers` | lab6/lab6/log.c:116-122 | a recoverable disk recovers to the wanted state under any crashes |
| `LogProtocol.StepInv` | lab6/lab6/log.c:126-233 | every step of any interleaving of operations, group commits, crashes and recoveries keeps the invariant; an operation may call log_write as often as it likes, for at most MAXOPBLOCKS blocks |
| `LogProtocol.ReachedInv` | lab6/lab6/log.c:126-233 | the invariant holds in every reachable state |
| `LogProtocol.LogSpace` | lab6/lab6/log.c:126-233 | in every run no commit overlaps an open operation, and listed blocks plus what open operations may still add fit in LOGSIZE |
| `LogProtocol.WhenFull` | lab6/lab6/log.c:218-219 | with a log larger than LOGSIZE, log_write panics exactly if LOGSIZE blocks are listed; then all open operations have changed MAXOPBLOCKS blocks and the call is for one of those, so a call of an operation with fewer never panics |
| `LogProtocol.LogTooSmall` | lab6/lab6/mkfs.c:25-25 | for a log of LOGSIZE blocks or fewer, as mkfs makes it, there is a run in which log_write panics for an operation that has changed fewer than MAXOPBLOCKS blocks; so the size in WhenFull is exact |
| `LogProtocol.AllBuffersListed` | lab6/lab6/param.h:11-12 | with a larger log there is a run, within all budgets, that lists NBUF blocks: one more call for a listed block panics, and so would bread in its commit |
| `LogProtocol.OperationsAtomic` | lab6/lab6/log.c:126-233 | in every run, a crash at any step and any recoveries leave all changes of an operation or none, and those of every finished operation once no commit is due |
| `LogProtocol.DurablePoint` | lab6/lab6/log.c:193-202 | the durable state of every run is that of a quiet point of it, right after the last header write of a commit or at the start, at which no operation was open |
| `LogRefinement.Run.Begin` | lab6/lab6/log.c:126-141 | begin_op is the protocol's Begin step, admitted exactly when that step is enabled, or no step |
| `LogRefinement.Run.Write` | lab6/lab6/log.c:214-233 | log_write for one of the at most MAXOPBLOCKS blocks of an operation is the Write step, or panics exactly if the protocol has no room; with a log larger than LOGSIZE never while fewer blocks are changed |
| `LogRefinement.Run.Put` | lab6/lab6/fs.c:66-71 | bread, a change, log_write and brelse are the Write step and change the block map there alone; they panic exactly for want of room or of a buffer |
| `LogRefinement.Run.ReaderBread` | lab6/lab6/bio.c:97-106 | bread of a process without an operation is no step, and finds a buffer exactly if the block is cached or some buffer can be reused |
| `LogRefinement.Run.End` | lab6/lab6/log.c:146-163 | end_op of one of several operations is the End step |
| `LogRefinement.Run.StartCommit` | lab6/lab6/log.c:146-163 | end_op of the last one is the End step that starts the commit, with the very writes that commit will issue, whoever holds buffers |
| `LogRefinement.Run.DoCommit` | lab6/lab6/log.c:164-202 | commit is one step for each of its disk writes and the Finish step; it stops on the way only where no buffer can be reused, and with no buffer in use exactly if NBUF blocks are listed |
| `LogRefinement.Run.CrashSafe` | lab6/lab6/log.c:116-202 | so at any point of any run of the code, a crash and any recoveries leave all changes of an operation or none, and all changes so far when nothing is listed |
| `LogRefinement.Run.Reboot` | lab6/lab6/log.c:54-66 | a boot over the disk of any state of any run, and recover_from_log, are the crash step, one step for each disk write, and the Finish step; the code goes on from the durable part of the history |
| `FileCrash.ReplayImage` | lab6/lab6/log.c:213-233 | the log_write calls of an operation, replayed on the disk, give the block map that the inode layer works on |
| `FileCrash.FilesDurable` | lab6/lab6/log.c:126-202 | any number of operations in any interleaving: a crash at any step and any recoveries leave the files of the quiet point right after the last header write of a commit |
| `FileCrash.FilesAtomic` | lab6/lab6/file.c:140-145 | one operation: a crash at any step of any run before, between or after its log_write calls, and any recoveries, leave every file as before it, or every file as after it, the latter only if all calls were made and the header write of its commit as well |
| `FileCrash.WriteAtomic` | lab6/lab6/file.c:140-145 | so after a crash at any step during or after a writei the file has all its bytes spliced in or none, and no other file differs |
| `Bytes.SetBit` | lab6/lab6/fs.c:66-68 | setting a clear bit of the free map changes that bit alone |
| `Bytes.ClearBit` | lab6/lab6/fs.c:89-92 | clearing a set bit changes that bit alone |
| `Bytes.SetWordReads` | lab6/lab6/fs.c:390-392 | a word stored in a block is read back, and the other words stay |
| `Files.SetUsedReads` | lab6/lab6/fs.c:63-70 | balloc's change marks exactly its block |
| `Files.ClearUsedReads` | lab6/lab6/fs.c:87-94 | bfree's change unmarks exactly its block |
| `Files.BlocksExclusive` | lab6/lab6/fs.c:372-435 | ownership means: no block has two uses, and every block in use is a data block that the free map marks |
| `Files.AllocOwned` | lab6/lab6/fs.c:57-78 | balloc returns a block that nobody owns and changes no pointer and no byte of any file |
| `Files.LinkDirect` | lab6/lab6/fs.c:378-381 | storing a fresh block in an empty direct pointer makes that pointer its owner and changes no file |
| `Files.LinkEntry` | lab6/lab6/fs.c:385-394 | storing a fresh block in an empty entry of the indirect block makes that entry its owner and changes no file |
| `Files.DataWrite` | lab6/lab6/fs.c:498-504 | writing part of one mapped block changes those bytes of that file and nothing else |
| `Files.PutInodeReads` | lab6/lab6/fs.c:221-236 | iupdate stores an inode that reads back field by field, beside its neighbours in the block |
| `Files.FreeAddr` | lab6/lab6/fs.c:414-419 | a direct block of an inode is marked in use, so bfree does not panic, and giving it up keeps ownership of all others |
| `Files.FreeEntry` | lab6/lab6/fs.c:424-427 | the same for each entry of the indirect block |
| `FileSystem.WriteStep` | lab6/lab6/fs.c:498-504 | one round of writei extends the written part by its bytes, in that file alone, with everything below mapped |
| `FileSystem.WriteWithin` | lab6/lab6/fs.c:482-511 | a write within the size changes no inode, so disk and memory inodes agree without iupdate |
| `FileSystem.WriteBeyond` | lab6/lab6/fs.c:506-509 | a write past the size, with the new size and iupdate, leaves disk and memory inodes equal |
| `FileSystem.FewBlocks` | lab6/lab6/file.c:126-132 | a write of at most three blocks' worth of bytes changes at most nine blocks before its iupdate: four data blocks of which the first is there, or three, the indirect block, and the blocks of the free map that mark the new ones |
| `FileSystem.TruncFrugal` | lab6/lab6/fs.c:408-435 | calls for the free map alone, and one for an inode, are each made with fewer than MAXOPBLOCKS blocks changed if the free map has fewer |
| `FileSystem.FreedExactly` | lab6/lab6/fs.c:408-435 | giving up an inode's blocks unmarks exactly those |
| `FileSystem.Fs.LogBlock` | lab6/lab6/fs.c:66-71 | every change of a block is recorded as one log_write call, and the recorded calls, redone on the blocks of begin_op, give the present blocks |
| `FileSystem.Fs.Balloc` | lab6/lab6/fs.c:57-78 | the first unmarked block is marked and zeroed, and nothing else changes; panic exactly if all are marked |
| `FileSystem.Fs.Bmap` | lab6/lab6/fs.c:373-400 | the block of a file block through direct and indirect pointers, allocated only if absent; no other pointer and no file's bytes change; ownership stays; panic exactly if the file block is out of range or fewer blocks are free than it takes, the indirect block included |
| `Space.LinkSpent` | lab6/lab6/fs.c:378-393 | a block allocated on the way to a file block is one free block less and one missing block less, in every range around it |
| `Space.NoneMissing` | lab6/lab6/fs.c:373-396 | nothing is missing for a range of file blocks exactly if all of them are mapped |
| `Space.OverDone` | lab6/lab6/fs.c:482-511 | once a write has mapped its range, the free blocks did suffice, and exactly those that were missing are gone |
| `Space.PieceShort` | lab6/lab6/file.c:133-152 | if a piece of a longer write finds too few free blocks, there were too few for the whole |
| `FileSystem.Fs.Iupdate` | lab6/lab6/fs.c:221-236 | the inode on disk becomes the one in memory |
| `FileSystem.Fs.Writei` | lab6/lab6/fs.c:482-511 | refused exactly if off is past the size or the end past MAXFILE blocks, also when off + n wraps; panic exactly if fewer blocks are free than the write needs, so never within the size; otherwise the bytes are spliced in at off, the size grows exactly as needed, exactly the needed free blocks are taken, no other file changes, every block below the size stays mapped, and all inodes on disk are those in memory; a call of at most three blocks' worth makes all its log_write calls within its budget |
| `FileSystem.Fs.Readi` | lab6/lab6/fs.c:453-476 | exactly the slice of the file's bytes, cut off at the size; nothing changes |
| `FileSystem.Fs.Bfree` | lab6/lab6/fs.c:82-95 | unmarks exactly this block; panic exactly if it is not marked |
| `FileSystem.Fs.FreeDirect` | lab6/lab6/fs.c:414-419 | the direct blocks are given up without a panic |
| `FileSystem.Fs.FreeIndirect` | lab6/lab6/fs.c:421-431 | the blocks behind the indirect block are given up without a panic |
| `FileSystem.Fs.Itrunc` | lab6/lab6/fs.c:408-435 | the file is empty, exactly its own blocks are unmarked, every other file is as before, bfree never panics, disk and memory inodes agree; all log_write calls but the last are for the free map, the last is for the inode |
| `Mount.Mount.SameBlocks` | lab6/lab6/log.c:213-233 | between steps, what the log's block map says is what the inode layer works on |
| `Mount.Mount.Perform` | lab6/lab6/log.c:214-233 | the log_write calls of an operation, however many, with their breads and brelses go through without a panic if each is made with fewer than MAXOPBLOCKS blocks changed before |
| `Mount.Mount.DiskHolds` | lab6/lab6/log.c:193-202 | between operations the disk itself holds every file as the inode layer sees it |
| `Mount.Mount.Write` | lab6/lab6/file.c:140-145 | begin_op, writei of at most 1536 bytes and end_op with its commit, down to the disk: bytes spliced in, no other file changed, all files on disk so, and a panic exactly if fewer blocks are free than the write needs |
| `Mount.Mount.Truncate` | lab6/lab6/fs.c:408-435 | begin_op, itrunc and end_op, down to the disk: the file is empty, the others as before, without a panic for any number of blocks, if the free map has fewer than MAXOPBLOCKS blocks |
| `Mount.Mount.Filewrite` | lab6/lab6/file.c:118-153 | the pieces together are one write of all the bytes; it fails exactly at the first piece that writei refuses, and then the whole pieces before it are written; it panics exactly if fewer blocks are free than all the accepted bytes need |
| `Mount.Mount.CrashDuring` | lab6/lab6/log.c:116-202 | from a quiet state on, a crash at any step while an operation runs, and any recoveries, leave all files as they were or as they are when it is over |
| `Heap.InsertedOk` | lab6/lab6/umalloc.c:33-42 | inserting a block, joined to its right neighbour if they touch, keeps one circular address-ordered list of blocks that never touch |
| `Heap.MergedOk` | lab6/lab6/umalloc.c:33-42 | the same when the left neighbour takes the block over |
| `Heap.FreeGains` | lab6/lab6/umalloc.c:33-37 | the list gains exactly the units of the freed block |
| `Heap.MergeGains` | lab6/lab6/umalloc.c:38-42 | so it does when the left neighbour takes the block over |
| `Heap.TakeWhole` | lab6/lab6/umalloc.c:76-77 | unlinking a block of the right size keeps list, live blocks and the sum of units in order |
| `Heap.TakeTail` | lab6/lab6/umalloc.c:78-82 | so does cutting the tail off a larger block |
| `Heap.UnitsEnough` | lab6/lab6/umalloc.c:69-69 | the units for a request have room for it if and only if the rounding does not wrap around, and fewer would not |
| `Heap.UnitsWrap` | lab6/lab6/umalloc.c:69-69 | for the largest request the computed block has one unit and no room |
| `Heap.SbrkFits` | lab6/lab6/umalloc.c:54-54 | for which requests the argument of sbrk is a positive int |
| `Heap.Allocator.FindPlace` | lab6/lab6/umalloc.c:30-32 | the loop of free ends, at the node after which the block belongs |
| `Heap.Allocator.Free` | lab6/lab6/umalloc.c:25-44 | the block leaves the live blocks and becomes part of one free block; list order, gaps, disjointness from live blocks and the sum of units are kept |
| `Heap.Allocator.Morecore` | lab6/lab6/umalloc.c:47-61 | sbrk is asked exactly once, for the units needed or 4096 if that is more; the result says exactly whether the kernel granted them; if so they become part of a free block with room for the request, if not nothing changes |
| `Heap.Allocator.Search` | lab6/lab6/umalloc.c:74-88 | one round of malloc's loop finds a large enough block if there is one |
| `Heap.Allocator.Take` | lab6/lab6/umalloc.c:76-82 | the block handed out is disjoint from everything, and free plus live units stay the units obtained |
| `Heap.Allocator.Round` | lab6/lab6/umalloc.c:74-88 | one pass of malloc's loop hands out a block if and only if one fits; otherwise it asks sbrk once, and goes round again exactly if that is granted, and then one fits |
| `Heap.Allocator.Malloc` | lab6/lab6/umalloc.c:64-90 | a new live block with room for the request exactly if its rounding does not wrap; sbrk is called only if no free block fits, then exactly once and for that many units; the result is 0 if and only if no free block fits and the kernel refuses that call, and then nothing changes |
| `VirtualMemory.PopFree` | lab5/200050133_lab5/kalloc.c:83-95 | taking the head leaves a list of exactly the other free frames |
| `VirtualMemory.PushFree` | lab5/200050133_lab5/kalloc.c:60-77 | a frame not on the list becomes its head |
| `VirtualMemory.Vm.Kalloc` | lab5/200050133_lab5/kalloc.c:83-95 | a frame that was free, or 0 exactly if none is |
| `VirtualMemory.Vm.Kfree` | lab5/200050133_lab5/kalloc.c:60-77 | the frame is free, and no other frame changes |
| `VirtualMemory.Vm.Freerange` | lab5/200050133_lab5/kalloc.c:47-53 | exactly the whole pages of the range come into the allocator's care, each once |
| `PageTables.AddTable` | lab5/200050133_lab5/vm.c:45-52 | a zeroed frame becomes a table without changing any entry of the flat map |
| `PageTables.WriteEntry` | lab5/200050133_lab5/vm.c:54-54 | writing through the table of a page changes that page's entry alone |
| `PageTables.MapPage` | lab5/200050133_lab5/vm.c:71-73 | mapping a page adds one entry and one owned frame |
| `PageTables.UnmapPage` | lab5/200050133_lab5/vm.c:274-275 | clearing the entry gives up that frame alone |
| `PageTables.Granted` | lab5/200050133_lab5/vm.c:48-52 | every present directory entry grants write and user access, so what user code may do with a page, for which the processor asks both levels, is what the page's own entry says |
| `VirtualMemory.OtherSpace` | lab5/200050133_lab5/vm.c:222-378 | what leaves the frames of other uses alone leaves every other address space, entries and page contents, as it was |
| `VirtualMemory.Vm.Walk` | lab5/200050133_lab5/vm.c:36-55 | the table of the page, made if asked for and possible, with a directory entry that grants all; no entry of the flat map changes; exactly one frame is used if a table was missing |
| `VirtualMemory.Vm.Mappages` | lab5/200050133_lab5/vm.c:61-80 | the pages of the range are mapped to consecutive frames and no other entry changes, if and only if the free frames suffice for the missing tables, of which it uses exactly so many |
| `VirtualMemory.ShrunkOver` | lab5/200050133_lab5/vm.c:266-268 | skipping an absent table gives what looking at each of its pages gives |
| `VirtualMemory.DropPage` | lab5/200050133_lab5/vm.c:269-275 | kfree and the cleared entry, in this order, give up one page |
| `VirtualMemory.Vm.Deallocuvm` | lab5/200050133_lab5/vm.c:256-279 | exactly the pages of [PGROUNDUP(newsz), oldsz) are unmapped, exactly their frames come free, nothing else changes |
| `VirtualMemory.RolledMap` | lab5/200050133_lab5/vm.c:234-237 | deallocuvm over the range undoes a partial allocuvm: the map is as before |
| `VirtualMemory.RolledRoles` | lab5/200050133_lab5/vm.c:234-237 | and every frame is in the use it was in, save free ones that became tables |
| `VirtualMemory.Vm.Allocuvm` | lab5/200050133_lab5/vm.c:222-249 | exactly the pages of [PGROUNDUP(oldsz), newsz) are added, each on its own zeroed frame and for user code to read and write at both levels, if and only if the free frames suffice for them and their missing tables; otherwise the map is restored and only tables may remain; the return value in all cases |
| `VirtualMemory.Vm.Freevm` | lab5/200050133_lab5/vm.c:317-331 | every page, table and the directory of the address space come free exactly once, nothing else changes |
| `VirtualMemory.Vm.Setupkvm` | lab5/200050133_lab5/vm.c:119-136 | a new address space that maps exactly the kernel's half, none of it within reach of user code, on 65 frames that were free, if and only if 65 are free; or every frame in the use it was in |
| `VirtualMemory.KernelNeeds` | lab5/200050133_lab5/vm.c:105-115 | mapping the next part of the kernel's half takes exactly its share of the 64 tables, 56 for physical memory and 8 for the devices |
| `VirtualMemory.UserNeeds` | lab5/200050133_lab5/vm.c:349-378 | copying n pages into a space without user tables takes n frames and one more for every 1024 pages begun |
| `VirtualMemory.BuiltAndReleased` | lab5/200050133_lab5/vm.c:349-378 | building an address space and freeing it restores the free set exactly |
| `VirtualMemory.Vm.Copyuvm` | lab5/200050133_lab5/vm.c:349-378 | equal bytes and flags for every page below sz, and for user code exactly the rights it has in the parent, on frames that were free, with the kernel's half, the parent untouched, if and only if there are 65 free frames, one for each of the n pages and one for every 1024 of them begun; or every frame in the use it was in; all address spaces stay in order |
| `VirtualMemory.GrewWorld` | lab5/200050133_lab5/vm.c:222-249 | growing one address space keeps all address spaces in order |
| `VirtualMemory.ShrunkWorld` | lab5/200050133_lab5/vm.c:256-279 | so does shrinking one |
| `VirtualMemory.ReleasedWorld` | lab5/200050133_lab5/vm.c:317-331 | so does freeing one |
| `VirtualMemory.CountOneMore` | lab5/200050133_lab5/vm.c:282-300 | one more mapped page counts one more |
| `VirtualMemory.Vm.CountPhysicalPages` | lab5/200050133_lab5/vm.c:282-300 | the number of mapped pages below sz |
| `VirtualMemory.Process.Mmap` | lab5/200050133_lab5/sysproc.c:60-78 | a positive multiple of the page size is added to the size and the old size returned; anything else returns 0; no mapping is touched |
| `VirtualMemory.Vm.PageFault` | lab5/200050133_lab5/trap.c:51-65 | a fault below sz on an absent page maps exactly that page, for user code to read and write, to a zeroed frame and raises the page count by one, if and only if there is a frame for it and, where needed, for its table; otherwise the map stays; at or above sz nothing happens |
| `Procs.ChargeOnce` | lab6/lab6/proc.c:398-400 | charging all ticks since the snapshot at once equals one charge per tick, in 32-bit arithmetic |
| `Procs.TickedAccount` | lab6/lab6/proc.c:88-96 | a tick keeps charged plus outstanding time equal to counted ticks in every state |
| `Procs.KeptInv` | lab6/lab6/proc.c:74-563 | a step by which nobody comes, goes or exits, and which accounts for every slot, keeps the invariant |
| `Procs.ForkInv` | lab6/lab6/proc.c:74-120 | allocproc keeps the invariant: a fresh pid, an embryo of one forking process |
| `Procs.ForkNameInv` | lab6/lab6/proc.c:204-204 | so does setting the parent, without the lock |
| `Procs.ForkDoneInv` | lab6/lab6/proc.c:219-223 | so does making the child runnable |
| `Procs.ForkFailInv` | lab6/lab6/proc.c:196-201 | so does giving the slot back when memory runs out |
| `Procs.ExitInv` | lab6/lab6/proc.c:232-274 | exit keeps the invariant: children pass to init, a waiting parent or init is woken |
| `Procs.ReapInv` | lab6/lab6/proc.c:279-365 | collecting a zombie keeps it |
| `Procs.WaitSleepInv` | lab6/lab6/proc.c:310-317 | so does going to sleep in wait |
| `Procs.StepInv` | lab6/lab6/proc.c:74-563 | every step of every process keeps the invariant |
| `Procs.ReachedInv` | lab6/lab6/proc.c:74-563 | the invariant holds in every reachable state |
| `Procs.LazyAccounting` | lab6/lab6/proc.c:321-365 | in every run the wtime and rutime that wait2 returns are the ticks the child spent in EMBRYO or RUNNABLE, and in RUNNING, modulo 2^32 |
| `Procs.ProcessTree` | lab6/lab6/proc.c:185-365 | in every reachable state init is alive, every parent is alive and was created before its child, and every other process has one |
| `Procs.DistinctPids` | lab6/lab6/proc.c:83-86 | in every reachable state two processes have the same pid if and only if the numbers of processes created before them differ by a multiple of 2^32, so pids differ and are not 0 while no more than 2^32 have been created |
| `Procs.NoMissedExit` | lab6/lab6/proc.c:279-365 | in every reachable state a process asleep in wait has a child, no exited child, and has not been killed |
| `Procs.KillMark` | lab6/lab6/proc.c:544-563 | a step marks a process as killed exactly if it is a kill of it, unmarks it exactly if it is the wait that collects it, and leaves the mark alone otherwise |
| `Procs.MarkStays` | lab6/lab6/proc.c:544-563 | so over any steps without that wait, a process is marked in the end exactly if it was before or there was a kill of it |
| `Procs.KilledForGood` | lab6/lab6/proc.c:310-317 | in every run a killed process stays killed until a wait collects it, and is never asleep in wait |
| `ProcTable.Ptable.constructor` | lab6/lab6/proc.c:125-158 | the table after userinit |
| `ProcTable.Ptable.Wakeup1` | lab6/lab6/proc.c:520-529 | exactly the sleepers on the channel become runnable, with a new snapshot, and no other slot changes |
| `ProcTable.Ptable.Allocproc` | lab6/lab6/proc.c:74-98 | the scan takes the first unused slot, as an embryo with the next pid and cleared times, as the fork step says; none only if all are in use |
| `ProcTable.Ptable.DropChild` | lab6/lab6/proc.c:196-202 | fork without memory is the step that gives the slot back |
| `ProcTable.Ptable.SetParent` | lab6/lab6/proc.c:204-204 | the child gets its parent, as the naming step says |
| `ProcTable.Ptable.StartChild` | lab6/lab6/proc.c:217-225 | the child becomes runnable and its pid is returned, as the last step of fork says |
| `ProcTable.Ptable.PassChildren` | lab6/lab6/proc.c:256-262 | the loop of exit hands every child to init and wakes init exactly if one of them has exited |
| `ProcTable.Ptable.ScanChildren` | lab6/lab6/proc.c:330-352 | the scan of wait finds the first exited child, or says whether there are children |
| `ProcTable.Ptable.Collect` | lab6/lab6/proc.c:336-349 | collecting the child is the reap step, with its pid and times; the slot is free, without pid, parent or mark |
| `ProcTable.Ptable.Exit` | lab6/lab6/proc.c:254-270 | the loop with its nested wakeups is the exit step: the process is a zombie, its children belong to init, its parent is awake, and so is init if one of the children has exited; nothing else changes |
| `ProcTable.Ptable.Wait` | lab6/lab6/proc.c:321-365 | one pass of the loop of wait or wait2 is the reap step with pid and times of the first zombie child, exactly if there is one; the sleep step, exactly if there are children, none has exited and the process is not killed; or the no-child step |
| `ProcTable.Ptable.Kill` | lab6/lab6/proc.c:544-563 | the first slot with the pid is marked, and made runnable with a new snapshot if it slept; no other slot changes; -1 exactly if no slot has the pid |
| `ProcTable.Ptable.Dispatch` | lab6/lab6/proc.c:391-400 | putting a process on the CPU is the schedule step: it runs, its wait is charged, and no other slot changes |
| `ProcTable.Ptable.Yield` | lab6/lab6/proc.c:442-452 | is the yield step: the process is runnable, its time on the CPU is charged, and no other slot changes |
| `ProcTable.Ptable.SleepOn` | lab6/lab6/proc.c:498-502 | is the sleep step: the process sleeps on the channel, its time on the CPU is charged, and no other slot changes |
| `Sched.StepInv` | lab6/200050086_lab6/trap.c:57-118 | every step keeps: one process at most is running, and its dispatch has a quota of 1 to 4 ticks of which those not yet used are what the yield rule still allows, in 32-bit arithmetic |
| `Sched.QuotaCounts` | lab6/200050086_lab6/trap.c:111-118 | a tick ends the dispatch by the yield rule exactly if it is the last of the quota, and otherwise leaves one less |
| `Sched.ChargedOnce` | lab6/200050086_lab6/proc.c:628-636 | each tick charges running time to the process on the CPU and to no other |
| `Sched.BoundedDispatch` | lab6/200050086_lab6/trap.c:111-118 | in every run a dispatch is charged at most its quota, at most 4 ticks, and yields at the last of them and not before; the quota is at most 2 if and only if the pid is odd or the running time at dispatch is below 2^32 - 2 |
| `Sched.QuotaReached` | lab6/200050086_lab6/trap.c:111-118 | every quota is used up by a process that only the timer takes off the CPU |
| `Sched.FourTicks` | lab6/200050086_lab6/trap.c:115-115 | so an even pid dispatched with running time 2^32 - 2 runs for four ticks: the counter passes 0, where the rule does not yield |
| `Sched.StepAhead` | lab6/200050086_lab6/proc.c:368-401 | no step adds to what others may be charged before a runnable process gets its turn, save a dispatch that passes 0, and each charge or dispatch uses some of it |
| `Sched.BoundedWait` | lab6/200050086_lab6/proc.c:368-401 | in every run in which a process stays runnable, at most NPROC - 1 dispatches of others, and at most 2 * (NPROC - 1) ticks charged to others plus two for each that passes 0, never more than 4 * (NPROC - 1) |
| `Sched.TimesGrow` | lab6/200050086_lab6/proc.c:628-636 | in every run, a slot's waiting time grows by exactly the ticks at which it was runnable and its running time by those at which it was running, modulo 2^32, until it is allocated again |
| `Sched.TimesCounted` | lab6/200050086_lab6/proc.c:315-357 | so at any time after a process was allocated, also when wait2 collects it, its two times are the ticks it has waited for the CPU and run on it, modulo 2^32 |
| `Sched.Machine.UpdateTable` | lab6/200050086_lab6/proc.c:628-636 | every running slot gains one tick of running time, every runnable one a tick of waiting, and no other slot changes |
| `Sched.Machine.TimerTrap` | lab6/200050086_lab6/trap.c:57-118 | the timer branch with its yield rule is the tick step and keeps the invariant: the process runs on exactly if it is not killed, its pid is even and its new running time is odd or 0, and else the cursor goes on to the next slot |
| `Sched.Machine.Scan` | lab6/200050086_lab6/proc.c:381-398 | the scheduler's loop switches to the first runnable process from the cursor on, and reaches the end only if there is none |
| `Pipe.CounterTests` | lab6/lab6/pipe.c:85-108 | the full and empty tests on wrapped 32-bit counters are right whenever at most 512 bytes are in the pipe |
| `Pipe.RingPut` | lab6/lab6/pipe.c:93-93 | storing at nwrite keeps ring, counters and byte history in agreement, also when the counter wraps |
| `Pipe.RingGet` | lab6/lab6/pipe.c:116-116 | the byte at nread is the oldest one not yet read |
| `Pipe.Ring.Pipewrite` | lab6/lab6/pipe.c:79-98 | as many bytes as fit go in, in order; when some are left, the call fails exactly if the read end is closed or the process killed, and else sleeps |
| `Pipe.Ring.Piperead` | lab6/lab6/pipe.c:101-121 | the next bytes in order, as many as asked for or as there are; at an empty pipe with the write end open the call fails exactly if the process is killed, and else sleeps |
| `Pipe.Ring.Pipeclose` | lab6/lab6/pipe.c:60-75 | one end is closed, and ring and byte history stay |
| `PipeProtocol.StepInv` | lab6/lab6/pipe.c:59-121 | every section of any process keeps order, capacity and what is left to write |
| `PipeProtocol.FifoOrder` | lab6/lab6/pipe.c:59-121 | in every state of every run the bytes read are a prefix of the bytes written, at most 512 behind |
| `PipeProtocol.LosingStep` | lab6/lab6/pipe.c:86-89 | a killed writer with more than 512 bytes to go leaves a sleeping reader asleep beside a full pipe |
| `PipeProtocol.StepSleep` | lab6/lab6/pipe.c:59-121 | a step keeps the sleep conditions, a sleeping reader means empty and writeopen, a sleeping writer full and readopen, if and only if it is not that one |
| `PipeProtocol.NoLostWakeup` | lab6/lab6/pipe.c:59-121 | the sleep conditions hold in all states of a run if and only if no step of it is a killed writer with more than 512 bytes to go, the read end open and a reader asleep |
| `PipeProtocol.NeverBothAsleep` | lab6/lab6/pipe.c:59-121 | where the sleep conditions hold, a reader and a writer are never both asleep |
| `PipeProtocol.KilledWriterLosesWakeup` | lab6/lab6/pipe.c:86-89 | there is a run with that step: reader 0 falls asleep, writer 1 is killed at the full pipe, and the reader sleeps on beside 512 bytes |
| `Shell.TokenWord` | lab6/lab6/sh.c:294-299 | a word followed by a blank, a symbol or the end is one token |
| `Shell.LineValid` | lab6/lab6/sh.c:345-446 | whatever the parser returns is a command with valid words and at most nine arguments each |
| `ShellGrammar.SpellRead` | lab6/lab6/sh.c:266-308 | however a line is spaced, with blanks wherever two tokens would run into one, its tokens are read from it |
| `ShellGrammar.Spelled` | lab6/lab6/sh.c:266-308 | and every line is its tokens, spaced in some such way |
| `ShellGrammar.ItemsRead` | lab6/lab6/sh.c:416-446 | words and redirections of a simple command, in any order, give its arguments in order, wrapped in its redirections in order |
| `ShellGrammar.PartRead` | lab6/lab6/sh.c:400-446 | a simple command, or a block with redirections behind it, is read as what it means |
| `ShellGrammar.PipelineRead` | lab6/lab6/sh.c:362-372 | so is a pipeline, whose bars bind tighter than what follows it |
| `ShellGrammar.LineRead` | lab6/lab6/sh.c:345-359 | so is a line: pipelines, each with any number of ampersands, and semicolons between them, up to the end of the line or block |
| `ShellGrammar.LineTree` | lab6/lab6/sh.c:345-446 | and whatever the parser accepts is a tree of this grammar with this meaning |
| `ShellGrammar.LineParsed` | lab6/lab6/sh.c:328-446 | every line of the grammar, with whatever blanks, is read by parsecmd as what it means, all of it |
| `ShellGrammar.ParsesGrammar` | lab6/lab6/sh.c:328-446 | parsecmd returns a command for a line if and only if the line is one of the grammar with that meaning, so it panics on exactly the other lines |
| `ShellGrammar.Unambiguous` | lab6/lab6/sh.c:345-446 | two trees of the grammar with the same tokens mean the same |
| `ShellGrammar.LineWritten` | lab6/lab6/sh.c:345-446 | every command can be written as such a line with parentheses only around what has no other place there: the line means the command |
| `ShellGrammar.RoundTrip` | lab6/lab6/sh.c:328-446 | for every command tree with valid words and at most nine arguments per command, parsing it so written gives the tree and uses all input |
| `ShellGrammar.Canonical` | lab6/lab6/sh.c:328-446 | so any accepted line and the writing of its command are read as the same command |
| `ShellParser.ScanToken` | lab6/lab6/sh.c:277-300 | token and end of its span from its first character on, one branch of the switch each; a word's span is maximal |
| `ShellParser.Gettoken` | lab6/lab6/sh.c:266-308 | token, span and cursor as the token grammar says; a word's span is maximal |
| `ShellParser.PeekAt` | lab6/lab6/sh.c:311-320 | looks at the next character after blanks, and moves past them |
| `ShellParser.ParseRedirs` | lab6/lab6/sh.c:375-397 | the loop wraps the command as the grammar says, or panics as it says |
| `ShellParser.ParseExec` | lab6/lab6/sh.c:416-446 | the loop over words and redirections gives the command of the grammar, redirections and all, or its panic |
| `ShellParser.ParseBlock` | lab6/lab6/sh.c:400-413 | gives the grammar's command or panic |
| `ShellParser.ParsePipe` | lab6/lab6/sh.c:362-372 | gives the grammar's command or panic; the recursion ends |
| `ShellParser.ParseLine` | lab6/lab6/sh.c:345-359 | gives the grammar's command or panic; the recursion ends |
| `ShellParser.ParseCmd` | lab6/lab6/sh.c:328-340 | the whole line is used, or the parser panics |
| `ShellParser.Nulterminate` | lab6/lab6/sh.c:450-493 | exactly the ends of the command's words become NUL |
| `ShellParser.EndsOutside` | lab6/lab6/sh.c:450-493 | no word end lies inside any word |
| `ShellParser.TreeSeen` | lab6/lab6/sh.c:450-493 | every word read from the buffer up to its NUL is the scanned word |
| `ShellParser.Parsecmd` | lab6/lab6/sh.c:328-342 | the command with its words read from the cut buffer is the one the grammar gives for the line |
| `Grep.AcceptsFirst` | lab6/lab6/grep.c:85-106 | an item for a piece of the text and the rest for what follows make a match |
| `Grep.AcceptsRest` | lab6/lab6/grep.c:85-106 | every match splits so |
| `Grep.MatchHere` | lab6/lab6/grep.c:85-96 | true exactly if the pattern's items can be laid out from the start of the text |
| `Grep.MatchStar` | lab6/lab6/grep.c:99-106 | true exactly if a run of c and then the pattern can be |
| `Grep.Match` | lab6/lab6/grep.c:73-82 | true exactly if that holds at some place, or at the start if anchored |
| `Cricket.BattedOk` | lab7/lab7/cricket-semaphores.c:34-70 | a player's turn keeps the board equal to the sums, counts and maxima of the runs |
| `Cricket.TalliedOk` | lab7/lab7/cricket-semaphores.c:85-121 | the umpire's entry makes the match one of the past and keeps the board right |
| `Cricket.ResultsAddUp` | lab7/lab7/cricket-semaphores.c:91-114 | wins and ties add up to the matches |
| `Cricket.BestTeamIsMax` | lab7/lab7/cricket-semaphores.c:91-114 | the highest team score is reached and never exceeded |
| `Cricket.BestPlayerIsMax` | lab7/lab7/cricket-semaphores.c:40-57 | no run of any match exceeds the highest individual score |
| `Cricket.Scoreboard.Bat` | lab7/lab7/cricket-semaphores.c:34-70 | one player is counted for the right team, and the umpire is called by the eleventh Titan alone |
| `Cricket.Scoreboard.Tally` | lab7/lab7/cricket-semaphores.c:85-121 | prints number, both totals and the best score of the match just played, and resets the board |
| `CricketMatch.StepInv` | lab7/lab7/cricket-semaphores.c:29-134 | every step of any schedule keeps the sum of 22, the mutual exclusion and the board |
| `CricketMatch.WorkShrinks` | lab7/lab7/cricket-semaphores.c:29-134 | every step leaves less to do |
| `CricketMatch.NoDeadlock` | lab7/lab7/cricket-semaphores.c:29-134 | some step is possible until all players are gone and the umpire has finished |
| `CricketMatch.MatchesFair` | lab7/lab7/cricket-semaphores.c:29-134 | in every run: the sum of 22, eleven and eleven players when the umpire adds up, 22 runs in every match, wins and ties equal matches, true maxima |
| `CricketMatch.AllMatchesPlayed` | lab7/lab7/cricket-semaphores.c:139-174 | every schedule is bounded, and one that cannot go on has played all matches with all players gone |

## Left out

- Directories, path names, ialloc, iget and iput, device inodes: easy additions to the inode layer; readi and writei are modelled for inodes that are not devices.
- The inode cache: all inodes are taken to be in memory, equal to those on disk at the start.
- BufferCache.Bcache.Bread: device 0, whose number unused buffers carry, is excluded.
- Log.LogSystem.Commit: a process that holds a listed block or a log block makes bread sleep until its brelse; the model's commit starts when nobody holds one. Others may hold any other buffer.
- BufferCache.Bcache.Brelse: a clean buffer must agree with the disk, which is what a caller that changes it and neither writes nor logs it would break.
- BufferCache.Bcache.Bget: uniqueness holds for devices other than 0, since unused buffers carry device and block 0.
- FileSystem.Fs.Writei: of the state in which it panics, only ownership and the recorded log_write calls are stated.
- FileCrash.FilesDurable: that the block map holds files at every quiet point when operations interleave is the work of the inode locks, which are not modelled; Mount shows it for operations one after the other.
- Mount.Mount.Write: the log_write calls of writei are made one after the other once writei has said what they are; it is the only operation open, and nobody else holds a buffer.
- Heap.Allocator.Malloc: requests that would ask sbrk for 2 GiB or more, which its int argument turns negative, are excluded; SbrkFits says which they are.
- Heap.Allocator.Morecore: the same requests are excluded.
- Heap.Allocator.Round: the same requests are excluded.
- Sleep locks, spin locks, interrupts and memory ordering: a protected section is one step.
- VirtualMemory.Vm.Mappages: a page that is already mapped panics in the source, and callers are required not to ask for one; in the user half the range is one page, as in every call of the source.
- VirtualMemory.Vm.Deallocuvm: oldsz is at most KERNBASE, as the size of a process is.
- VirtualMemory.Vm.Allocuvm: the pages of the range must not be mapped already, on which mappages would panic.
- VirtualMemory.Vm.CountPhysicalPages: sz is at most KERNBASE; sys_mmap does not check that.
- VirtualMemory.Vm.Copyuvm: an absent page below sz panics in the source, so all pages below sz are required to be present.
- VirtualMemory.Vm.PageFault: a fault on a page that is present would panic in mappages and is excluded, and sz is at most KERNBASE - PGSIZE.
- VirtualMemory.Vm.Kfree: the range check against end and PHYSTOP is the requirement that the frame is one of the memory's and not free.
- count_free_pages and page_table_size; loaduvm, copyout and clearpteu.
- Procs.DistinctPids: a pid is an unsigned word here; as an int it would turn negative after 2^31 processes.
- Kernel stacks, page directories and open files of processes: fork may fail at its allocation steps, and nothing else depends on them.
- Procs.LazyAccounting: a section reads ticks once; on several CPUs two reads in one section could differ.
- Pipe.Ring.Pipeclose: its wakeup is part of the protocol's close step; freeing the page of a pipe that is closed at both ends is not modelled.
- PipeProtocol.StepInv: an end is closed only while no process is inside its call, as the reference counts of file.c ensure.
- runcmd, getcmd and the cd built-in of the shell.
- Grep.Match: the line buffer of grep() is not modelled; texts and patterns are strings without NUL.
- CricketMatch.StepInv: players are counted by where they are, since bat does not use its argument; creation and joining of threads is not modelled.
- The condition-variable version of the cricket exercise, task queues, user programs, drivers and boot code.
