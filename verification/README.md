# A model of the xv6 labs

This project models the hard parts of an xv6-riscv kernel and its user programs,
as they stand in `lab02`, and the instrumented scheduler of `lab3`, and proves
what they are for. The C code changes things step by step, so the model does:
structures with fields are classes, loops are loops, and each method is tied to
functions and predicates about which the lemmas speak. Protocols between several
processes or CPUs are machines whose steps lie between the points where another
one can interfere; a run is any sequence of steps.

| files | what they model |
|---|---|
| `Basics`, `Bytes`, `Disk` | shared sizes and helpers; little-endian numbers in byte sequences; disk blocks and a disk that remembers every state it has been in |
| `Bio`, `LogSpec`, `LogProtocol`, `Log` | the buffer cache; the redo log: its disk states and recovery, its group-commit protocol, and the code over the cache |
| `Fs`, `Crowded`, `Durable`, `Links`, `Orphans`, `Names` | the bitmap, block maps, file contents and write transactions, the writes that need a whole reservation, and crashes during a file write; directories, link counts and inode freeing, and where they fail; paths |
| `Sv39`, `Kalloc`, `Vm`, `VmFree`, `VmCopy`, `Spaces` | page-table entries and trees (section 4.4 of the RISC-V Privileged Architecture, version 20211203), the page allocator, mapping, freeing and user copies; all address spaces together |
| `Umalloc` | the user-level allocator |
| `Proc`, `Family`, `RoundRobin`, `Sync`, `PingPong`, `Pipe`, `Virtio` | process life cycle; parents and children, whole calls and the absence of deadlock; the round-robin scan; sleep, wakeup, semaphores and sleeplocks; the two-process program; pipes; the virtio disk driver |
| `Grep`, `Patterns`, `Shell`, `Grammar` | the regular-expression matcher and line filter, and what its patterns mean; the command parser and the grammar of command lines |

Conventions. A `panic`, or a halt of the program, is an outcome of the method
(`None`, `false`, `Panic`, `Halt`, `Err`), and its contract says when it happens.
Code under a spinlock is one step or one method; giving the lock up in `sleep`
ends the method. A single block write is atomic. Physical pages and disk blocks
are byte sequences, and numbers in them are encoded and decoded byte by byte.
Where the width of an integer matters (16-bit link counts and ring indices,
32-bit file offsets and pipe counters, 64-bit entries) it is written out.

## Where the code falls short of its purpose

Each of these is the exact condition, or a reachable state, in a lemma.

- `log_write` tests for room before it looks whether the block is already in
  the log, so a full log refuses even a block it holds. Operations that log at
  most k different blocks each, however often, never reach "too big a
  transaction" if and only if k = 0, or k < MAXOPBLOCKS and the log area has more
  than MAXOPBLOCKS + 2k + 1 blocks (`LogProtocol.TooBigUnreachableIff`): with the
  LOGSIZE blocks that the file-system builder gives the log, k is at most 9, and
  `filewrite` can need 10 (`Crowded.WriteChunk`). A block that the log does not
  hold yet is never refused if and only if k = 0, or k <= MAXOPBLOCKS and the area
  has more than MAXOPBLOCKS + 2k blocks (`LogProtocol.NewBlockFitsIff`).
- With a larger log area a transaction can hold LOGSIZE = NBUF blocks
  (`LogProtocol.FullLogReachable`); all buffers are then pinned, and `commit`
  panics in `bget`. It completes if and only if nothing is logged or some buffer
  is unreferenced when it starts (`Log.Log.Commit`), that is, when the logged
  blocks and the buffers held by processes outside the log are fewer than NBUF
  (`Log.FreeBufferIff`): with the log area as it is, 29 logged blocks and one
  reader of another block suffice for the panic (`Log.TakeAll`,
  `Log.CommitPanics`).
- A write whose source cannot be read in the middle of a piece leaves the bytes
  before the fault in the cached block, which it does not log: they show in the
  file although the count returned leaves them out (`Fs.SpillSeenIff`,
  `Fs.LostShows`, `Fs.FaultingWrite`), and no transaction holds them, so they are
  not in the state that a crash leaves (`Fs.FileSystem.FileWrite`,
  `Durable.FileWriteCrash`).
- Creating or linking a name in a directory that has itself been unlinked (a
  process still has it as its current directory) breaks the link counts, and so
  does a count that passes 32767 (`Links.CreateKeeps`, `Links.LinkEndKeeps`,
  `Links.LinkBeginKeeps`; on concrete file systems `Orphans.CreateBreaks`,
  `Orphans.LinkBreaks`, `Orphans.LinkWraps`).
- `copyout` ignores the write permission of a user page: it writes only where the
  user may if and only if every page of its accessible prefix has PTE_W
  (`VmCopy.WritesOnlyWritableIff`, `VmCopy.WritesReadOnly`).
- `morecore` records more memory than sbrk gives for a request of more than
  2^31 - 32 bytes (`Umalloc.ObtainedIff`, `Umalloc.Heap.Malloc`): malloc(2^32 - 1)
  obtains 16 bytes, and malloc(2^31) none at all in a process with less than 2 GiB
  of memory (`Umalloc.LargeRequests`). When the header of the new block is in no
  page of the process, writing it kills the process (`Umalloc.Heap.Morecore`).
- `grep` prints every matching line if and only if none matches from the first on
  that lacks its newline, has more than 1022 characters or holds a NUL
  (`Grep.GrepRightIff`, `Grep.LosesLastLine`).
- A writer killed after it has put bytes into a pipe leaves without waking the
  readers: one that slept on the empty pipe still sleeps (`Pipe.Pipe.Write`,
  `Pipe.KilledWriter`).
- `piperead` takes a byte out of the pipe before the copy that may refuse it
  (`Pipe.Pipe.ReadLoop`).

## Model

| member | source | states |
|---|---|---|
| Bio.RingUnlink | lab02/kernel/bio.c:128-129 | taking a buffer out of the doubly linked ring leaves the ring through all the others, in the same order |
| Bio.RingPush | lab02/kernel/bio.c:130-133 | putting a buffer that is not in the ring at its front leaves the ring through that buffer and then all the others |
| Bio.Bcache.constructor | lab02/kernel/bio.c:36-53 | the ring reaches all NBUF buffers, none referenced, none locked |
| Bio.Bcache.FindCached | lab02/kernel/bio.c:66-73 | finds the buffer of the block, and only fails when no buffer holds it |
| Bio.Bcache.FindUnused | lab02/kernel/bio.c:77-87 | finds the unreferenced buffer released longest ago; fails only when every buffer is referenced |
| Bio.Bcache.Bget | lab02/kernel/bio.c:58-89 | a hit gains one reference and is locked; a miss recycles the least recently released unreferenced buffer; it panics exactly when every buffer is referenced and none holds the block; all other buffers are unchanged |
| Bio.Bcache.Bread | lab02/kernel/bio.c:92-103 | the locked buffer holds what the block reads as (the cached contents, else the disk), and recycling changes what no block reads as |
| Bio.Bcache.Bwrite | lab02/kernel/bio.c:106-112 | the disk changes at the home block of the buffer only, one atomic write, and every block still reads the same |
| Bio.Bcache.Brelse | lab02/kernel/bio.c:116-137 | one reference less; at zero the buffer goes to the front of the ring and becomes the most recently released, and the others keep their order; every unreferenced buffer agrees with the disk |
| Bio.Bcache.Bpin | lab02/kernel/bio.c:139-144 | one reference more and nothing else |
| Bio.Bcache.Bunpin | lab02/kernel/bio.c:146-151 | one reference less, allowed to be the last only when the buffer agrees with the disk |
| Bio.RecycleKeepsView | lab02/kernel/bio.c:77-86 | no data is lost when an unreferenced buffer is given to another block |
| LogSpec.TargetsOfHead | lab02/kernel/log.c:85-114 | the header block written by write_head lists, when read back by read_head, exactly the logged blocks in order |
| LogSpec.RecoveryIdempotent | lab02/kernel/log.c:116-123 | recovery interrupted after any number of its block writes can be run again and ends with the same home blocks |
| LogSpec.RecoveryConverges | lab02/kernel/log.c:116-123 | any number of crashes during recovery ends with the home blocks of one undisturbed recovery |
| LogSpec.CrashBeforeCommit | lab02/kernel/log.c:193-203 | a crash before the header is written: recovery leaves the old home blocks |
| LogSpec.CrashAfterCommit | lab02/kernel/log.c:193-203 | from the header write until it is cleared, the log on disk holds the whole transaction and nothing else has changed |
| LogSpec.CommitDone | lab02/kernel/log.c:193-203 | a finished commit has applied exactly the transaction and emptied the log |
| LogSpec.CrashAtomic | lab02/kernel/log.c:67-203 | for every transaction and every crash point of commit, recovery leaves exactly the old or exactly the new home blocks, the new ones if and only if the header reached the disk |
| LogSpec.StepAtomic | lab02/kernel/log.c:67-203 | one commit with any crash in it and any crashes of the recoveries after it is all or nothing, and leaves the log empty |
| LogSpec.RunDurable | lab02/kernel/log.c:67-235 | a run of any number of commits, crashes and recoveries leaves exactly the transactions whose header reached the disk, whole and in order |
| LogSpec.InstallDetermined | lab02/kernel/log.c:68-83 | installing the whole log gives the same home blocks from any disk that agrees on the log and on the blocks it does not list |
| LogSpec.HeadBytes | lab02/kernel/log.c:35-38 | the bytes of the header block: the count in the first four, block number i in the four from 4 * i + 4 on |
| LogProtocol.GroupCommit | lab02/kernel/log.c:126-235 | over all interleavings of operations that call log_write any number of times, for at most k <= MAXOPBLOCKS different blocks each: committing implies no operation is active; what an operation has logged is in the current transaction, and its writes are all in one; the blocks logged and those still to come never exceed MAXOPBLOCKS + 2k <= LOGSIZE; and the panics at lines 154 and 223 cannot happen |
| LogProtocol.TooBigUnreachableIff | lab02/kernel/log.c:220-221 | the exact condition, in k and the size of the log area, for the panic at line 221 to be unreachable: k = 0, or k < MAXOPBLOCKS and more than MAXOPBLOCKS + 2k + 1 blocks |
| LogProtocol.FullLogReachable | lab02/kernel/log.c:126-142 | with a log area of more than LOGSIZE blocks, operations within MAXOPBLOCKS different blocks can fill the log |
| LogProtocol.InvRuns | lab02/kernel/log.c:126-235 | the reservation invariant survives every sequence of begin_op, log_write and end_op, from any number of operations |
| LogProtocol.NewBlockFitsIff | lab02/kernel/log.c:220-221 | the exact condition for that panic never to hit a block the log does not hold yet: k = 0, or k <= MAXOPBLOCKS and more than MAXOPBLOCKS + 2k blocks |
| LogProtocol.NoLostWakeup | lab02/kernel/log.c:126-175 | a caller of begin_op sleeps only while it could not begin, and then an operation or a commit is under way whose end wakes it |
| LogProtocol.SleepersReachable | lab02/kernel/log.c:130-135 | with three operations in progress any number of callers can be asleep in begin_op |
| Log.FreeBufferIff | lab02/kernel/log.c:225-233 | a block that is not cached finds a buffer if and only if the logged blocks and the buffers that processes hold besides them are fewer than NBUF |
| Log.Log.constructor | lab02/kernel/log.c:54-65 | from any disk a crash can leave: the recovered disk, an empty log, every state of the disk in between |
| Log.Log.BeginOp | lab02/kernel/log.c:126-142 | admits exactly when no commit is in progress and n + (outstanding + 1) * 10 <= 30 |
| Log.Log.LogWrite | lab02/kernel/log.c:214-235 | records and pins the block once (absorption), panics exactly on the two guards, and changes what no block reads as |
| Log.Log.EndOp | lab02/kernel/log.c:146-175 | the last operation out commits; what every home block reads as is unchanged; the panic of bget exactly when something is logged and every buffer is referenced |
| Log.Log.Commit | lab02/kernel/log.c:193-203 | with any buffers held by processes outside the log: takes the disk through exactly the states of the crash-atomicity model, returns every pin and no other reference, and completes if and only if nothing is logged or some buffer is unreferenced when it starts |
| Log.Log.WriteLog | lab02/kernel/log.c:178-191 | writes the cached contents of the logged blocks, in order, to the log blocks, and nothing else |
| Log.Log.WriteHead | lab02/kernel/log.c:102-114 | one disk write, of the header block, with the current count and block numbers |
| Log.Log.InstallTrans | lab02/kernel/log.c:68-83 | copies log blocks to home blocks in order, one write each, and drops one pin each when not recovering |
| Log.Log.ReadHead | lab02/kernel/log.c:86-97 | the in-memory list becomes the list in the header block |
| Log.Log.RecoverFromLog | lab02/kernel/log.c:116-123 | takes the disk through exactly the states of the recovery model and leaves an empty log |
| Log.Log.LockPair | lab02/kernel/log.c:74-75 | finds two buffers, of a log block and its home block, exactly when some buffer is unreferenced |
| Log.Log.InstallBlock | lab02/kernel/log.c:73-82 | one home block becomes its log block, and its pin goes |
| Log.Log.WriteLogBlock | lab02/kernel/log.c:183-190 | one log block becomes the cached contents of its home block |
| Log.Settle | lab02/kernel/log.c:183-190 | bringing a block into a buffer and letting it go again keeps every other reference, the pins, and the agreement of unlogged blocks with the disk |
| Log.Log.CopyHome | lab02/kernel/log.c:76-81 | the copy, the write, the unpin and the two releases of one installed entry |
| Log.Log.CopyToLog | lab02/kernel/log.c:186-189 | the copy, the write and the two releases of one log block |
| Log.TakeAll | lab02/kernel/log.c:126-140 | from a blank disk with a log of LOGSIZE blocks, three operations log 29 different blocks, two of them end, and a process outside reads one block more: every buffer is taken |
| Log.CommitPanics | lab02/kernel/log.c:146-175 | when the last of those operations then ends, its commit finds no buffer |
| Fs.BitWithBit | lab02/kernel/fs.c:75-77 | setting or clearing a bit changes that bit of the byte and no other |
| Fs.SetMarkMarked | lab02/kernel/fs.c:91-105 | changing the mark of one block changes the mark of no other block |
| Fs.NoSharing | lab02/kernel/fs.c:383-421 | no block is reached through two slots of any inodes, and every block reached is marked in use |
| Fs.LeastFreeFirst | lab02/kernel/fs.c:72-85 | the allocation order: no smaller free block exists than the one chosen |
| Fs.LinkKeeps | lab02/kernel/fs.c:388-418 | allocating a block and storing its number in an empty slot keeps all block pointers distinct and the bitmap exact, keeps every mapped byte of every file, and never unmaps a block |
| Fs.MapBlockOnly | lab02/kernel/fs.c:383-421 | a missing block is added in the asked-for slot (and the indirect block if that is missing too), nowhere else, and reads as zeros |
| Fs.PutBytesKeeps | lab02/kernel/fs.c:520-527 | bytes stored in a data block change those bytes of that file and nothing of any other file, block pointer or bitmap |
| Fs.DropKeeps | lab02/kernel/fs.c:432-448 | freeing one slot during truncation keeps the remaining pointers distinct and the bitmap exact |
| Fs.TrimmedMarks | lab02/kernel/fs.c:425-453 | truncation clears the marks of exactly the blocks the file owned |
| Fs.WrittenDone | lab02/kernel/fs.c:530-536 | adjusting the size turns the bytes laid down into the file contents: the old contents overwritten at the offset |
| Fs.ReadAfterWrite | lab02/kernel/fs.c:472-539 | reading what was written returns it, also when the read runs past the end of the file; reading elsewhere returns what was there, and the size is the maximum of the two ends |
| Fs.ChunkIsLargest | lab02/kernel/file.c:149-160 | the chunk of filewrite is the largest length whose cost fits MAXOPBLOCKS at every offset, aligned or not; that the cost is reached is Crowded.WriteChunk |
| Fs.FileSystem.Balloc | lab02/kernel/fs.c:65-88 | marks and zeroes the least free block and logs both blocks; 0 when none is free |
| Fs.FileSystem.Bfree | lab02/kernel/fs.c:91-105 | clears the mark; panics exactly when the block is free |
| Fs.FileSystem.Bmap | lab02/kernel/fs.c:382-421 | the block of the slot after direct or indirect allocation; logs at most the new block, the indirect block and their bitmap blocks; every changed block is logged; the block number is that of pointer bn of the inode, or of entry bn - NDIRECT of its indirect block |
| Fs.FileSystem.Itrunc | lab02/kernel/fs.c:425-453 | every block of the file is freed exactly once ("freeing free block" cannot happen), its slots and size are zero, and every other file keeps its contents |
| Fs.FileSystem.Readi | lab02/kernel/fs.c:471-496 | Min(n, size - off) bytes, each the byte of the file at its place, nothing when the range starts past the end or overflows 32 bits, and -1 if and only if the destination has no room for them; nothing changes |
| Fs.FileSystem.Writei | lab02/kernel/fs.c:505-539 | -1 exactly on the three range errors; otherwise the first r bytes are laid over the file, the rest of it, all other files and all block pointers are kept, and pointers are added only where blocks were missing in the range; r is short only at a block that is missing with none free, or before a piece whose source cannot all be read, and in that case the readable bytes of that piece are in its cached block, unlogged when the block was there before; every other block that changed is logged, at most WriteCost of them |
| Fs.FileSystem.FileWrite | lab02/kernel/file.c:134-181 | the chunks together write a prefix of the source at the file offset: all of it, or the disk is full, the source cannot all be read, or the range is bad; every transaction logs at most MAXOPBLOCKS blocks, among them each block it changes; after each the file holds a prefix of the source and no other inode has changed; only what a failing copy has left is in the cache and in no transaction |
| Fs.FileSystem.ScanBlock | lab02/kernel/fs.c:73-84 | the first clear bit of one bitmap block |
| Fs.FileSystem.MapDirect | lab02/kernel/fs.c:388-406 | a slot of the inode itself, filled if a block is free |
| Fs.FileSystem.MapEntry | lab02/kernel/fs.c:407-417 | an entry of the indirect block, filled if a block is free |
| Fs.FileSystem.TrimDirect | lab02/kernel/fs.c:432-437 | the direct blocks are freed, each once |
| Fs.FileSystem.TrimTable | lab02/kernel/fs.c:439-449 | the indirectly listed blocks and then the indirect block are freed, each once |
| Fs.FileSystem.WriteChunk | lab02/kernel/fs.c:516-528 | one round lays its piece down whole, or finds no block for it, or leaves the part of it that could be read in the cached block |
| Fs.LinkRef | lab02/kernel/fs.c:388-415 | storing a block number changes that slot and no other of any inode |
| Fs.WroteThen | lab02/kernel/file.c:157-174 | two adjacent writes are one |
| Fs.ReadChunk | lab02/kernel/fs.c:482-493 | one round of the read loop copies the bytes of the file at its offset |
| Fs.FileSystem.LayDown | lab02/kernel/fs.c:516-528 | the loop of writei: the bytes laid down, the block pointers gained, why it stopped, and what a failing copy leaves in the cache |
| Fs.ChunkGains | lab02/kernel/fs.c:517-519 | one round maps at most the block it asks for, and the indirect block |
| Fs.FileSystem.WriteOne | lab02/kernel/file.c:148-176 | one turn of the loop of filewrite is a transaction that logs at most MAXOPBLOCKS blocks and carries the written prefix on, changing no other inode |
| Fs.SpillSeenIff | lab02/kernel/fs.c:522-525 | what a failing copy has stored shows in the file if and only if some of it lies below the size of the file and differs from what was there |
| Fs.LostShows | lab02/kernel/fs.c:522-525 | the file then reads as if all the readable bytes had been written, except that it is no longer than the bytes counted make it; every other file is as before |
| Fs.FaultingWrite | lab02/kernel/fs.c:505-539 | writing two bytes of which only the first can be read returns 0 and has changed the file |
| Fs.RoundLost | lab02/kernel/fs.c:517-525 | if the block was allocated in that round it is logged and the stray bytes lie beyond the end of the file; otherwise they are the only change outside the log |
| Fs.OthersSame | lab02/kernel/fs.c:505-539 | a write that keeps the contents and pointers of the other files keeps their inodes |
| Fs.ContentAt | lab02/kernel/fs.c:383-421 | where byte k of a file is on the disk: block k / 1024 of the file, through a pointer of the inode or an entry of the indirect block |
| Fs.MarkedIs | lab02/kernel/fs.c:73-77 | the mark of block x is bit x % 8 of byte x % 8192 / 8 of bitmap block x / 8192 |
| Crowded.StartValid | lab02/kernel/fs.c:65-105 | a disk with one free block left to each bitmap block is a valid file system |
| Crowded.NotShort | lab02/kernel/fs.c:516-528 | the free blocks are as many as the write needs, so it is not cut short |
| Crowded.MustLog | lab02/kernel/fs.c:505-539 | whatever such a write leaves has changed MAXOPBLOCKS + m blocks |
| Crowded.WriteChunk | lab02/kernel/file.c:149-160 | on that disk a write of CHUNK bytes logs exactly MAXOPBLOCKS blocks, and one of CHUNK + 1 bytes one more |
| Durable.InodeStored | lab02/kernel/fs.c:225-241 | an inode written back to its block reads as it was, and the other inodes of the block are untouched |
| Durable.ImageReads | lab02/kernel/fs.c:303-316 | a disk that holds a valid volume, inodes and all, is a valid file system with the same files |
| Durable.TransactionFits | lab02/kernel/file.c:147-152 | the blocks of one chunk, listed once each in any order, fit the log and lie outside it |
| Durable.TransactionStored | lab02/kernel/log.c:69-84 | installing what a chunk logged, on a disk that holds the state before it, leaves a disk that holds the state after it |
| Durable.CrashStepStored | lab02/kernel/log.c:193-203 | one chunk with a crash anywhere in its commit and any crashes in recovery: the disk holds the state after it if the header was written, else the state before it |
| Durable.DiskHolds | lab02/kernel/file.c:147-177 | along a file write the disk holds the state after its last committed chunk |
| Durable.FileWriteCrash | lab02/kernel/file.c:147-177 | a crash at any disk write of a file write, with any crashes in recovery, leaves a valid file system in which the file holds a prefix of what was to be written, that of the chunks whose header reached the disk, and every other file is as before |
| Durable.InodeBytes | lab02/kernel/fs.h:32-45 | inode i is entry i % 16 of block inodestart + i / 16; the bytes of its size and of each block pointer in it |
| Links.LinkBeginKeeps | lab02/kernel/sysfile.c:138-147 | the increment before the new name is entered keeps the counts, counting pending links, if and only if the 16-bit count does not wrap |
| Links.LinkEndKeeps | lab02/kernel/sysfile.c:149-169 | entering the name, or taking the increment back on every failure path, keeps the counts if and only if it failed or the directory is itself linked |
| Links.LinkUndoKeeps | lab02/kernel/sysfile.c:163-169 | the failure path restores the counts |
| Links.CreateKeeps | lab02/kernel/sysfile.c:245-302 | create either changes nothing (all failure paths included) or adds one inode, and then keeps the counts and the tree if and only if the parent is linked and its count does not wrap; it panics only in an unlinked directory |
| Links.CreatedDead | lab02/kernel/sysfile.c:251-302 | creating anything in an unlinked directory breaks the counts |
| Links.OnlyParent | lab02/kernel/sysfile.c:215-221 | an empty directory other than the root has exactly one link, the entry in its parent |
| Links.UnlinkKeeps | lab02/kernel/sysfile.c:188-243 | sys_unlink keeps the counts and the tree on every path and cannot reach its panics |
| Links.PutKeeps | lab02/kernel/fs.c:336-362 | an inode is freed only when no linked directory has an entry for it and no link is pending |
| Links.ReachesRoot | lab02/kernel/sysfile.c:276-289 | following ".." from any linked directory ends at the root |
| Links.Directories.DirLookup | lab02/kernel/fs.c:551-575 | the first nonempty entry of that name, none exactly when no entry has it |
| Links.Directories.DirLink | lab02/kernel/fs.c:579-606 | refused for a name already there or a directory that cannot grow; otherwise the entry goes to the first empty slot, or to the end |
| Links.Directories.IsDirEmpty | lab02/kernel/sysfile.c:172-186 | true exactly when no entry after the first two is in use |
| Links.Directories.IAlloc | lab02/kernel/fs.c:198-219 | the first free inode from 1 on, with a zero link count |
| Links.Directories.IPut | lab02/kernel/fs.c:336-362 | frees the inode exactly when the last reference to an unlinked inode goes |
| Links.Directories.CreateIn | lab02/kernel/sysfile.c:245-302 | an existing name gives its inode exactly when a file is asked for and it names a file or device, with nothing changed; a new one gives a new inode with its entries and counts, or failure with nothing changed; afterwards the first entry of the name is the inode returned; the file system is consistent exactly under the condition of CreateKeeps, otherwise the counts are wrong |
| Links.Directories.LinkOld | lab02/kernel/sysfile.c:138-147 | refuses directories, with nothing changed; otherwise counts the link before it exists |
| Links.Directories.LinkNew | lab02/kernel/sysfile.c:149-169 | enters the link or takes it back; it breaks the counts exactly when it enters a link into an unlinked directory |
| Links.Directories.SysUnlink | lab02/kernel/sysfile.c:188-243 | removes the entry and adjusts both counts, never "." or "..", never a directory in use; consistent afterwards |
| Links.TotalUpdate | lab02/kernel/sysfile.c:145-231 | rewriting one directory changes the number of links to an inode by that directory's difference |
| Links.CreatedCounts | lab02/kernel/sysfile.c:270-289 | a new inode adds one link to itself and, if a directory, one to its parent |
| Links.UnlinkedCounts | lab02/kernel/sysfile.c:222-232 | removing an entry takes one link from its inode and, if that was an empty directory, one from the parent |
| Links.TreeMkdir | lab02/kernel/sysfile.c:276-289 | a new directory hangs one level below its parent in the tree |
| Links.TreeRmdir | lab02/kernel/sysfile.c:222-232 | removing an empty directory leaves a tree |
| Links.ParentCount | lab02/kernel/sysfile.c:225-228 | a directory with a subdirectory has at least two links, so it stays linked when one goes |
| Links.LookupIs | lab02/kernel/fs.c:551-575 | lookup succeeds if and only if some nonempty entry has the name, at the first of them |
| Links.LinkedIs | lab02/kernel/fs.c:579-606 | dirlink succeeds if and only if the name is not there and a slot is empty or the directory can grow; then the entry is in the first empty slot or at the end, the other entries are as before, and it is what a lookup finds |
| Links.CreateIs | lab02/kernel/sysfile.c:255-302 | a name already there: the file or device it names when a file is asked for, failure otherwise, nothing changed; a new name: an inode that was free, one link, ".." to the parent in a directory, one entry in the parent, which counts one more for a directory, or failure with nothing changed exactly when no inode is free or a directory cannot grow; on success a lookup of the name finds the inode returned |
| Links.UnlinkIs | lab02/kernel/sysfile.c:202-243 | fails, with nothing changed, exactly for "." and "..", a missing name and a directory in use; otherwise the first entry of the name is erased, its inode counts one link less and the parent of a directory one less |
| Orphans.FreshInv | lab02/kernel/sysfile.c:276-289 | a fresh root satisfies the invariant of counts and tree |
| Orphans.Orphan | lab02/kernel/sysfile.c:188-302 | mkdir, then rmdir while a process is in the directory: an unlinked directory that is still in use, in a consistent file system |
| Orphans.CreateBreaks | lab02/kernel/sysfile.c:251-302 | creating a file there succeeds, and the link counts no longer match the entries |
| Orphans.LinkBreaks | lab02/kernel/sysfile.c:126-169 | so does linking a file into it, with the same result |
| Orphans.LinkWraps | lab02/kernel/sysfile.c:145-147 | a file with 32767 names is consistent, and one more link makes its count -32768 |
| Names.SkipElem | lab02/kernel/fs.c:622-645 | none exactly for a path of slashes; otherwise the longest run without slashes after the leading ones, cut to DIRSIZ, and a rest without leading slashes that has exactly the other elements |
| Names.NameiIsLookupInParent | lab02/kernel/fs.c:651-697 | namei finds exactly what dirlookup finds under the last name in the directory nameiparent returns |
| Names.Resolver.NameX | lab02/kernel/fs.c:651-684 | starts at inode 1 for a path that begins with a slash and at the current directory for any other; walks exactly the elements of the path, stops one early for nameiparent, fails at the first missing name or non-directory, and holds a reference on the result alone |
| Names.WalkLast | lab02/kernel/fs.c:661-678 | walking a longer path is walking its front and then its last name |
| Names.WalkIs | lab02/kernel/fs.c:661-678 | the walk succeeds at r if and only if a chain of directories leads there, each of whose first entries of the next name is the next inode |
| Names.ResolvedIs | lab02/kernel/fs.c:661-684 | namei is the end of that chain; nameiparent is its last directory, for a path with at least one name |
| Names.AbsolutePath | lab02/kernel/fs.c:656-661 | a leading slash changes no element: namei("/" + p) from anywhere is namei(p) from the root |
| Sv39.FrameOfEntry | lab02/kernel/riscv.h:341-352 | PTE2PA undoes PA2PTE and the flag bits survive, for every page address and flags |
| Sv39.IndicesInjective | lab02/kernel/riscv.h:354-363 | below MAXVA the three indices and the offset determine the address |
| Sv39.AddTable | lab02/kernel/vm.c:95-100 | hooking a fresh zeroed table into an empty entry keeps the tree and every translation |
| Sv39.SetLeaf | lab02/kernel/vm.c:158 | overwriting a leaf entry changes the translation of that page number alone |
| Sv39.UntouchedTables | lab02/kernel/vm.c:85-103 | writes to pages that are not tables change no translation |
| Sv39.TranslatedIs | lab02/kernel/vm.c:85-103 | what the tree gives a page number is what a walk of the three tables in memory by the nine-bit fields of the address finds, as the hardware does it |
| Sv39.BitsOfFlags | lab02/kernel/riscv.h:341-352 | V, U and the bits R, W, X are bits 0, 4 and 1 to 3 of an entry |
| Kalloc.Kmem.constructor | lab02/kernel/kalloc.c:26-31 | every page of memory is on the free list |
| Kalloc.Kmem.FreeRange | lab02/kernel/kalloc.c:33-40 | frees exactly the whole pages of the range |
| Kalloc.Kmem.Kfree | lab02/kernel/kalloc.c:46-63 | pushes the page on the chain threaded through the free pages; panics exactly for an address that is not a page of this memory |
| Kalloc.Kmem.Kalloc | lab02/kernel/kalloc.c:68-82 | pops the first free page, or 0 exactly when there is none |
| Vm.Walk | lab02/kernel/vm.c:85-103 | finds the entry that the tree gives the page number; with alloc it adds tables and changes no translation; pages are conserved; it takes at most two pages, and fails only with at most one free |
| Vm.MapPages | lab02/kernel/vm.c:142-165 | adds exactly its range; when memory runs out, exactly a prefix of it; halts exactly on a remap, an empty range or an address beyond MAXVA |
| Vm.UvmUnmap | lab02/kernel/vm.c:170-192 | removes exactly its range and frees exactly the frames of it; halts exactly at an address that is not a leaf |
| Vm.UvmDealloc | lab02/kernel/vm.c:255-267 | removes and frees exactly the pages between the two rounded sizes; halts exactly when one of them is not mapped |
| Vm.UvmAlloc | lab02/kernel/vm.c:225-249 | success maps zeroed pages that were free with the given permissions; failure leaves every mapping as before and returns every page that did not become a table; either way no page changes but free ones and tables of this space; it fails only with fewer than three free pages for each page to add |
| Vm.GrownUndone | lab02/kernel/vm.c:236-245 | removing what was added restores every entry and every page |
| Vm.UvmCopy | lab02/kernel/vm.c:305-333 | success gives the new space fresh frames with equal bytes and flags; failure leaves its mappings as before and returns the pages; the old space, and every page that was not free or a table of the new space, is as it was; it runs out of memory only with fewer than three free pages for each page to copy |
| Vm.Grow | lab02/kernel/vm.c:95-100 | a fresh zeroed table is hooked in, or no page is free; no translation changes |
| Vm.MapStep | lab02/kernel/vm.c:151-159 | one entry is added, unless it is there, beyond MAXVA or out of memory |
| Vm.UnmapOne | lab02/kernel/vm.c:178-191 | one entry is removed and its frame freed |
| Vm.Rollback | lab02/kernel/vm.c:236-245 | the error path removes and frees exactly what was added, and has changed no other page |
| Vm.TakePage | lab02/kernel/vm.c:234-246 | a free page with the given contents is mapped, or given back |
| Vm.CopyPage | lab02/kernel/vm.c:313-327 | one turn of the copying loop |
| Vm.CopyUndo | lab02/kernel/vm.c:330-332 | the error path of uvmcopy removes and frees exactly what was copied |
| Vm.FillPage | lab02/kernel/vm.c:234-240 | a free page with the given contents, or 0 exactly when none is free; no translation changes |
| VmFree.FreeWalk | lab02/kernel/vm.c:271-287 | frees every table at or below it exactly once, and terminates |
| VmFree.UvmFree | lab02/kernel/vm.c:291-297 | every user frame and every table goes back to the allocator, none twice |
| VmFree.ProcFreePagetable | lab02/kernel/proc.c:208-216 | the trampoline and trapframe pages are kept, every other page of the address space is freed once, and no page outside it changes |
| VmFree.FreeChild | lab02/kernel/vm.c:277-281 | the table behind an entry, and all below it, are freed and the entry cleared |
| VmCopy.WalkAddr | lab02/kernel/vm.c:108-126 | the frame of the address if it is below MAXVA and bits 0 and 4 of its entry are set, 0 for every other address |
| VmCopy.CopyIn | lab02/kernel/vm.c:376-396 | equals byte-at-a-time reading through the translation, up to the first inaccessible address |
| VmCopy.CopyInStr | lab02/kernel/vm.c:402-439 | equals byte-at-a-time reading up to and with the first NUL; fails exactly when an inaccessible address or the limit comes first |
| VmCopy.CopyOut | lab02/kernel/vm.c:351-371 | equals byte-at-a-time writing through the translation, up to the first inaccessible address |
| VmCopy.ReadBack | lab02/kernel/vm.c:351-396 | what copyout wrote is what copyin reads, when the pages have distinct frames |
| VmCopy.WritesOnlyWritableIff | lab02/kernel/vm.c:351-371 | with no frame shared by two user pages, copyout changes only pages the user may write to if and only if the entry of every page in its accessible prefix has PTE_W |
| VmCopy.WritesReadOnly | lab02/kernel/vm.c:351-371 | a page mapped readable but not writable for the user, and written by copyout |
| VmCopy.CopyUpToNul | lab02/kernel/vm.c:419-431 | the inner loop of copyinstr |
| VmCopy.AllocAccessible | lab02/kernel/vm.c:225-249 | every address in a page that uvmalloc has added is accessible to the user |
| Spaces.Replace | lab02/kernel/vm.c:225-333 | an operation that takes pages only from the free list and from its own address space, and gives them back only there, keeps the partition of memory and leaves every other space intact |
| Spaces.StandsAside | lab02/kernel/vm.c:225-333 | the entries and bytes of an address space survive what others do |
| Spaces.Machine.Grow | lab02/kernel/vm.c:225-249 | the free list, the pages of every address space and the kernel pages still divide memory, after success and failure; the old pages keep their bytes, other spaces everything; after success every added address is accessible to the user; failure only with fewer than three free pages for each page to add |
| Spaces.Machine.Shrink | lab02/kernel/vm.c:255-267 | the same after shrinking |
| Spaces.Machine.Copy | lab02/kernel/vm.c:305-333 | the same after copying, with an equal image of the parent on success; failure only with fewer than three free pages for each page to copy |
| Spaces.Machine.Free | lab02/kernel/proc.c:208-216 | the same after proc_freepagetable, with exactly the pages of the space back on the free list |
| Spaces.Machine.Create | lab02/kernel/proc.c:176-206 | the same after proc_pagetable, on its three ways out; failure only with fewer than five free pages |
| Spaces.Machine.Run | lab02/kernel/vm.c:225-333 | the partition survives any sequence of these operations and of kalloc and kfree by the kernel |
| Spaces.ProcPagetable | lab02/kernel/proc.c:176-206 | maps the trampoline and the trapframe and nothing else; on failure every page is back on the free list, which happens only with fewer than five free; no address of the new space is accessible to the user |
| Spaces.UvmCreate | lab02/kernel/vm.c:196-205 | an empty page table, or 0 exactly when no page is free |
| Spaces.HighRefused | lab02/kernel/proc.c:186-204 | in every address space of a process no address from the trapframe up is accessible to the user |
| Umalloc.CanonicalUnique | lab02/user/umalloc.c:24-44 | a fully merged free list is determined by the set of free units |
| Umalloc.MergedCanonical | lab02/user/umalloc.c:32-42 | inserting a block and merging it with its neighbours keeps the list in address order with no two blocks adjacent |
| Umalloc.MergedUnits | lab02/user/umalloc.c:32-42 | and adds exactly the units of the block |
| Umalloc.MergedCircle | lab02/user/umalloc.c:32-43 | the pointer updates of free turn the circle of the list into the circle of the merged list, in all four merging cases |
| Umalloc.AtPlace | lab02/user/umalloc.c:29-31 | the loop of free stops at exactly one place of the circle, also across the wrap |
| Umalloc.CutUnits | lab02/user/umalloc.c:78-82 | taking the tail of a block removes exactly those units |
| Umalloc.Heap.Free | lab02/user/umalloc.c:24-44 | the block leaves the live ones and its units join the free ones; the circle stays address-ordered and fully merged; the search for the next block starts at the free block before it |
| Umalloc.Heap.Search | lab02/user/umalloc.c:29-31 | terminates at the free block the freed one belongs after |
| Umalloc.Heap.Morecore | lab02/user/umalloc.c:46-61 | 0, with no change, when sbrk fails; the process killed at the write of the header exactly when the old break is in no page of the process after sbrk, which takes a request beyond the int limit; otherwise a free block of at least the units asked for, backed by memory of the process if and only if their byte count is an int; the memory added is the larger of the units asked for and 4096 |
| Umalloc.Heap.Malloc | lab02/user/umalloc.c:63-90 | for every 32-bit request: terminates with at most one morecore; the block has the requested units and overlaps no live block; free and live blocks together are all the memory recorded; 0 exactly when sbrk has refused and no free block has the units, with nothing lost; killed only for a request whose bytes are no int; afterwards every unit is memory of the process if and only if none was added or the request in bytes is an int; the units are the fewest that hold the bytes and a header, and memory is added exactly when no free block has them, else the block is the end of the first large enough one round the circle from freep |
| Umalloc.CutCanonical | lab02/user/umalloc.c:75-82 | splitting a block keeps the list canonical |
| Umalloc.Heap.Relink | lab02/user/umalloc.c:32-43 | the four ways free links a block in |
| Umalloc.Heap.Take | lab02/user/umalloc.c:74-84 | takes the whole block out of the list, or its last units |
| Umalloc.ObtainedIff | lab02/user/umalloc.c:52-54 | sbrk moves the break past all the units that morecore records if and only if their byte count is an int |
| Umalloc.LargeRequests | lab02/user/umalloc.c:69 | malloc(2^32 - 1) asks sbrk for 16 bytes; malloc(2^31) asks it to take away 2^31 - 16, which leaves the break of any process with less memory where it was, and the header that morecore then writes is in a page of the process unless the break is at the end of one |
| Umalloc.Heap.FirstFit | lab02/user/umalloc.c:74-89 | the loop of malloc: the first block large enough round the circle from freep, if there is one; else once more round after morecore, or the two other ways it ends |
| Proc.StepKeeps | lab02/kernel/proc.c:279-604 | every step of every CPU keeps the invariant of process states, locks, parents and children |
| Proc.LifeCycle | lab02/kernel/proc.c:388-499 | in every state of every run on any number of CPUs: a process has at most one CPU, also while it is being switched out; freeproc, called by wait or by a failing fork, never hits a process a CPU executes or is leaving; each exit is returned by wait at most once |
| Proc.NoChildMissed | lab02/kernel/proc.c:330-435 | with wait_lock free, no parent pointer names a zombie or unused slot, and no process asleep in wait has a zombie child |
| Proc.StepParents | lab02/kernel/proc.c:317-421 | every step keeps parents alive and unused slots without one |
| Proc.StepMissed | lab02/kernel/proc.c:330-435 | every step keeps the wakeups of exit ahead of the sleep in wait |
| Proc.StepOneCpu | lab02/kernel/proc.c:444-499 | every step keeps two CPUs off one process |
| Proc.OnlyFrees | lab02/kernel/proc.c:155-173 | no other step makes a slot unused |
| Proc.MadeOff | lab02/kernel/proc.c:110-173 | the slot a fork is making is in use, not started, and off every CPU |
| Proc.StepParent | lab02/kernel/proc.c:317-421 | how one step can change the parent of a process |
| Family.KinStep | lab02/kernel/proc.c:279-435 | every step keeps the invariant of who is making, has made or waits for whom |
| Family.Families | lab02/kernel/proc.c:279-435 | in every state of every run: a slot in state USED is the child that some process is making in fork; every process that has started, but init, has a parent that is alive; whoever is asleep in wait, or on the way there, has a child |
| Family.ForkStarts | lab02/kernel/proc.c:318-326 | the last step of every fork leaves its child RUNNABLE, with the caller as parent |
| Family.WaitEnds | lab02/kernel/proc.c:398-427 | wait returns a zombie child, which is freed, or finds no child at all |
| Family.WaitSleeps | lab02/kernel/proc.c:423-431 | wait goes to sleep only with a child, and with none that is a zombie |
| Family.NeverStuck | lab02/kernel/proc.c:279-604 | no deadlock: in every state of every run on any number of CPUs some CPU can take its next step, unless each runs a process that is in no call |
| Family.StepHosted | lab02/kernel/proc.c:444-520 | every step keeps each process in the middle of a call on some CPU |
| Family.ScheduleAlone | lab02/kernel/proc.c:454-474 | the scheduler at an entry: a RUNNABLE process runs from where it left off, any other is passed over |
| Family.SchedulerFinds | lab02/kernel/proc.c:451-476 | a CPU whose scan nobody disturbs comes to a process that is RUNNABLE when there is one, whatever entry it starts from |
| Family.YieldAlone | lab02/kernel/proc.c:503-511 | yield, undisturbed: the process is RUNNABLE, off its CPU, and will go on where it was |
| Family.SleepAlone | lab02/kernel/proc.c:535-562 | sleep, undisturbed: the process is SLEEPING and off its CPU |
| Family.WokenRuns | lab02/kernel/proc.c:566-604 | wakeup and kill make a sleeper RUNNABLE and change nothing else |
| Family.ForkAlone | lab02/kernel/proc.c:279-328 | fork, undisturbed: the slot holds a RUNNABLE child of the caller and nothing else has changed; with a failing allocation nothing has changed at all |
| Family.WaitReaps | lab02/kernel/proc.c:398-420 | wait with a zombie child, undisturbed: the first in the table is freed and nothing else changes |
| Family.WaitFinds | lab02/kernel/proc.c:423-431 | wait with no zombie child: the process is asleep and off its CPU if it has a child, and otherwise back with nothing changed |
| Family.WaitAgain | lab02/kernel/proc.c:396-431 | a process woken in wait scans the table from its start, as when it called wait |
| Family.ExitAlone | lab02/kernel/proc.c:330-384 | exit, undisturbed: a zombie off its CPU, its children init's, its parent awake, and init awake if it was given a child |
| RoundRobin.CountsVisits | lab3/kernel/proc.c:454-489 | a process that neither sleeps nor exits is run at every visit of the scan |
| RoundRobin.Fair | lab3/kernel/proc.c:454-489 | over any stretch in which two processes neither sleep nor exit, their select_counter values grow by amounts that differ by at most one |
| RoundRobin.BoundedWait | lab3/kernel/proc.c:454-489 | while a runnable process is not selected, at most NPROC - 1 other selections happen |
| RoundRobin.VisitsBalance | lab3/kernel/proc.c:466-486 | the scan comes to two entries equally often, up to one |
| RoundRobin.Edges | lab3/kernel/proc.c:454-489 | the ways an entry of the table can change state, and no others: RUNNABLE to RUNNING only when the scan is there and nobody runs |
| RoundRobin.StepKeeps | lab3/kernel/proc.c:454-489 | every step keeps at most the entry before the scan running, and the counter of an entry at zero until a process has started from it |
| RoundRobin.Served | lab3/kernel/proc.c:454-489 | from every state the scan gets to a RUNNABLE process and runs it, when those it runs before give up the CPU |
| Sync.NoneAsleep | lab02/kernel/semaphore.c:53-74 | with the lock of a semaphore or sleeplock free and something available, nobody sleeps on it or is on the way to sleep |
| Sync.StepKeeps | lab02/kernel/proc.c:535-580 | every step of sleep, wakeup, sem_up, sem_down, acquiresleep, releasesleep and kill keeps the invariant |
| Sync.StartInv | lab02/kernel/semaphore.c:29-44 | the invariant holds at the start if and only if no semaphore was opened with a negative value |
| Sync.RunsAreSound | lab02/kernel/sleeplock.c:21-41 | in every state of every run: resources = value + ups - downs >= 0, where ups and downs are the steps of the run that give and take; no wakeup is lost; the acquires of a sleeplock exceed its releases by one while it is held and by none otherwise, and its owner is the process whose acquire completed last, if it has not released it |
| Sync.StepWake | lab02/kernel/proc.c:566-580 | a scan of wakeup leaves nobody asleep behind it |
| Sync.StepSleep | lab02/kernel/proc.c:535-562 | a process goes to sleep only with nothing available, or with a release on its way to it |
| Sync.RunCounts | lab02/kernel/sleeplock.c:21-41 | the counters and the owner follow from the steps of the run |
| Sync.NoDeadlock | lab02/kernel/proc.c:535-580 | a process in the middle of an operation sleeps, or it can go on, or the one that blocks it can, or the one that blocks that one |
| Sync.DownAlone | lab02/kernel/semaphore.c:63-74 | down or acquire, undisturbed, with something available: one less is, and the process owns it |
| Sync.DownSleeps | lab02/kernel/semaphore.c:63-74 | with nothing available the process ends up asleep |
| Sync.UpAlone | lab02/kernel/semaphore.c:53-61 | up or release, undisturbed: one more is available, and everybody who slept on it has been woken |
| Sync.WokenAlone | lab02/kernel/proc.c:555-562 | a process woken up that finds something available has it two steps later |
| Sync.KilledAlone | lab02/kernel/proc.c:586-604 | a sleeper that is killed tests again, and with nothing available goes back to sleep |
| PingPong.Alternates | lab02/user/pingpong.c:70-89 | for every number of rounds, any interleaving and any other processes: the output alternates starting with ping, at most one ping is unanswered; the players make at most 2n(NPROC + 14) moves; and until both are done, parent or child can move, or waits in wakeup for the p->lock of a process that is about to sleep and can move |
| PingPong.MoveKeeps | lab02/user/pingpong.c:78-89 | every move of parent, child or anybody else keeps the state of the game |
| PingPong.InStep | lab02/user/pingpong.c:78-89 | at most one ping is unanswered |
| PingPong.NeverStuck | lab02/user/pingpong.c:78-89 | until both are done, parent or child can move, at once or after at most two steps of the process whose lock it waits for |
| PingPong.AwakeGoes | lab02/user/pingpong.c:78-89 | the only lock outside the game that a player can wait for is the p->lock of a process on its way to sleep |
| PingPong.MoveLeft | lab02/user/pingpong.c:78-89 | every move of a player leaves fewer to make, and no move of another process adds any |
| PingPong.CanFinish | lab02/user/pingpong.c:70-89 | from every state of the game there is a way to its end |
| Pipe.Pipe.Distance | lab02/kernel/pipe.c:88-123 | the counters are equal exactly when the pipe is empty and PIPESIZE apart exactly when it is full, also after wrapping at 2^32, and index the right slot |
| Pipe.Pipe.Write | lab02/kernel/pipe.c:76-103 | accepts exactly the bytes up to the first that does not fit, cannot be copied in, or finds the process killed; sleeps exactly when the pipe is full with its read end open; wakes all readers unless it fails; and leaves no reader asleep on a pipe with bytes if and only if it was not killed after putting bytes in while a reader slept; the count returned is that of all bytes given when all are accepted, else that of those accepted so far |
| Pipe.Pipe.Read | lab02/kernel/pipe.c:105-130 | returns the next bytes in order, as many as asked for and there; sleeps, or fails if killed, exactly on an empty pipe with its write end open |
| Pipe.Pipe.Close | lab02/kernel/pipe.c:58-74 | closes one end, wakes the sleepers it concerns, and is last exactly when both ends are closed |
| Pipe.Pipe.NeverBothAsleep | lab02/kernel/pipe.c:76-130 | a writer asleep finds the pipe full with its read end open, never beside a sleeping reader; the bytes consumed are a prefix of the bytes accepted |
| Pipe.Pipe.WriteLoop | lab02/kernel/pipe.c:83-99 | the bytes accepted, which of the four ways the loop ends, and the count it returns |
| Pipe.Pipe.ReadLoop | lab02/kernel/pipe.c:120-126 | the bytes taken, including one that the copy refuses |
| Pipe.KilledWriter | lab02/kernel/pipe.c:83-99 | a writer killed after its first byte, and the reader that still sleeps |
| Virtio.AvailFits | lab02/kernel/virtio_disk.c:271-277 | the entries of the avail ring not yet taken fit the ring, with room for one more whenever a descriptor is free |
| Virtio.UsedFits | lab02/kernel/virtio_disk.c:312-324 | the entries of the used ring not yet seen fit the ring |
| Virtio.IndexTells | lab02/kernel/virtio_disk.c:277-312 | the 16-bit indices differ exactly when an entry is outstanding, and select the same slot as the unbounded counts |
| Virtio.Driver.Alloc3 | lab02/kernel/virtio_disk.c:199-213 | three distinct free descriptors, or none taken when fewer than three are free |
| Virtio.Driver.FreeDesc | lab02/kernel/virtio_disk.c:168-182 | frees and clears the descriptor; panics exactly out of range or when it is free |
| Virtio.Driver.FreeChain | lab02/kernel/virtio_disk.c:184-197 | stops after exactly the three descriptors of the chain and cannot panic |
| Virtio.Driver.Submit | lab02/kernel/virtio_disk.c:215-281 | a chain of three free descriptors that tells the device the operation, the 1024 bytes of the buffer, which it writes exactly when it reads the disk, and the status byte; posted at the next place of the avail ring; nothing in flight is disturbed; asleep exactly when fewer than three descriptors are free |
| Virtio.Driver.DeviceTakes | lab02/kernel/virtio_disk.c:238-277 | the device finds the posted heads in order and reads from each chain exactly the request that was submitted |
| Virtio.Driver.SeeOne | lab02/kernel/virtio_disk.c:312-324 | one completion releases exactly its own buffer, and the status panic cannot happen |
| Virtio.Driver.Interrupt | lab02/kernel/virtio_disk.c:294-327 | sees exactly the requests completed so far and touches no other buffer |
| Virtio.Driver.Finish | lab02/kernel/virtio_disk.c:283-292 | a request whose buffer is no longer busy has been completed by the device, exactly its three descriptors become free, and the sleepers are woken |
| Virtio.Driver.AllocDesc | lab02/kernel/virtio_disk.c:155-166 | a free descriptor, taken; none exactly when all are taken |
| Virtio.Driver.DeviceCompletes | lab02/kernel/virtio_disk.c:309-317 | a taken request gets status 0, and its head the next place of the used ring, whose index wraps at 2^16 |
| Virtio.Driver.NoLostWakeup | lab02/kernel/virtio_disk.c:168-233 | nobody sleeps on &disk.free[0] while three descriptors are free, and whoever does waits for a request in flight |
| Grep.MatchHere | lab02/user/grep.c:84-95 | true if and only if a prefix of the text (all of it under a final $) is in the language of the pattern; misplaced operators are literals |
| Grep.MatchStar | lab02/user/grep.c:98-105 | true if and only if some number of the repeated characters followed by the rest matches |
| Grep.Match | lab02/user/grep.c:71-81 | true if and only if some substring, or a prefix after ^, is in the language of the pattern |
| Grep.Run | lab02/user/grep.c:10-34 | for every input, whatever sizes the reads return, the output is the terminated matching lines in order, up to the first line that does not fit the buffer or holds a NUL |
| Grep.StarStep | lab02/user/grep.c:98-105 | a star takes nothing, or one character and goes on |
| Grep.HereChar | lab02/user/grep.c:92-94 | an ordinary character matches one character and the rest matches the rest |
| Grep.FilterBuffer | lab02/user/grep.c:20-28 | the complete lines in the buffer are filtered |
| Grep.LinesJoin | lab02/user/grep.c:15-34 | the lines of a file put together again are the file |
| Grep.GrepRightIff | lab02/user/grep.c:15-34 | the output is every matching line of the file if and only if no line matches from the first on that lacks its newline, has more than 1022 characters, or holds a NUL |
| Grep.GrepRightForAll | lab02/user/grep.c:15-34 | it is for every pattern if and only if there is no such line |
| Grep.LosesLastLine | lab02/user/grep.c:15-34 | a matching last line without a newline is not printed |
| Grep.FilterNext | lab02/user/grep.c:21-27 | one line of the buffer, as a step of the whole filter |
| Patterns.SearchIs | lab02/user/grep.c:71-81 | a pattern of ordinary characters and dots matches a text if and only if the text has a piece like it |
| Patterns.StartIs | lab02/user/grep.c:71-76 | after "^", only at the beginning of the text |
| Patterns.EndIs | lab02/user/grep.c:84-95 | before "$", only at its end |
| Patterns.WholeIs | lab02/user/grep.c:71-95 | between both, only the whole text |
| Patterns.StarIs | lab02/user/grep.c:84-104 | with "c*" at its end, any number of c may follow |
| Shell.Parser.GetToken | lab02/user/sh.c:266-309 | the next token of the line and its bounds, and the rest of the tokens |
| Shell.Parser.Peek | lab02/user/sh.c:311-321 | whether the next token is one of these, consuming only white space |
| Shell.Parser.ParseRedirs | lab02/user/sh.c:375-398 | wraps the command in the redirections that follow, in order; error exactly when a file name is missing |
| Shell.Parser.ParseExec | lab02/user/sh.c:416-447 | a block, or a command with its arguments and interleaved redirections, error on a tenth argument or a stray token |
| Shell.Parser.ParsePipe | lab02/user/sh.c:362-373 | follows the grammar of pipes |
| Shell.Parser.ParseLine | lab02/user/sh.c:345-360 | follows the grammar of lines; the mutual recursion terminates on every line |
| Shell.Parser.ParseCmd | lab02/user/sh.c:328-340 | the tree of the whole line; error exactly when the grammar fails or something is left over |
| Shell.SlicesApart | lab02/user/sh.c:266-309 | two different strings of a parsed tree never touch |
| Shell.StringsIntact | lab02/user/sh.c:450-494 | the NULs fall outside every string, so each reads as exactly its slice |
| Shell.NulTerminate | lab02/user/sh.c:450-494 | writes a NUL at the end of every string of the tree and nowhere else |
| Shell.ParseCommand | lab02/user/sh.c:328-343 | parsing and terminating in place: every string of the tree is its slice of the original line |
| Shell.RoundTrip | lab02/user/sh.c:328-447 | the canonical text of any tree with at most nine arguments a command parses, with nothing left over, to that tree |
| Shell.Reparse | lab02/user/sh.c:328-447 | the tree of any line that parses is buildable, and its canonical text parses to the same tree |
| Shell.Parser.ParseBlock | lab02/user/sh.c:400-414 | a line in parentheses and the redirections after it; error exactly when the closing one is missing |
| Shell.Parser.ParseArgs | lab02/user/sh.c:430-447 | arguments and redirections up to the end of the command |
| Shell.LineReads | lab02/user/sh.c:345-447 | the tokens of a tree, followed by the end or a closing parenthesis, parse to the tree |
| Shell.ScanRender | lab02/user/sh.c:266-309 | scanning the rendered tokens gives them back |
| Shell.Terminate | lab02/user/sh.c:450-494 | terminating the strings of a parsed line in place leaves each reading as its slice |
| Grammar.LineIs | lab02/user/sh.c:328-447 | a line parses to a tree, with nothing left over, if and only if its tokens, given by the characters that separate and form them, are a line of the grammar for that tree |
| Grammar.ParseIs | lab02/user/sh.c:345-447 | the recursive-descent parser accepts exactly the grammar: lists of pipes of commands and blocks, with redirections around them, and at most nine arguments a command |
| Grammar.PanicIs | lab02/user/sh.c:328-340 | the parser panics if and only if no tree is that of the line |
| Grammar.TokensAre | lab02/user/sh.c:263-309 | the tokens of a line: blanks, tabs, newlines, carriage returns and vertical tabs separate them, each of the seven symbols is one, ">>" is one, and a word is as long as it can be |

## Left out

- Bio.Bcache.Bget: the wait for the sleeplock of a buffer that another process holds; callers here find it unlocked, and `Sync` models the sleeplock itself.
- Bio.Bcache.Bpin: reference counts are unbounded; 2^32 references to one buffer are not modelled.
- Bio.Bcache.Bread: the same wait; the buffer is found unlocked.
- Log.Log.EndOp: processes outside any operation keep the buffers they hold, and take no others, while the commit runs; the wait for one that has a logged block locked is not modelled.
- Log.Log.Commit: the same.
- Fs.FileSystem.Writei: what copying from and to user memory can reach is an input, the number of bytes before the first that cannot be reached; `VmCopy` has the copies themselves.
- Fs.FileSystem.Iupdate: here only the fact that the block is logged; what is stored in it is in `Durable`.
- Fs.FileSystem.FileWrite: other writers of the same file between two chunks; pipes and devices are separate branches.
- Durable.FileWriteCrash: no other operation shares the transactions of the file write.
- Spaces.Machine.Grow: sizes stay at or below the trapframe, and user pages are mapped without gaps, as exec and growproc leave them; `Vm.UvmAlloc` and `Vm.UvmDealloc` by themselves allow gaps.
- Crowded.WriteChunk: a disk of 32768 blocks; the 2000 blocks of the default image have one bitmap block, so writes there log fewer.
- Links.Directories.CreateIn: the parent is locked from lookup to link, so create is one step; whether a directory can grow is an input, settled by the block allocator in `Fs`.
- Links.Directories.SysUnlink: one step, although another operation may see the target's count one too high between its two halves.
- Links.Directories.IPut: whether a reference is the last one is an input; the slot search of `iget` and its table are not modelled.
- Names.Resolver.NameX: the directories do not change during the walk, and an intermediate inode freed by its `iput` is not modelled.
- Vm.UvmAlloc: the new part of the address space is unmapped before, and sizes stay below MAXVA, as its callers arrange.
- Vm.MapPages: physical addresses fit the 56 bits of the format.
- Umalloc.Heap.Malloc: after a request beyond the int limit has returned a block, the allocator's records exceed the process's memory, and nothing more is promised.
- Proc.LifeCycle: sleeps outside wait are on channels nobody else uses for wait; open files, memory and pids of a process are not part of this machine.
- RoundRobin.Fair: one CPU, as the property is stated; counters are unbounded.
- Sync.RunsAreSound: counts are unbounded, and opening and closing semaphores is not part of the machine.
- Pipe.Pipe.Write: after a killed writer has left a reader asleep beside bytes, nothing more is promised.
- Virtio.Driver.DeviceCompletes: the device is assumed to complete each request it takes once, with status 0; the transfer of data is not modelled.
- Grep.Run: the files named on the command line are read one after the other and are not modelled.
- Shell.Parser.ParseArgs: the execcmd that redirections already point to is filled in at the end instead of during the loop.
- The `lab01` shell: its tokenizer is a compiled object without source.
- The multilevel feedback queue described for `lab3` is not in its scheduler.
- mkfs, exec, trap and console code, device registers, the TLB, memory fences and assembly.
- kill while holding locks, sem_close, and the open-file table.
