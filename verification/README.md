# A verified model of the storage stack, memory, shell parser and locking of an extended xv6

The system is an xv6 kernel whose files have double and triple indirect blocks and whose scheduler has a stride part.
The project models its hardest code in Dafny, in the form of the source, and proves what that code is for. Code that
updates state in place is a class with methods, each proved against a specification on values; protocols between
processes are step systems with theorems over every run.

| files | what they model |
|---|---|
| `Blocks`, `FsTree`, `FsIndex`, `FsGrow`, `FsWalk`, `FsIo`, `FsCost`, `FsTrunc`, `FsMap`, `FsRaw`, `FsCode` | `fs.c`, `filewrite` of `file.c`: blocks of bytes, the bitmap, inodes, the four-level block tree of a file, the blocks each call logs, and, in `FsRaw`, all of it in terms of single bytes of the disk |
| `FsWitness` | two file systems of the size that `mkfs` gives, written from an empty one, on which a call outgrows its transaction |
| `LogReserve`, `CrashLog`, `LogOverflow`, `LogProgress`, `LogCode` | `log.c` over the cache of `bio.c` and a disk that loses all memory at a crash |
| `FsConc`, `FsProgress` | calls on different files at the same time, step by step on one disk, one free map and shared inode blocks |
| `FsLog` | the file system on the log: what a crash leaves of it |
| `Param`, `Sets` | the constants of `param.h`, and lemmas about the size of sets |
| `Bio` | the doubly linked least-recently-used list of `bio.c` |
| `VmSpec`, `Vm` | `vm.c` and `kalloc.c`: page tables in pages that come from a free list threaded through the free pages |
| `Umalloc` | `umalloc.c`: the circular free list of the user heap |
| `ShellLex`, `ShellGrammar`, `ShellSyntax`, `ShellRound`, `ShellLine`, `ShellCode` | the lexer, parser and `nulterminate` of `sh.c`, against a grammar of lines as they are typed, character by character |
| `SleepLock` | `sleep`, `wakeup1` of `proc.c` and `sleeplock.c` for any number of processes |
| `Pipe`, `PipeRun` | `pipe.c`: the ring with 32-bit counters, and any number of readers and writers |
| `Grep` | the matcher of `grep.c` against what a pattern means |
| `Stride` | `path_cal` and `stride` of `proc.c` |

How the model reads the source:

- A disk write is one block, atomic, as in the synchronous disk of `xv6-public/memide.c:38-60`. A crash keeps the disk
  and nothing else.
- Blocks that are logged lie outside the log area, as `xv6-public/mkfs.c:100-103` lays the disk out. This is the
  hypothesis `Geo.Ok` and `Home` of `CrashLog`.
- The guard of `log_write` is read without the lock, so passing it and appending are two steps, and other calls may take
  steps in between. The number of buffers of the cache is a parameter, and a call may log any number of blocks, as
  `log_write` lets it. The crash theorems hold for every interleaving when the cache has no more buffers than the log has
  blocks and the header has entries, or the log has room for no entry; the log of `mkfs` with the `NBUF` buffers of the
  kernel is of the first kind. For other sizes they take one of two hypotheses (`OrderlyRun`): no call passes the guard
  while another is between guard and append, or no call logs more than m blocks, for some m with which the longest header
  fits the log.
- The header in memory is a sequence. A state where it is longer than its array of `LOGSIZE` entries counts as unsafe;
  what the write past the array does to other memory is not followed.
- Concurrent calls change a block of the free map or of inodes in one step, as they hold its buffer from `bread` to
  `log_write`. A file under truncation counts as empty from the start, and its blocks belong to the call until it frees
  them; only that call, which holds the inode lock, uses the old addresses.
- The superblock is a constant, and every inode has its in-memory entry; `FileSystem` holds all of them.
- Spin locks are atomic acquire and release steps. What other processes do between two steps is any number of steps of
  theirs.
- `sbrk` answers with a region that was not obtained before and lies above the static header `base`, or refuses. Other
  users of `sbrk` may take regions in between. Heap addresses count headers of 8 bytes.
- A page is named by its frame number, so the constant offset between physical and kernel addresses does not show.
- A kernel or shell panic is a `Panic` result, or a precondition where the source demands it of its caller.

Where the code falls short of what one would expect, the code is kept, and the exact condition is proved:

- The unlocked guard of `log_write` lets the header outgrow the log area unless the log is longer than the longest
  header, which has 10 + 2m entries for calls of at most m <= `MAXOPBLOCKS` blocks and `LOGSIZE` + 2 for longer calls:
  `LogReserve.HeaderFits`. For calls of any number of blocks every reachable state is still safe if and only if the log has
  just one block, or the cache has no more buffers than the log has blocks and the header has entries:
  `LogOverflow.SafeIff`. Otherwise `write_log` copies uncommitted data over the first block behind the log, or the header
  outgrows its array: `LogOverflow.ShortLogUnsafe`, `LogOverflow.ArrayOverflows`. With the `NBUF` buffers of the kernel and
  the log of `mkfs` neither happens, but a commit of `NBUF` entries finds all buffers pinned and panics before its first
  write: `LogOverflow.KernelLog`, `LogOverflow.CommitGoesThrough`; with fewer entries than buffers a commit comes to its
  end: `LogProgress.CommitEndsIff`.
- `log_write` can panic for an operation within its budget of `MAXOPBLOCKS`, with a log of any size, when it logs one of
  its own blocks again: `LogReserve.FullBudgetPanics`. No operation of at most m blocks panics if and only if 10 + 2m is
  below `LOGSIZE` and below the number of log blocks less one; for the log of `mkfs` that is m at most 9:
  `LogReserve.LogWritePanicFree`.
- A chunk of `filewrite` logs 11 blocks, more than `MAXOPBLOCKS`, when it carries the file into its triple indirect tree
  and the lowest free blocks are in two bitmap blocks: `FsCost.TripleCost`; two writes from an empty file system of 40000
  blocks get there: `FsWitness.ElevenBlocks`. The number of blocks a write logs is known exactly before the call:
  `FsCost.CostIs`. `itrunc` logs 11 when the blocks of the file have bits in all ten bitmap blocks of the volume that
  `mkfs` makes: `FsTrunc.TruncFits`; one write gets there: `FsWitness.TenBitmaps`.
- `malloc` of more than 2^32 - 8 bytes returns a block that is too small, as the rounding wraps: `Umalloc.UnitsSuffice`.
  From 2^31 - 15 bytes on `sbrk` gets no positive number and `morecore` writes past the end of the process:
  `Umalloc.SbrkBacks`, `Umalloc.LargeRequest`.
- `sbrk` asked to shrink a process by more than it has changes nothing and answers as if it had; asked to shrink it to
  nothing it refuses: `Umalloc.SbrkAnswers`.
- A writer that is killed, or has no readers, and has more than 512 bytes left leaves the readers of an empty pipe asleep
  over a full one, and no other step does: `PipeRun.DroppedExactlyThen`, `PipeRun.ReaderLeftAsleep`.

## Model

| member | source | states |
|---|---|---|
| `FsTree.InodeRoundTrip` | xv6-public/fs.c:222-237 | the inode that `iupdate` writes into its 64 bytes reads back the same, field by field |
| `FsIndex.NodeOfIndex` | xv6-public/fs.c:374-458 | the base-128 digits of every block index below `MAXFILE` name a leaf of the tree of that inode, and the leaf gives the index back |
| `FsIndex.IndexOfNode` | xv6-public/fs.c:374-458 | conversely every leaf in range is the node of exactly one block index |
| `FsGrow.GrowKeepsInv` | xv6-public/fs.c:379-395 | hanging a free, zeroed block into any empty entry keeps all trees of all inodes disjoint and their blocks marked in use |
| `FsGrow.GrowBytes` | xv6-public/fs.c:56-78 | and no byte of any file changes by it |
| `FsGrow.WriteBytes` | xv6-public/fs.c:611-617 | writing a data block changes the bytes of that block of that file and no byte of any other |
| `FsCode.FileSystem.Balloc` | xv6-public/fs.c:56-78 | finds the first free block, marks and zeroes it and logs both blocks; panics exactly when every block is in use; when that block lies in the data area, of the bytes of the disk exactly its bit changes, in byte b % 4096 / 8 of its bitmap block, and its 512 bytes become 0 |
| `FsCode.FileSystem.Bfree` | xv6-public/fs.c:81-96 | clears exactly the bit of the block; panics exactly when it is clear; of the bytes of the disk exactly that bit changes |
| `FsCode.FileSystem.RootSlot` | xv6-public/fs.c:379-383 | an address of the inode is there afterwards, fresh if it was absent, and nothing else changed; logged are exactly the new block and its bitmap block |
| `FsCode.FileSystem.TableSlot` | xv6-public/fs.c:390-397 | the same for an entry of a table block; logged are exactly the new block, its bitmap block and the table; the result is the number that bytes 4j to 4j + 3 of the table then spell, lowest first |
| `FsCode.FileSystem.BmapSingle` | xv6-public/fs.c:386-398 | the single indirect walk reaches the node of the block index |
| `FsCode.FileSystem.BmapDouble` | xv6-public/fs.c:401-421 | the double indirect walk reaches the node of the block index |
| `FsCode.FileSystem.BmapTriple` | xv6-public/fs.c:425-456 | the triple indirect walk, with its computed remainder, reaches the node of the block index |
| `FsCode.FileSystem.Bmap` | xv6-public/fs.c:373-458 | returns the block of the index; when it was mapped nothing changes or is logged; otherwise exactly the absent nodes on its path become present, out of the lowest free blocks, and exactly they, their tables and their bitmap blocks are logged; panics past `MAXFILE`, and below it only with the disk full; the result is the number found from the addresses by reading four bytes of a block per level, with the digits of the index to base 128 below 10, 138, 16522 and 2113674 as bounds |
| `FsWalk.GrowReaches` | xv6-public/fs.c:56-78 | one allocation takes the lowest free block and logs exactly that block, its bitmap block and the table it is entered in |
| `FsWalk.StepDown` | xv6-public/fs.c:401-456 | one level of a walk composed with the levels above it: nodes, contents, blocks taken and blocks logged |
| `FsMap.FileBlockInjective` | xv6-public/fs.c:373-458 | no disk block serves two file blocks, of one file or of two |
| `FsMap.BmapLeavesOthers` | xv6-public/fs.c:373-458 | a call for one index leaves the block of every other index of every file as it was, mapped or not |
| `FsMap.BmapAllocates` | xv6-public/fs.c:56-78 | a block that `bmap` allocates was in no tree and not in use, and is all zeros |
| `FsMap.BmapAgain` | xv6-public/fs.c:373-458 | asked again for an index, after any number of writes to any files and truncations of others, `bmap` returns the block it returned, and changes and logs nothing |
| `Blocks.PutWordBytes` | xv6-public/fs.c:391-396 | storing the number w as word i sets the four bytes from 4i on to w, w / 2^8, w / 2^16 and w / 2^24 modulo 256, and no other byte |
| `FsRaw.FileBlockIsRaw` | xv6-public/fs.c:373-458 | for every disk, inode and index, the block of the index is what following at most three tables, four bytes an entry, gives; 0 where an entry on the way is 0 |
| `FsRaw.FileByteIsRaw` | xv6-public/fs.c:581-586 | so byte k of a file is byte k % 512 of the block that those bytes name for k / 512 |
| `FsRaw.UsedIsRaw` | xv6-public/fs.c:63-67 | a block b is in use exactly when bit b % 8 of byte b % 4096 / 8 of block `bmapstart` + b / 4096 is set |
| `FsRaw.TakesRaw` | xv6-public/fs.c:56-78 | allocating a free block outside the bitmap sets that bit and zeroes the block, and changes no other bit and no other byte |
| `FsRaw.FreesRaw` | xv6-public/fs.c:81-96 | freeing a used block clears that bit and changes nothing else |
| `FsCode.FileSystem.Iupdate` | xv6-public/fs.c:221-237 | the disk copy of the inode becomes its in-memory value, in its slot of its block; byte for byte, bytes 64 (i % 8) to 64 (i % 8) + 63 of block `inodestart` + i / 8 hold the four shorts, the size and the thirteen addresses, lowest byte first, and no other byte of the disk changes |
| `FsIo.IupdateSyncs` | xv6-public/fs.c:221-237 | after `iupdate` the inode reads back from disk as it is in memory, and every other inode's copy is as before |
| `FsRaw.IupdateBytes` | xv6-public/fs.h:29-42 | the same in bytes, without reading back: where each field of the 64 bytes goes, for every inode, and that no other byte of the disk changes |
| `FsRaw.InodeReadFrom` | xv6-public/fs.c:299-307 | and the inode on disk is what those bytes spell, for any contents of the disk |
| `FsCode.FileSystem.Readi` | xv6-public/fs.c:561-588 | returns exactly the slice of the flat file, cut at its size, and -1 exactly when the offset is past the size or the end wraps; on a file without holes it changes and logs nothing; byte k of the result is byte (off + k) % 512 of the block that the bytes of the tables name |
| `FsCode.FileSystem.WriteBlocks` | xv6-public/fs.c:611-617 | the loop splices the bytes into the flat file, whatever levels of the tree it crosses; logged are exactly the data blocks and what their allocation logs |
| `FsCode.FileSystem.UpdateSize` | xv6-public/fs.c:618-621 | the size becomes the larger of the two and the inode reaches the disk only when it grew, which is enough for memory and disk to agree |
| `FsCode.FileSystem.Writei` | xv6-public/fs.c:590-623 | a successful write is the splice of `src` at `off`, with every other byte of every file and every other block map unchanged; -1 exactly when the bounds are broken, and then nothing changed; a panic only with the disk full; logged are exactly the data blocks, what their allocation logs, and the inode block if the file grew; in the same terms the file then holds `src` from `off` on |
| `FsIo.WroteTrans` | xv6-public/file.c:147-165 | two adjacent writes are one write of the concatenation |
| `FsIo.WroteKeepsFsInv` | xv6-public/fs.c:590-623 | a write keeps every file free of holes and every cached inode equal to its disk copy |
| `FsMap.TruncKeepsFsInv` | xv6-public/fs.c:460-547 | so does a truncation |
| `FsMap.AlwaysWhole` | xv6-public/fs.c:590-623 | so does any sequence of writes and truncations |
| `FsMap.WriteIsCall` | xv6-public/fs.c:590-623 | the block writes of a write to a file of a well-formed file system lead from the disk as stored to the disk as written |
| `FsCost.AtMostFourTables` | xv6-public/fs.c:373-458 | the tables that get an entry when a file without holes is written at up to four blocks, wherever that crosses from one table or level to the next, are at most four |
| `FsCost.TakenIs` | xv6-public/fs.c:56-78 | the blocks a write takes are the lowest free blocks before it, one for each absent node on the way to its data |
| `FsCost.CostIs` | xv6-public/fs.c:590-623 | the number of blocks a call of `writei` logs, from the volume before it: its data blocks, the tables with an absent entry on the way, the inode block if it grows, and the bitmap blocks of as many lowest free blocks as nodes are absent |
| `FsCost.SmallCost` | xv6-public/file.c:147-165 | one chunk on a file without holes logs at most 9 blocks besides bitmap blocks: 4 data, 4 tables, 1 inode |
| `FsCost.OneBitmapBlock` | xv6-public/fs.c:56-78 | on a volume with one bitmap block that last term is at most 1 |
| `FsCost.TripleCost` | xv6-public/file.c:147-165 | the chunk that carries a file from its double to its triple indirect tree logs 4 data blocks, 4 tables, the inode block and the bitmap blocks of the six lowest free blocks, so more than `MAXOPBLOCKS` if and only if those six are in more than one bitmap block |
| `FsWitness.ElevenBlocks` | xv6-public/file.c:147-165 | such a volume of `FSSIZE` blocks is two first-fit writes away from an empty file system, well-formed, and there that chunk logs `MAXOPBLOCKS` + 1 blocks |
| `FsWitness.Fill` | xv6-public/fs.c:373-458 | when the blocks in use are the first ones of the disk, `bmap` takes the next in order, one for each absent node on the way |
| `FsCost.ChunkBitmaps` | xv6-public/file.c:147-165 | no chunk of a write needs more bitmap blocks than the lowest free blocks before the whole write have, one for each node it adds |
| `FsCode.FileSystem.WriteChunk` | xv6-public/file.c:154-159 | one transaction of `filewrite` is one write and logs exactly the number of blocks that `FsCost.CostIs` gives for the volume before it, at most 9 besides bitmap blocks on a file without holes; its calls of `log_write`, in order, turn the disk of a well-formed file system into that of the written one |
| `FsCode.FileSystem.Filewrite` | xv6-public/file.c:129-169 | all chunks together are one write at the old offset, the offset advances by what was written, and on a file without holes every transaction logs at most 9 blocks and the bitmap blocks of the lowest free blocks that the whole write will take; so all fit the log if those have one bitmap block |
| `FsTrunc.Disjoint` | xv6-public/fs.c:465-547 | subtrees of different entries share no block |
| `FsTrunc.RootLast` | xv6-public/fs.c:478-543 | freeing what hangs off a node and then the node itself frees exactly its subtree |
| `FsCode.FileSystem.FreeChildren` | xv6-public/fs.c:478-543 | the nested loops below one table free each block of each subtree once and leave every table readable until they are done; `bfree` never panics; logged are exactly the bitmap blocks of what was freed |
| `FsCode.FileSystem.FreeSlot` | xv6-public/fs.c:471-543 | one of the 13 addresses is freed with all below it and set to zero |
| `FsCode.FileSystem.Itrunc` | xv6-public/fs.c:460-547 | frees exactly the blocks of the inode's tree at all levels, changes no other bit and no other file, and leaves 13 zero addresses and size 0, in memory and on disk, without a panic; logged are exactly the inode block and the bitmap blocks of the tree; its calls of `log_write` turn the disk into that of the truncated file system |
| `FsTrunc.TruncFits` | xv6-public/fs.c:460-547 | that is within `MAXOPBLOCKS` if and only if the blocks of the file have their bits in at most nine bitmap blocks |
| `FsWitness.TenBitmaps` | xv6-public/fs.c:460-547 | in a file system of `FSSIZE` blocks one first-fit write makes a file whose truncation logs `MAXOPBLOCKS` + 1 blocks |
| `FsTrunc.SmallVolumeFits` | xv6-public/fs.c:460-547 | which holds for every file of a volume of fewer than 9 * 4096 blocks |
| `LogReserve.ReservationHolds` | xv6-public/log.c:124-235 | for every interleaving of calls of at most m blocks, with the guard of `log_write` and its append as two steps, header entries are distinct and n plus all unspent reservations is at most 10 + 2m, so `LOGSIZE` for m = `MAXOPBLOCKS`, and 3m for larger m |
| `LogReserve.AbsorbDistinct` | xv6-public/log.c:223-231 | absorption keeps header entries distinct |
| `LogReserve.AppendHasRoom` | xv6-public/log.c:214-235 | so n never exceeds that bound, and is below it before an append within budget |
| `LogReserve.GuardHolds` | xv6-public/log.c:124-235 | however many blocks calls log, at most three are outstanding and n never exceeds by more than two the number at which the guard panics |
| `LogReserve.CommitExcludesOps` | xv6-public/log.c:143-174 | in no run of any interleaving, however many blocks calls log, is an operation outstanding while a commit runs, so the panic of `end_op` is never reached |
| `LogReserve.TurnsKeepRoom` | xv6-public/log.c:214-235 | in every run where no call passes the guard while another is between guard and append, n stays below the number of log blocks and at most `LOGSIZE`, however many blocks calls log |
| `LogReserve.HeaderFits` | xv6-public/log.c:214-235 | for every m >= 1, n stays below the number of log blocks in every run of calls of at most m blocks if and only if that number is 1 or exceeds the longest header: 10 + 2m entries for m <= `MAXOPBLOCKS`, `LOGSIZE` + 2 for larger m |
| `LogReserve.HeaderInArray` | xv6-public/log.c:34-37 | and the header stays inside its array if and only if m is at most `MAXOPBLOCKS` or the log has fewer than `LOGSIZE` blocks |
| `LogReserve.LogWritePanicFree` | xv6-public/log.c:214-222 | for every m >= 1, no `log_write` of a call within a budget of m blocks, new or absorbed, panics in any run if and only if the bound of `LogReserve.ReservationHolds` is below `LOGSIZE` and below the number of log blocks less one |
| `LogReserve.FullBudgetPanics` | xv6-public/log.c:214-222 | with the full budget of `MAXOPBLOCKS` and a log of any size some run panics within budget, by an absorbed write when the log has more than `LOGSIZE` blocks |
| `LogReserve.AppendPanicFree` | xv6-public/log.c:214-222 | for blocks not in the header yet the panic is unreachable within a budget of m >= 1 blocks if and only if m is at most `MAXOPBLOCKS` and the log has more than 10 + 2m blocks |
| `CrashLog.HeadRoundTrip` | xv6-public/log.c:84-113 | the header block reads back as written |
| `CrashLog.HeadBytes` | xv6-public/log.c:98-113 | in bytes: the first four hold n and the four from 4 + 4i on entry i, lowest first, and the rest of the block is kept |
| `CrashLog.HeadReadFrom` | xv6-public/log.c:84-96 | and any block whose first four bytes spell a number of at most 127 is read as that many such entries |
| `CrashLog.NextKeeps` | xv6-public/log.c:68-235 | every step of cache, log, commit, crash and recovery keeps the invariant that links them, unless it copies a block past the end of the log area or commits a header too long for log or array; calls may log any number of blocks |
| `CrashLog.RunInv` | xv6-public/log.c:68-235 | no step of a run does, and the header stays inside its array: for every interleaving of calls of any number of blocks when the cache has no more buffers than the log has blocks and the header has entries, or the log has just one block; for a log of any size when calls take turns between guard and append, or keep to m blocks each with which the longest header fits the log |
| `CrashLog.EntriesPinBuffers` | xv6-public/log.c:223-234 | every entry of the header pins a buffer of its own, so there are never more entries than buffers |
| `CrashLog.EntriesBelowBuffers` | xv6-public/bio.c:78-92 | and fewer while any buffer is in use for another block |
| `CrashLog.AlwaysCrashSafe` | xv6-public/log.c:68-122 | in every state with the invariant, so in every state of such a run, recovery from the present disk yields the committed contents, all of them |
| `CrashLog.CommitPoint` | xv6-public/log.c:192-202 | only the header write changes what recovery yields, and it does so with no operation outstanding |
| `CrashLog.CrashAtomicity` | xv6-public/log.c:68-202 | over any stretch of such a run, with crashes anywhere and recovery restarted any number of times, every home block recovers to its value before the transaction or every one to its value after it |
| `CrashLog.RecoveryFinishes` | xv6-public/log.c:115-122 | a finished recovery leaves the committed contents at home and n = 0 on disk |
| `CrashLog.ReadsLatest` | xv6-public/bio.c:95-106 | a valid buffer holds the contents last logged, or committed if nothing was logged since |
| `CrashLog.CachedOnce` | xv6-public/bio.c:61-93 | no block is in two buffers |
| `CrashLog.PinnedNotRecycled` | xv6-public/bio.c:78-90 | the buffer of a logged block that is not yet installed is never recycled |
| `CrashLog.HomeWritesCommitted` | xv6-public/log.c:68-82 | only committed data ever reaches a home location, and only by `install_trans` |
| `LogOverflow.ShortLogUnsafe` | xv6-public/log.c:176-190 | for every log of 2 to `LOGSIZE` blocks, every cache of more buffers than that and calls that can fill the log, a run reaches a state where `write_log` has put uncommitted data into the home block behind the log, and a crash would keep it |
| `LogOverflow.ArrayOverflows` | xv6-public/log.c:223-232 | for every longer log, every cache of more than `LOGSIZE` buffers and calls of at most m > `MAXOPBLOCKS` blocks, a run takes the header one entry past its array |
| `LogOverflow.SafeWithinIff` | xv6-public/log.c:68-235 | for every m >= 1 and any number of buffers, on a disk with more than `LOGSIZE` + 1 home blocks behind the log: in every reachable state with calls of at most m blocks the header is inside its array and recovery yields the committed contents, if and only if the log has room for no entry, or the cache has no more buffers than the log has blocks and the header has entries, or m is at most `MAXOPBLOCKS` and the log has more than 10 + 2m blocks (for m = `MAXOPBLOCKS`, more than `LOGSIZE`) |
| `LogOverflow.SafeIff` | xv6-public/log.c:68-235 | for calls of any number of blocks, if and only if the log has room for no entry, or the cache has no more buffers than the log has blocks and the header has entries |
| `LogOverflow.CommitGoesThrough` | xv6-public/log.c:176-190 | from a commit that begins while no buffer is in use, `write_log` can get through if and only if the entries are fewer than the buffers; otherwise no sequence of steps takes it past its first block |
| `LogOverflow.StarvesIff` | xv6-public/bio.c:78-92 | where all states reachable with calls of at most m >= 1 blocks are safe and the log has room for an entry, some reachable commit finds every buffer pinned if and only if the cache has no more buffers than the bound of `LogReserve.ReservationHolds` |
| `LogOverflow.KernelLog` | xv6-public/log.c:176-202 | the log of `mkfs` with `NBUF` buffers is safe in every reachable state, however many blocks calls log, and in one state, with calls of at most `MAXOPBLOCKS`, commit finds no buffer |
| `LogProgress.CommitEndsIff` | xv6-public/log.c:192-202 | from a commit that begins while no buffer is in use, in a state reachable in a safe run, the system can come to rest with everything logged at home and n = 0 in the header block, if and only if the entries are fewer than the buffers |
| `LogProgress.CommitEnds` | xv6-public/log.c:176-202 | with a buffer to spare it does, through `write_log`, the header, `install_trans` and the empty header, and what is committed then is what had been logged |
| `LogProgress.RecoveryEnds` | xv6-public/log.c:115-122 | after a crash in any state with the invariant, with two buffers, recovery has a way to its end, and every home block of the disk is then as committed and n = 0 in the header block |
| `LogCode.HeadCommits` | xv6-public/log.c:98-113 | the header write switches recovery from the home blocks to the logged blocks, all at once |
| `LogCode.InstallHarmless` | xv6-public/log.c:68-82 | copying a logged block home changes nothing for recovery |
| `LogCode.EraseHarmless` | xv6-public/log.c:199-201 | nor does emptying the header once all are home |
| `LogCode.Log.BeginOp` | xv6-public/log.c:124-141 | admits the caller exactly when no commit runs and its reservation fits |
| `LogCode.Log.LogWrite` | xv6-public/log.c:204-235 | adds the block once; readers see the new contents and the disk does not change; panics exactly as the guards say |
| `LogCode.Log.WriteLog` | xv6-public/log.c:176-190 | copies the transaction to the log; after each of its writes the disk still recovers to the old contents |
| `LogCode.Log.WriteHead` | xv6-public/log.c:98-113 | the header block holds n in its first four bytes and block number i in the four from 4 + 4i on, lowest byte first, its other bytes kept, and no other block changes |
| `LogCode.Log.InstallTrans` | xv6-public/log.c:68-82 | copies committed blocks home; after each of its writes the disk recovers to the new contents |
| `LogCode.Log.Commit` | xv6-public/log.c:192-202 | every disk that a crash can leave recovers to all of the old or all of the new contents, and the switch is the header write |
| `LogCode.Log.ReadHead` | xv6-public/log.c:84-96 | n and the block numbers in memory are the numbers that those bytes of the header block spell |
| `LogCode.Log.RecoverFromLog` | xv6-public/log.c:115-122 | ends with the recovered contents at home and an empty header, and after each of its writes would end the same if restarted |
| `LogCode.Log.EndOp` | xv6-public/log.c:143-174 | the last operation of a group commits it; a panic exactly during a commit |
| `FsLog.WholeFrom` | xv6-public/fs.h:8-22 | whether a disk holds a well-formed file system does not depend on its boot block, superblock and log |
| `FsLog.CallsKeepWhole` | xv6-public/fs.c:460-623 | any number of whole writes and truncations take a well-formed file system on disk to a well-formed one |
| `FsLog.CrashLeavesWhole` | xv6-public/log.c:68-235 | in every state of every such run, with crashes anywhere, recovery yields a disk whose trees are disjoint, allocated and without holes, if the run starts from one and its calls never lead from one to a disk that is not, between moments without a call in progress |
| `FsLog.OneByOneKeeps` | xv6-public/log.c:124-174 | they do not when calls follow one another, whatever commits and buffer traffic comes in between, and each logs what a write or truncation logs as `FsCode` performs it |
| `FsLog.CallsSurviveCrashes` | xv6-public/log.c:68-235 | so in every state of every run of such calls, with crashes anywhere, recovery yields a well-formed file system |
| `FsConc.NextKeeps` | xv6-public/fs.c:56-623 | for calls at the same time on different files, every step of one of them, a bit of the free map changed, a block zeroed, entered in the tree, written or freed, a size or an inode written, keeps all trees disjoint and allocated and changes nothing of any other file |
| `FsConc.RestsWhole` | xv6-public/fs.c:460-623 | in every interleaving of any number of writes and truncations, at most one on a file at a time, once all have returned every file is without holes and equal to its copy on disk |
| `FsConc.WriteTakesEffect` | xv6-public/fs.c:590-623 | in every such interleaving, when a write returns its file holds what it held when the write began with the bytes spliced in, and its size is the larger of the two |
| `FsConc.TruncTakesEffect` | xv6-public/fs.c:460-547 | and when a truncation returns its file has no block and size 0, and every block that it had when the truncation began has been freed |
| `FsConc.GrowIsThreeSteps` | xv6-public/fs.c:373-458 | what the sequential code does in one allocation is three of these steps |
| `FsProgress.CallEnds` | xv6-public/fs.c:460-623 | in every state of every such interleaving a call in progress comes to its return by steps of its own, whatever the others have done and wherever they stand, with its effect on the file; the only exception is a write that has reached an absent block while every bit of the free map is set |
| `FsLog.ConcurrentKeeps` | xv6-public/log.c:124-174 | calls never lead from a well-formed disk to one that is not, between moments without a call in progress, when after each step of the run the contents are those of such an interleaving, each call inside its transaction |
| `FsLog.ConcurrentCallsSurviveCrashes` | xv6-public/log.c:68-235 | so in every state of every run of concurrent calls on different files, with crashes anywhere, recovery yields a well-formed file system |
| `Bio.LinkFront` | xv6-public/bio.c:49-55 | four pointer writes put the buffer at the front of the circular list |
| `Bio.Unlink` | xv6-public/bio.c:132-133 | two pointer writes take the buffer out of the circular list |
| `Bio.Bcache.Binit` | xv6-public/bio.c:38-56 | the list is a circular doubly linked permutation of all NBUF buffers |
| `Bio.Bcache.FindCached` | xv6-public/bio.c:69-76 | the first scan finds the buffer of the block exactly when there is one |
| `Bio.Bcache.FindOldest` | xv6-public/bio.c:81-91 | the second scan finds the buffer, of those neither in use nor dirty, that was released longest ago |
| `Bio.Bcache.Bget` | xv6-public/bio.c:61-93 | a hit only gains a reference; a miss relabels the eligible buffer released longest ago; the panic exactly when there is neither; the list and the uniqueness of labels stay |
| `Bio.Bcache.Brelse` | xv6-public/bio.c:118-141 | the buffer whose last reference goes moves to the front, the others keep their order, and the list stays whole |
| `VmSpec.EntryFields` | xv6-public/vm.c:52-52 | the word made of a frame and permission bits has the frame above its low twelve bits, is odd, and has the bits of the permission above bit 0; with write and user permission it is 4096 times the frame plus 7 |
| `VmSpec.PteIsRaw` | xv6-public/mmu.h:131-147 | the entry of a page is word v % 1024 of the frame that word v / 1024 of the directory names, if both words are odd, and 0 otherwise |
| `VmSpec.PageUpIs` | xv6-public/mmu.h:131-131 | rounding up a size gives the first page that starts at or after it |
| `VmSpec.WithTableKeeps` | xv6-public/vm.c:44-53 | putting in an empty table changes no mapping and keeps every frame in one use |
| `VmSpec.WithEntryKeeps` | xv6-public/vm.c:71-73 | writing one entry changes the flat map at that page and nowhere else |
| `VmSpec.UnmapKeeps` | xv6-public/vm.c:269-276 | freeing a mapped page and clearing its entry keeps tables, users and free list in step |
| `VmSpec.RollBack` | xv6-public/vm.c:234-246 | undoing a partial growth restores the user mapping and returns every data page |
| `Vm.Memory.Kalloc` | xv6-public/kalloc.c:79-95 | takes the first page of the free list, or 0 exactly when it is empty |
| `Vm.Memory.Kfree` | xv6-public/kalloc.c:55-77 | the page joins the front of the list, filled with junk but for the link; the panic exactly when the address is not that of a page the allocator manages |
| `Vm.Memory.Freerange` | xv6-public/kalloc.c:46-53 | the whole pages of the range join the list in order, each once |
| `Vm.Memory.Walkpgdir` | xv6-public/vm.c:32-55 | finds the table of the page, or makes one when asked; 0 exactly when it may not or cannot; no mapping changes; the word of the directory is odd and names the table, and a new one is the table's frame times 4096 plus 7 |
| `Vm.Memory.Mappages` | xv6-public/vm.c:57-80 | maps the pages touched to consecutive frames and changes no other entry; stops at the first page that was mapped, with a panic, or at one whose table cannot be had, and then a prefix is mapped and the free list is empty; the entry of each of them is its frame times 4096 plus the permission bits, with bit 0 set |
| `Vm.Memory.Deallocuvm` | xv6-public/vm.c:251-279 | the pages of the range are unmapped and their frames free, though whole missing tables are skipped; nothing else changes |
| `Vm.Memory.Allocuvm` | xv6-public/vm.c:219-249 | maps exactly the new pages to distinct zeroed frames that were free; succeeds if and only if the free list has a page for each and for each missing table; otherwise the mapping is as before and every data page is free again; the entry of every new page is its frame times 4096 plus 7: present, writable, for the user |
| `Vm.Memory.Freevm` | xv6-public/vm.c:281-298 | every user page, every table and the directory are on the free list, once each, and every other page is untouched |
| `Umalloc.MergePartition` | xv6-public/umalloc.c:33-42 | coalescing keeps every unit in exactly one block |
| `Umalloc.SplitPartition` | xv6-public/umalloc.c:78-82 | so does splitting off the tail |
| `Umalloc.Position` | xv6-public/umalloc.c:30-32 | the two tests of the search in `free` pick out the one place where the block belongs |
| `Umalloc.Heap.constructor` | xv6-public/umalloc.c:21-22 | the heap starts with no block and no list |
| `Umalloc.Heap.FindPlace` | xv6-public/umalloc.c:29-32 | the search ends, at the block of the list after which the freed one belongs |
| `Umalloc.Heap.Free` | xv6-public/umalloc.c:24-44 | the block leaves the live ones and its units become free; the list stays one address-ordered cycle without touching blocks; live blocks keep their sizes |
| `Umalloc.Heap.Morecore` | xv6-public/umalloc.c:46-61 | a region of at least 4096 units joins the free ones, or nothing changes when `sbrk` refuses |
| `Umalloc.Heap.Search` | xv6-public/umalloc.c:74-89 | the search ends, after at most one `morecore`; 0 exactly when no free block is large enough and `sbrk` refuses |
| `Umalloc.Heap.Malloc` | xv6-public/umalloc.c:63-90 | hands out a new live block of the rounded size, taken from free or fresh units, and changes no live block |
| `Umalloc.LiveBlocksApart` | xv6-public/umalloc.c:24-90 | a live block shares no unit with another block, live or free |
| `Umalloc.Conservation` | xv6-public/umalloc.c:24-90 | live units plus free units are the units obtained from `sbrk` |
| `Umalloc.UnitsSuffice` | xv6-public/umalloc.c:69-69 | the rounded size has room for the request if and only if the request is at most 2^32 - 8 bytes |
| `Umalloc.WrappedRequest` | xv6-public/umalloc.c:69-69 | a request of 2^32 - 1 bytes is rounded to the header alone |
| `Umalloc.SbrkPositive` | xv6-public/umalloc.c:52-54 | `sbrk` gets a positive number exactly for requests of at most 2^31 - 16 bytes and for those whose rounding wraps |
| `Umalloc.SbrkAnswers` | xv6-public/proc.c:182-198 | what `sbrk` answers and does to a process of any size below 2 GB: growing succeeds exactly when the new size is below 2 GB and there is memory; shrinking to a positive size always, to 0 never; shrinking below 0 changes nothing and is answered as if it had succeeded |
| `Umalloc.SbrkBacks` | xv6-public/sysproc.c:46-57 | the region that `sbrk` answers to `morecore` is memory of the process if and only if its argument was positive |
| `Umalloc.LargeRequest` | xv6-public/proc.c:182-198 | for a request of 2^31 - 15 to 2^32 - 8 bytes it is the old end of the process, at or past the new one, so that `morecore` writes its header there; it is a refusal exactly when the argument takes the size to 0 |
| `ShellLex.TokensOrdered` | xv6-public/sh.c:265-308 | tokens come in order, and a word ends before the next word begins |
| `ShellLine.TokensAre` | xv6-public/sh.c:262-308 | the tokens from any place on are the first thing spelled there after blanks, tabs, returns, newlines and vertical tabs, and the tokens after it: one of the seven signs, the sign of two characters for appending, or everything up to white space, a sign or the end |
| `ShellLine.WordsClean` | xv6-public/sh.c:295-300 | no word of a line has one of those five characters or seven signs in it, and each ends before one or with the line |
| `ShellCode.Parser.Peek` | xv6-public/sh.c:310-320 | skips white space and tells whether the next token starts with one of the characters |
| `ShellCode.Parser.Gettoken` | xv6-public/sh.c:265-308 | takes exactly the first token of the line that remains, as `ShellLine.TokensAre` says what that is |
| `ShellCode.Parser.Parseredirs` | xv6-public/sh.c:374-397 | takes the longest run of redirections, and panics exactly when a file is missing |
| `ShellCode.Parser.Parseexec` | xv6-public/sh.c:415-446 | agrees with the grammar on the tree, the rest of the line and the panics |
| `ShellCode.Parser.Parseblock` | xv6-public/sh.c:399-413 | agrees with the grammar for a parenthesised line |
| `ShellCode.Parser.Parsepipe` | xv6-public/sh.c:361-372 | agrees with the grammar for a pipeline |
| `ShellCode.Parser.Parseline` | xv6-public/sh.c:344-359 | agrees with the grammar for a line; the mutual recursion ends on every input |
| `ShellRound.LineRound` | xv6-public/sh.c:344-446 | a row of tokens that spells a line of the grammar is parsed, up to what follows it, to the command the line means: arguments in order, every redirection among or after them around the command in order, each file opened as its sign says |
| `ShellRound.ReadLine` | xv6-public/sh.c:344-446 | conversely, whatever tokens the parser accepts spell a line of the grammar with that meaning |
| `ShellLine.LineParses` | xv6-public/sh.c:262-446 | every line of the grammar, typed with any white space before, between and after its words and signs, with words kept apart and no two signs run together into one, is parsed to what it means |
| `ShellLine.ParsesIff` | xv6-public/sh.c:327-446 | a string without NUL is parsed if and only if it is such a line |
| `ShellLine.RoundTrip` | xv6-public/sh.c:265-446 | every command tree of typable words with at most 9 arguments a command, printed with any such white space, is parsed back to that tree, with nothing left over |
| `ShellCode.LineFrom` | xv6-public/sh.c:344-446 | every word of a parsed tree is a word of the line, and no command has more than 9 arguments |
| `ShellCode.Nulterminate` | xv6-public/sh.c:448-493 | the buffer changes at the ends of the words of the tree, where it holds NUL, and nowhere else |
| `ShellCode.EndOutside` | xv6-public/sh.c:265-308 | the end of one word never lies inside a word |
| `ShellCode.Parsecmd` | xv6-public/sh.c:327-342 | makes a command tree if and only if the buffer holds a typed line of the grammar, and then the one that the line means, whatever its white space; panics otherwise, with the buffer unchanged; every argument and file then reads as a C string equal to its word |
| `SleepLock.NextKeeps` | xv6-public/proc.c:698-756 | every step of every process keeps the invariant of the two locks, the channel and the sleepers |
| `SleepLock.NoLostWakeup` | xv6-public/proc.c:698-756 | in every run, whoever sleeps while the lock is free is about to be found by a waker that has its scan to do |
| `SleepLock.QuietMeansAwake` | xv6-public/sleeplock.c:22-42 | when nobody holds the inner lock and the sleep lock is free, nobody sleeps on it |
| `SleepLock.AtMostOneInside` | xv6-public/sleeplock.c:22-42 | in every run where only holders release it, at most one process is inside the sleep lock |
| `SleepLock.AcquireReturns` | xv6-public/sleeplock.c:22-33 | in every run, called while both locks are free and left to itself, `acquiresleep` returns after four steps of its own with the sleep lock in its name |
| `SleepLock.AcquireSleeps` | xv6-public/proc.c:698-732 | called while the sleep lock is taken, it is asleep on it after seven and holds neither inner lock |
| `SleepLock.WokenGetsIn` | xv6-public/proc.c:722-732 | woken while the sleep lock is free, it has it after seven |
| `SleepLock.ReleaseReturns` | xv6-public/sleeplock.c:35-42 | called by the holder while the inner locks are free, `releasesleep` returns after five steps and one for each slot of the table; then the sleep lock is free and nobody sleeps on it |
| `SleepLock.ReleaseLetsIn` | xv6-public/sleeplock.c:22-42 | so every process that slept on the lock can get it next |
| `SleepLock.ProcTable.Wakeup1` | xv6-public/proc.c:736-747 | every sleeper on the channel, and nobody else, becomes runnable |
| `SleepLock.ProcTable.Kill` | xv6-public/proc.c:758-779 | the first process with the pid is marked and, if asleep, made runnable; no other process changes |
| `SleepLock.ScanWakesAll` | xv6-public/proc.c:744-746 | the scan of the step system, slot by slot, does to the sleepers what `wakeup1` does |
| `Pipe.WrapDiff` | xv6-public/pipe.c:85-85 | counters that wrap at 2^32 still tell full and empty |
| `Pipe.Ring.Write` | xv6-public/pipe.c:78-98 | stores exactly the bytes that fit, in order; returns if and only if all of the rest fit into 512 less what is held, else fails if and only if there is no reader or the process is killed, else sleeps |
| `Pipe.Ring.Read` | xv6-public/pipe.c:100-121 | returns if and only if bytes are held or there is no writer, and then hands over exactly the oldest bytes, up to n; else fails if and only if the process is killed, else sleeps |
| `Pipe.Ring.Close` | xv6-public/pipe.c:59-75 | one end is shut, and the pipe goes exactly when both are |
| `PipeRun.WriteStep` | xv6-public/pipe.c:78-98 | a writer that is awake can go on, and its step is that of `pipewrite` up to its return or its sleep: bytes stored, outcome, and which readers it wakes |
| `PipeRun.ReadStep` | xv6-public/pipe.c:100-121 | the same for `piperead`: bytes taken, outcome, and which writers it wakes |
| `PipeRun.CloseStep` | xv6-public/pipe.c:59-75 | shutting an end wakes all who wait at the other, and nobody else |
| `PipeRun.PipeIsFifo` | xv6-public/pipe.c:78-121 | in every run of any number of readers and writers, all bytes read followed by the bytes held are all bytes stored, in order, and at most 512 are held |
| `PipeRun.NoneForgotten` | xv6-public/pipe.c:78-121 | in every run no writer sleeps on a pipe with room or without readers, and no reader on one without writers; a sleeping reader faces an empty pipe if and only if no failing writer has left it behind and no step since has woken it or emptied the pipe |
| `PipeRun.DroppedExactlyThen` | xv6-public/pipe.c:86-89 | a step leaves a reader that sleeps over an empty pipe asleep over bytes if and only if it is a write by a process that is killed, or has no readers, and has more than 512 bytes left |
| `PipeRun.StuckUntil` | xv6-public/pipe.c:59-121 | such a reader stays so until exactly the first step that wakes it or takes all the bytes |
| `PipeRun.ReaderLeftAsleep` | xv6-public/pipe.c:86-89 | such a writer does leave a reader asleep over a full pipe |
| `Grep.Matchhere` | xv6-public/grep.c:84-96 | true exactly when the text begins with a row of stretches that match the pieces of the pattern, up to the end of the text after a final $ |
| `Grep.Matchstar` | xv6-public/grep.c:98-106 | true exactly when the rest of the pattern can take up after some run of fitting characters |
| `Grep.Match` | xv6-public/grep.c:72-82 | true exactly when the text contains a match, at its start after ^ |
| `Stride.StrideTable.PathCal` | xv6-public/proc.c:478-495 | the first of the eligible entries with the least pass, and 0 when none is below the largest int |
| `Stride.StrideTable.Advance` | xv6-public/proc.c:467-475 | the pass of the chosen entry, and no other, grows by 10000 over its share, less 2^32 exactly when the sum is past the largest 32-bit int; a negative share is a panic and a share of 0 a divide error |
| `Stride.PassesStayClose` | xv6-public/proc.c:467-495 | from equal passes, in every run, no eligible entry is ahead of another by more than its own stride |
| `Stride.CountsStayProportional` | xv6-public/proc.c:467-495 | so the numbers of selections are in proportion to the shares, within one turn |

## Left out

- FsCode.FileSystem.Filewrite: that all chunks are one write assumes that no other process writes the file between two chunks, where `xv6-public/file.c:158-159` releases the inode lock.
- Umalloc.Heap.Malloc: when no free block is large enough, the answer of `sbrk` must be a refusal or fresh memory, which `Umalloc.SbrkBacks` shows not to hold for requests of 2^31 - 15 to 2^32 - 8 bytes; what the list looks like after `morecore` has written past the end of the process is not followed.
- FsLog.CrashLeavesWhole: that no calls lead from a well-formed file system to one that is not is a hypothesis, discharged by `FsLog.OneByOneKeeps` for calls that follow one another and by `FsLog.ConcurrentKeeps` for calls at the same time on different files.
- FsLog.ConcurrentKeeps: that concurrent calls take the steps of `FsConc` is how that module reads `fs.c`; the methods of `FsCode` are proved for one call at a time, and the inode lock itself is not modelled with it.
- Stride.PassesStayClose: takes equal starting passes and fixed positive shares, and passes below 2147483647, as hypotheses; `set_table` does not reset the pass of the last entry.
- ShellCode.Parser.Parseexec: the source wraps a command in redirections while it is still filling its argument array; the model collects arguments and redirections and builds the tree at the end, so that aliasing does not show.
- Vm.Memory.Kfree: a page that is free already is not detected by the source, so that it is not is a precondition.
- Vm.Memory.Mappages: a size of 0 and ranges that wrap past 2^32, for which the loop of the source does not end where one expects, are outside the precondition.
- Vm.Memory.Allocuvm: pages of the range that are mapped already, over which `mappages` panics, are excluded by the precondition.
- Vm.Memory.Deallocuvm: sizes above `KERNBASE`, which no caller passes and for which the source would free pages of the kernel, are outside the precondition.
- SleepLock.NoLostWakeup: the switch to the scheduler and back is one step each way; the scheduler's own loop is not modelled.
- `copyuvm`, `setupkvm`, `inituvm`, `loaduvm`, `clearpteu`: `copyuvm` loses a page when `mappages` fails, and the others add easy members.
- The queue scheduler, `scheduler` and `set_table` of `proc.c`: the queues are never filled, so their invariants would be vacuous.
- Threads, `exec`, `fork`, `wait`, `exit`.
- `pwrite_os` and `pread_os`: they change the size without the inode lock and leave holes.
- The inode cache (`iget`, `iput`, reference counts), directories, path names, links and the system calls over them.
- Device files and every device driver; the disk is the memory disk.
- `mkfs.c` beyond the layout it gives the disk.
- The line buffering of `grep`, and `runcmd`, `main` and `getcmd` of the shell: input and output.
- Boot code, traps, segments, context switches, memory barriers and interrupts.
