# xv6, modelled and proved in Dafny

This project models the parts of the xv6 kernel and user programs where being right is hardest, and
proves what they promise.

| part | modules | what it models |
|---|---|---|
| Crash-safe storage | `Storage`, `RedoLog`, `LogCode`, `GroupCommit`, `CommitHistory`, `Sums`, `Common` | the redo log of `log.c`: commit, recovery, crashes between any two block writes, and any number of processes sharing the log |
| Files | `Bytes`, `Inodes`, `FileSpec`, `FileRoom`, `FileCode`, `FileBudget`, `FileHoles`, `FileCrash` | the block allocator, inodes with direct and indirect blocks, `readi`, `writei`, `itrunc` of `fs.c`, `filewrite` of `file.c`, the size of its transactions, and what a crash leaves of it |
| Buffer cache | `BufCache`, `BufDisk`, `BufCode`, `BufPins` | `bio.c`: reference counts, sleep locks, recycling, the doubly linked list in release order, and the buffers that the log pins |
| Disk driver | `IdeQueue`, `IdeHistory` | the queued driver of `ide.c` against the synchronous one of `memide.c` |
| Heap | `HeapSpec`, `HeapCode` | `malloc`, `free` and `morecore` of `umalloc.c` |
| Page tables | `PageSpec`, `PageCount`, `PageCode` | the page allocator of `kalloc.c` and the two-level page tables of `vm.c` |
| Blocking | `SleepWakeup`, `SleepHistory`, `Monitors`, `PipeCode` | `sleep` and `wakeup` with every lock operation a step of its own, and their use in sleep locks, the log and pipes |
| Processes | `ProcTable`, `ProcLife` | the process table of `proc.c` on any number of CPUs |
| Matching | `Grep` | the regular-expression matcher of `grep.c` |
| Shell | `ShellSpec`, `ShellGrammar`, `ShellParse`, `ShellPrint`, `ShellCode` | the command parser of `sh.c` against a grammar of command lines, and `nulterminate` |

Code that works by changing things in place is written as classes and methods with loops, each proved
against a function or a step of a state machine; what the code promises is then proved of that function
or of every run of that machine. Concurrency is modelled by interleaving steps, one step for each stretch
of code between two points where another process or CPU can interfere. Where a machine keeps a history of
its own (the log's journal, the driver's requests, what clients stored), or a state that only later steps
read, it is proved to be a function of the events of the run alone.

Every panic is an outcome or a precondition. A precondition stands where the code itself panics on its
caller's mistake ("remap", a missing parent page, releasing a buffer that is not held).

Assumptions the code makes and the model states:

- A single block write is atomic, and the log header fits in one block.
- Operations record at most MAXOPBLOCKS new blocks each (`GroupCommit.WithinBudget`); for `filewrite` this
  is proved, for files without holes.
- The disk reports no errors.
- Buffers are written, or pinned by the log, before they are released, as the head of `bio.c` asks
  (`BufCache.Saved`); `UnsavedIsExposed` shows that a write can be lost exactly when this is not done, and
  `ForgottenWriteIsLost` is a run in which it is.
- `base` lies below every region that `sbrk` returns, and heap requests are at most 0x7000_0000 bytes.

Where the code does not do what one might expect, the model follows the code:

- `log_write` tests for space before it takes the lock and before it looks for an earlier entry of the same
  block. With `nlog = LOGSIZE`, as `mkfs` sets it, two operations can pass the test together and the header
  outgrows the log area: `GuardRace`. The log area is large enough in every run exactly when it has more than
  LOGSIZE blocks: `LogAreaSufficesIff`. In a smaller log the header stays inside as long as no two operations
  are between test and lock at once: `OneAtATimeStaysInside`. Isolation and durability hold for a log of any
  size in every run that stays inside it. Even in a large log, rewriting a block that is already recorded
  panics when the header is full: `AbsorptionCanPanic`, `RefusedExactlyWhenFull`.
- There are as many buffers as a header may record blocks. Commit gets the buffers it needs exactly when fewer
  blocks are pinned than there are buffers: `CommitGetsBuffersIff`. The log that `mkfs` makes leaves one over
  (`MkfsLogLeavesABuffer`); a log that is large enough for a full header does not (`LargerLogCanPinAll`).
- A killed writer returns from a full pipe without waking anyone. A sleeping reader is left behind by a write of
  n bytes to an empty pipe exactly when the writer has been killed and n is more than the pipe holds:
  `WriteForgetsReaderIff`, `ReachableWriteForgetsIff`, with a run in `KilledWriterForgetsReader`.
- `writei` updates the on-disk inode only when the file grows. A write that does not grow the file leaves the
  on-disk inode behind exactly when it falls into a hole of the inode's own addresses:
  `FileCode.FileSystem.WriteI`, with a concrete disk in `FileHoles.StaleInode`. In a file without holes the two
  always agree.
- All buffers start out as block 0 of device 0. Every other block is cached at most once, and of the
  buffers that claim block (0, 0) only the first in the list is ever in use: `CachedOnce`.
- A failed `allocuvm` returns every user page it took but keeps the page tables it added:
  `PageCode.Memory.AllocUvm`.

## Model

| member | source | states |
|---|---|---|
| `Storage.ApplyAt` | xv6/log.c:69-82 | after a list of block writes a block holds the last value written to it, or its old contents |
| `RedoLog.PutHeader` | xv6/log.c:98-113 | a written header reads back as the same list of block numbers |
| `RedoLog.CommitOrder` | xv6/log.c:192-202 | commit writes every log block, then a header that records them all, then every home block with the same contents, and last an empty header |
| `RedoLog.RecoveredHome` | xv6/log.c:115-122 | recovery gives each recorded home block the contents of its log block and leaves other home blocks alone |
| `RedoLog.RecoveredClean` | xv6/log.c:115-122 | after recovery the log records nothing |
| `RedoLog.RestartableRecovery` | xv6/log.c:69-122 | recovery interrupted after any number of writes and started again ends in the same home blocks as one that was not interrupted |
| `RedoLog.RecoveryIgnoresCrashes` | xv6/log.c:115-122 | the same for any number of interruptions one after the other |
| `RedoLog.CommittedAt` | xv6/log.c:177-202 | what a committed transaction means block by block: the buffered contents for the logged blocks, the old ones elsewhere |
| `RedoLog.CrashWhileLogging` | xv6/log.c:177-202 | a crash before the first header write leaves every home block as it was |
| `RedoLog.CrashWhileInstalling` | xv6/log.c:192-202 | a crash at or after the first header write recovers to the whole transaction |
| `RedoLog.CrashAtomicity` | xv6/log.c:69-202 | for every transaction, every crash point among the writes of commit and any number of crashes during recovery, a completed recovery leaves the home blocks all old or all new, and all new from the first header write on |
| `RedoLog.CommitCompletes` | xv6/log.c:192-202 | an undisturbed commit installs the transaction and leaves a clean log |
| `LogCode.Log.InstallTrans` | xv6/log.c:69-82 | the loop issues exactly the install writes, in order, and unpins the blocks it installs |
| `LogCode.Log.ReadHead` | xv6/log.c:85-96 | the in-memory header becomes the recorded list |
| `LogCode.Log.WriteHead` | xv6/log.c:101-113 | one write that makes the header record the in-memory list and keeps the rest of the block |
| `LogCode.Log.RecoverFromLog` | xv6/log.c:115-122 | the code issues exactly the writes of the recovery that the crash theorems speak about |
| `LogCode.Log.WriteLog` | xv6/log.c:177-190 | the loop copies the cached contents of each recorded block to its log block, in order |
| `LogCode.Log.Commit` | xv6/log.c:192-202 | the code issues exactly the writes of the commit that the crash theorems speak about, and unpins the logged blocks |
| `LogCode.Log.TryBeginOp` | xv6/log.c:125-141 | one turn of the admission loop: an operation is let in exactly when no commit runs and its reservation fits |
| `LogCode.Log.EndOp` | xv6/log.c:145-163 | the last operation out starts the commit; ending during a commit panics |
| `LogCode.Log.LogWrite` | xv6/log.c:213-233 | a block is pinned and recorded once, absorbing repeats; it panics exactly under the two guards and then changes nothing |
| `GroupCommit.StepKeeps` | xv6/log.c:125-233 | for a log of any size, every step of every process and every crash that leaves the header inside the log keeps the invariant: reservations fit, recorded blocks are distinct, at most one process commits, and the disk with the pinned buffers is the journal replayed; that the journal is what was asked for is `CommitHistory.JournalIsUpdates` |
| `CommitHistory.JournalIsUpdates` | xv6/log.c:213-233 | in every run the journal is exactly the updates that the events ask for: each recording carries the block and the newest contents its process presented to log_write, under the operation the process began last, and a crash keeps the durable prefix |
| `CommitHistory.CrashYieldsWholeOperations` | xv6/log.c:125-233 | for a log of any size, in every interleaving by any number of processes with crashes anywhere in which the header stays inside the log: stopping now and recovering gives the effect of a prefix of the updates that the processes asked for, made of whole finished operations, and the log.committing panic is unreachable |
| `CommitHistory.CommittedStaysCommitted` | xv6/log.c:145-202 | in every such run, the updates a crash would leave at some point are among those every later crash leaves, in the same order |
| `CommitHistory.RoomyLogIsolates` | xv6/log.c:125-233 | with more than LOGSIZE log blocks, isolation in every run without exception |
| `CommitHistory.RoomyLogIsDurable` | xv6/log.c:145-202 | with more than LOGSIZE log blocks, durability in every run without exception |
| `GroupCommit.OneAtATimeStaysInside` | xv6/log.c:213-233 | in a log of any size the header stays inside if no two operations are between the guard of log_write and its lock at once |
| `CommitHistory.OneAtATimeIsolates` | xv6/mkfs.c:25 | so on the log that mkfs makes isolation holds in every run of that kind |
| `GroupCommit.DurablePrefixGrows` | xv6/log.c:145-202 | the durable part of the journal only ever grows |
| `GroupCommit.OnlyCommitTouchesDisk` | xv6/log.c:145-202 | home blocks and header change only while committing with no operation outstanding |
| `CommitHistory.FinishedMeansDurable` | xv6/log.c:165-173 | when a commit finishes, every update asked for before it is on the disk with its newest contents, and every later crash leaves them all |
| `CommitHistory.QuietMeansDurable` | xv6/log.c:145-174 | end_op leaves nothing behind: in every run, whenever no process is in an operation or commits, every update asked for is on the disk |
| `CommitHistory.SleepersAreWaitedFor` | xv6/log.c:125-174 | while a process sleeps in begin_op, another one is in an operation or commits |
| `CommitHistory.CommitCanFinish` | xv6/log.c:145-202 | from any state of a commit, running it on alone brings it to its end with everything logged durable |
| `GroupCommit.RefusedExactlyWhenFull` | xv6/log.c:213-221 | in a log of more than LOGSIZE blocks the size panic happens exactly when the header is full, and never to an operation that still has blocks of its budget left |
| `GroupCommit.GuardRace` | xv6/log.c:218-223 | a run in which two operations pass the unlocked guard together and the header outgrows a log of at most LOGSIZE blocks |
| `GroupCommit.LogAreaSufficesIff` | xv6/mkfs.c:25 | write_log stays inside the log area in every run if and only if the log has more than LOGSIZE blocks |
| `GroupCommit.AbsorptionCanPanic` | xv6/log.c:213-233 | a run in which rewriting an already logged block panics although it needs no space |
| `Bytes.WithBitTests` | xv6/fs.c:63-70 | setting a bitmap bit changes that block's bit and no other |
| `Bytes.WithoutBitTests` | xv6/fs.c:87-95 | clearing a bitmap bit changes that block's bit and no other |
| `Bytes.WordAfterSet` | xv6/fs.c:389-396 | an entry written into an indirect block reads back, and the other entries keep their values |
| `Inodes.FillKeeps` | xv6/fs.c:373-401 | giving a free block to an empty slot keeps ownership exact: a bit is set if and only if the block is metadata or belongs to exactly one direct, indirect or indirect-entry slot |
| `Inodes.FillKeepsFiles` | xv6/fs.c:373-401 | and changes the contents of no file |
| `Inodes.StoreByte` | xv6/fs.c:501-502 | overwriting a data block changes the bytes of that block of that file, and no byte of any other |
| `Inodes.TruncateKeeps` | xv6/fs.c:408-436 | an inode with its slots emptied and their bits cleared is empty, keeps ownership exact and leaves all other files' bytes alone |
| `FileSpec.WrittenContent` | xv6/fs.c:482-512 | when all blocks of a write are stored the file is its old bytes with the written slice spliced in |
| `FileSpec.SpliceAt` | xv6/fs.c:482-512 | splicing, byte by byte: source bytes inside the slice, old bytes outside it |
| `FileSpec.AddrsChange` | xv6/fs.c:498-511 | the inode's own addresses change exactly when the write touches one of them that is empty |
| `FileSpec.NoNewHoles` | xv6/fs.c:482-512 | a write to a file without holes leaves it without holes |
| `FileSpec.NoHoleNoChange` | xv6/fs.c:482-512 | a write inside a file without holes fills no slot of the inode |
| `FileSpec.HolesBound` | xv6/file.c:117-131 | blocks a write must allocate are at most the ones it touches beyond the allocated prefix |
| `FileSpec.WithinTransaction` | xv6/file.c:117-131 | data, bitmap, indirect and inode blocks of one chunk are together at most MAXOPBLOCKS = 10 distinct blocks |
| `FileSpec.FreeOccupied` | xv6/fs.c:408-431 | the block of an occupied slot is still marked in use when it is freed, and freeing it frees that slot alone |
| `FileSpec.TruncatedBits` | xv6/fs.c:408-436 | truncation clears exactly the bits of the blocks the inode owned |
| `FileRoom.FilledHadRoom` | xv6/fs.c:56-78 | a range whose empty slots have all been filled had at least as many free blocks as empty slots |
| `FileRoom.OutHadNone` | xv6/fs.c:56-78 | a range that ran out of blocks had fewer |
| `FileCode.FileSystem.BAlloc` | xv6/fs.c:56-78 | returns the lowest free block, marked and zeroed; panics exactly when no block is free |
| `FileCode.FileSystem.BFree` | xv6/fs.c:81-96 | clears the block's bit, and panics exactly when it was clear |
| `FileCode.FileSystem.IUpdate` | xv6/fs.c:222-237 | the on-disk inode becomes the cached one |
| `FileCode.FileSystem.AllocSlot` | xv6/fs.c:379-396 | an empty slot is given a free block, which is never 0, with ownership kept exact |
| `FileCode.FileSystem.MapSlot` | xv6/fs.c:379-398 | uses the block of a slot or gives it a free one; panics only on a full disk, changing nothing |
| `FileCode.FileSystem.BMap` | xv6/fs.c:373-401 | the block of a file's bn-th slot, allocating at most the data block and the indirect block and logging every block it changes; every file keeps its bytes; panics only out of range or on a full disk with the block still missing |
| `FileCode.FileSystem.ReadI` | xv6/fs.c:453-477 | returns exactly the requested slice of the file, cut at its size; -1 exactly for a bad offset or overflow; fills exactly the holes in its way, and so panics if and only if there are fewer free blocks than empty slots in its way; a file without holes is read without allocating anything |
| `FileCode.FileSystem.WriteChunk` | xv6/fs.c:498-503 | one turn of the loop keeps what has been written, allocated and logged in step |
| `FileCode.FileSystem.WriteI` | xv6/fs.c:482-512 | the file becomes its old bytes with the slice spliced in; exactly the empty slots in its way are filled; other files and ownership are unharmed; the on-disk inode equals the cached one exactly when the file grew or no inode hole was filled, and so always in a file without holes; every block changed is logged, and for a chunk of at most 1536 bytes into a file without holes they are at most 10; it panics if and only if there are fewer free blocks than empty slots in its way |
| `FileCode.FileSystem.FreeDirect` | xv6/fs.c:415-420 | frees exactly the blocks in the direct slots and empties those slots |
| `FileCode.FileSystem.FreeEntries` | xv6/fs.c:423-428 | frees exactly the blocks listed in the indirect block |
| `FileCode.FileSystem.FreeIndirect` | xv6/fs.c:422-432 | frees exactly the blocks listed in the indirect block and the indirect block itself, and empties its slot |
| `FileCode.FileSystem.ITrunc` | xv6/fs.c:408-436 | frees exactly the blocks the inode owned, never one that is already free, and leaves an empty file, all other files unchanged and the on-disk inode up to date |
| `FileCode.FileSystem.WriteOneChunk` | xv6/file.c:140-145 | one chunk is one transaction, which logs every block it changes |
| `FileCode.FileSystem.WriteNext` | xv6/file.c:135-152 | one turn of the loop is one more transaction, which extends the file by its chunk unless writei refuses it |
| `FileCode.FileSystem.FileWrite` | xv6/file.c:117-156 | the call appends one transaction per chunk to the history, as many as the bytes need when it succeeds; each logs every block it changes and commits the old file with a further whole chunk laid over it; in a file without holes each logs at most 10 blocks and leaves the on-disk inode equal to the cached one; the offset advances by what was written; a call within the limits panics if and only if there are fewer free blocks than empty slots in its way |
| `FileCode.FileSystem.constructor` | xv6/mkfs.c:238-251 | a new file system: the metadata blocks are marked in use, every file is empty and ownership is exact |
| `FileBudget.ChunkLogsTen` | xv6/file.c:117-131 | where the four slots a chunk fills take free blocks of four different bitmap blocks, the chunk logs ten distinct blocks |
| `FileBudget.NeverStuck` | xv6/fs.c:482-512 | and it does not run out of blocks, although only four are free |
| `FileBudget.ReachBudget` | xv6/file.c:126-153 | writei on such a disk writes the whole chunk in a transaction of exactly 10 blocks, so the budget is tight |
| `FileBudget.BudgetIsTight` | xv6/file.c:117-131 | there is such a disk: 12301 blocks, all in use but four, with exact ownership |
| `FileHoles.StaleInode` | xv6/fs.c:482-512 | on a concrete disk, writing a byte into a hole leaves the inode on disk without the block that the inode in memory has |
| `FileCrash.UnloggedSector` | xv6/fs.c:482-512 | a disk block that a transaction does not log holds the same bits, inodes and data before and after it |
| `FileCrash.TransactionReplays` | xv6/log.c:177-202 | replaying the journal of a transaction turns the disk image of the state before it into that of the state after it |
| `FileCrash.CutBetween` | xv6/log.c:145-202 | a cut of the journal that separates no two entries of one operation falls between two transactions |
| `FileCrash.FileWriteSurvivesCrash` | xv6/file.c:117-156 | wherever a crash interrupts the transactions of filewrite, and however often recovery is interrupted, the recovered disk is the file system as some first k of them left it: ownership exact, other files unchanged, the file extended by whole chunks, and in a file without holes the inodes on disk current |
| `BufCache.FindKeyMeans` | xv6/bio.c:68-76 | the forward search finds the first buffer that holds the block, or there is none |
| `BufCache.FindVictimMeans` | xv6/bio.c:78-91 | the backward search finds the last unused clean buffer, or there is none |
| `BufCache.MovedDescends` | xv6/bio.c:128-138 | moving a buffer to the front when its last user leaves keeps the list in order of last release |
| `BufCache.StepKeepsStruct` | xv6/bio.c:58-141 | every step of every client keeps the list a permutation in release order, the reference counts exact, a locked buffer held by one client, and blocks cached once |
| `BufCache.StepKeepsData` | xv6/bio.c:58-141 | every step of a disciplined client keeps cache and disk together equal to an uncached store; what store and disk hold is `BufDisk.DiskIsLastSave` |
| `BufCache.CachedOnce` | xv6/bio.c:38-93 | in every run two buffers never claim the same block, except that unused buffers claim (0, 0) since boot, all but one of them untouched |
| `BufCache.RefusesIff` | xv6/bio.c:61-93 | bget panics exactly when the block is not cached and every buffer is in use or pinned |
| `BufCache.VictimIsOldest` | xv6/bio.c:61-93 | in every run the recycled buffer is the least recently released one that is neither in use nor dirty, it is recycled only if the block is not cached, and no other buffer changes |
| `BufCache.ReadsLatest` | xv6/bio.c:95-116 | in every run of clients that keep the interface's rule, a loaded buffer holds what was last written to its block by anyone |
| `BufCache.DiskLags` | xv6/bio.c:78-91 | the disk differs from what was written only for a block whose buffer is cached and dirty or held |
| `BufCache.UnsavedIsExposed` | xv6/bio.c:8-14 | after any disciplined run, when its only user releases a buffer, the buffer can be recycled with the last write missing from the disk if and only if it was neither written nor pinned |
| `BufCache.ForgottenWriteIsLost` | xv6/bio.c:8-14 | a run in which a client changes a block and releases it unsaved, and a later reader of that block sees the old contents |
| `BufDisk.DiskIsLastSave` | xv6/bio.c:108-116 | in every disciplined run the store is what clients last wrote to each block, and the disk is what they had last written at the time of its last bwrite |
| `BufDisk.ReadsLastWrite` | xv6/bio.c:95-106 | a client that has a buffer loaded sees the last change any client made to its block |
| `BufDisk.WrittenThrough` | xv6/bio.c:108-116 | after a bwrite in any disciplined run the disk holds what was last written to the block, the buffer is clean, and no other block or buffer has changed |
| `BufDisk.DirtyIffPinned` | xv6/log.c:230 | in every run a block is dirty in the cache exactly if it has been marked since its last bwrite |
| `BufDisk.MarkPins` | xv6/bio.c:78-82 | after log_write has marked a buffer it keeps its block and cannot be recycled until some bwrite of the block |
| `BufPins.CommitGetsBuffersIff` | xv6/bio.c:78-93 | with no other user, commit gets a buffer for a log block that is not cached if and only if fewer blocks are pinned than there are buffers |
| `BufPins.PinnedAtHand` | xv6/bio.c:68-76 | a pinned block is always found in its own buffer |
| `BufPins.MkfsLogLeavesABuffer` | xv6/param.h:10-12 | on the log that mkfs makes, with the guard of log_write not raced, fewer blocks are pinned than there are buffers |
| `BufPins.LargerLogCanPinAll` | xv6/param.h:10-12 | a log with room for a full header has a run that pins every buffer |
| `BufCode.Unlink` | xv6/bio.c:131-133 | the two assignments take one buffer off the circle and leave the rest linked both ways |
| `BufCode.PushFront` | xv6/bio.c:50-54 | the four assignments put a buffer behind the head and leave the circle linked both ways |
| `BufCode.BufferCache.constructor` | xv6/bio.c:38-56 | binit links all buffers, last one first, each claiming block 0 of device 0 |
| `BufCode.BufferCache.BGet` | xv6/bio.c:61-93 | the two walks along the links return exactly the buffer the searches of the model choose, granted one more use; None is the panic |
| `BufCode.BufferCache.BRelse` | xv6/bio.c:118-141 | the lock and one use are given up, and the list becomes the one with the buffer moved to the front exactly when that was the last use |
| `IdeQueue.InterruptIsMemRw` | xv6/ide.c:102-131 | one interrupt has the effect of one atomic transfer of the synchronous driver on the request at the head of the queue |
| `IdeQueue.StepKeeps` | xv6/ide.c:73-168 | requests, interrupts and changes to unqueued buffers keep the queue equal to the outstanding requests in order and the disk equal to the completed ones applied synchronously |
| `IdeQueue.QueuedRefinesSynchronous` | xv6/ide.c:73-168 | in every run the completed requests are the first ones made, each once and in order; the disk and each returned buffer are those of the synchronous driver |
| `IdeQueue.WaitEndsWithRequest` | xv6/ide.c:160-165 | a buffer still queued is never valid and clean, and the interrupt makes the head's so |
| `IdeHistory.EveryRequestServed` | xv6/ide.c:73-168 | every request made in a run is served exactly as the synchronous driver would serve it, one by each interrupt in the order they were made, and those still to come are the queue |
| `IdeHistory.BuffersHold` | xv6/ide.c:103-158 | a buffer holds what its owner last put there or what the interrupt that served it read or wrote |
| `IdeQueue.ChainAppend` | xv6/ide.c:149-154 | linking a buffer at the end makes the linked queue one longer at its end |
| `IdeQueue.ChainHead` | xv6/ide.c:110-116 | unlinking the head leaves the rest of the queue |
| `IdeQueue.Driver.constructor` | xv6/ide.c:51-70 | the driver starts with an empty queue and an idle disk, the first state of every run |
| `IdeQueue.Driver.IdeRw` | xv6/ide.c:137-158 | the linked-list code performs exactly one request step, starting the disk only for the first in the queue |
| `IdeQueue.Driver.IdeIntr` | xv6/ide.c:103-131 | the handler performs exactly one completion step and starts the next request; a spurious interrupt changes nothing |
| `HeapSpec.StopsExactly` | xv6/umalloc.c:29-32 | free's loop condition stops at exactly one block of the circle, the last free one below the freed block |
| `HeapSpec.FreedFits` | xv6/umalloc.c:33-43 | inserting the block keeps the list circular and address-ordered and all blocks disjoint, and adds exactly its units |
| `HeapSpec.FreedMerged` | xv6/umalloc.c:33-43 | after free no two free blocks are adjacent |
| `HeapSpec.FreedIsFreeWrites` | xv6/umalloc.c:33-43 | the four conditional assignments of free are the insertion followed by the two possible merges |
| `HeapCode.Heap.Locate` | xv6/umalloc.c:29-32 | the search ends within one round at the free block below the freed one |
| `HeapCode.Heap.Free` | xv6/umalloc.c:24-44 | the block leaves the allocated set and becomes part of a free block; the heap stays valid and other allocated blocks are untouched |
| `HeapCode.Heap.MoreCore` | xv6/umalloc.c:46-61 | a granted request adds exactly the units asked of sbrk, at least 4096, and a free block large enough; a refused one changes nothing |
| `HeapCode.Heap.Carve` | xv6/umalloc.c:74-85 | a block of exactly the requested units is split off or taken whole, overlapping no other |
| `HeapCode.Heap.Malloc` | xv6/umalloc.c:63-90 | terminates with at most one growth; returns a block disjoint from all others and large enough; returns 0 if and only if no block of the list fitted and sbrk refuses, and then the list is as it was; asks for more core exactly when no block fitted; units are conserved |
| `HeapCode.EnoughUnits` | xv6/umalloc.c:69 | rounding to units never wraps, leaves room for every byte requested and wastes less than one unit |
| `PageSpec.WithTableKeeps` | xv6/vm.c:35-55 | adding an empty page table changes no directory's mappings and keeps pages owned exactly once |
| `PageSpec.WithMappingLookup` | xv6/vm.c:61-80 | writing one entry of a page table changes one mapping of one directory and nothing else |
| `PageSpec.WithMappingKeeps` | xv6/vm.c:61-80 | mapping a held page, unmapping a user page or setting a kernel mapping keeps every page owned by exactly one directory, table, user mapping or the kernel |
| `PageSpec.DropDirKeeps` | xv6/vm.c:283-298 | removing all pages of one directory leaves every other directory's mappings and ownership intact |
| `PageSpec.DropNewDir` | xv6/vm.c:283-298 | dropping a directory that was new gives back exactly the pages taken for it |
| `PageSpec.RowsMapStep` | xv6/vm.c:105-115 | the rows of kmap do not overlap, and together they are the kernel layout |
| `PageCount.AllRowTabs` | xv6/vm.c:105-136 | the kernel rows need 64 page tables, all of them above the ones for user pages |
| `PageCount.OneMore` | xv6/vm.c:35-80 | one page more needs one page table more unless the directory or an earlier page of the range has it |
| `PageCode.AbsentTable` | xv6/vm.c:265-268 | skipping to the next directory entry skips only absent pages |
| `PageCode.ZeroUndone` | xv6/vm.c:234-247 | clearing what was mapped so far restores every mapping; only page tables stay behind |
| `PageCode.CopyGrows` | xv6/vm.c:324-339 | one more page of the copy has the parent's flags and contents on a page that was free before |
| `PageCode.Memory.constructor` | xv6/kalloc.c:46-53 | freerange puts exactly the whole pages between the two addresses on the free list |
| `PageCode.Memory.Conserved` | xv6/kalloc.c:59-95 | the free list holds exactly the pages not in use, each once |
| `PageCode.Memory.KAlloc` | xv6/kalloc.c:82-95 | hands out a page that was not in use, or nothing exactly when none is free |
| `PageCode.Memory.KFree` | xv6/kalloc.c:59-77 | the page goes back to the front of the free list and its old contents are gone |
| `PageCode.Memory.WalkPgDir` | xv6/vm.c:35-55 | finds the page table for an address or adds an empty one; fails exactly when there is none and it is not asked to add one or no page is free; no mapping changes |
| `PageCode.Memory.MapPages` | xv6/vm.c:60-80 | maps consecutive pages to consecutive frames and no others; succeeds exactly when there are as many free pages as page tables lacking, and takes exactly those; otherwise a prefix is mapped and the free list is empty |
| `PageCode.Memory.SetupKvm` | xv6/vm.c:118-136 | a new directory with exactly the kernel layout if and only if 65 pages are free, taking exactly those; otherwise failure with the exact set of free pages restored |
| `PageCode.Memory.AllocTurn` | xv6/vm.c:233-247 | one turn of the loop adds one zeroed page, exactly when there is a page for it and for the page table it may lack |
| `PageCode.Memory.TakeBack` | xv6/vm.c:235-246 | what was added is removed again: every mapping is as before and only page tables were kept |
| `PageCode.Memory.AllocUvm` | xv6/vm.c:221-249 | adds exactly the pages from the rounded old size to the new size, zeroed, for the user, on pages that were free, if and only if there are as many free pages as those and the page tables they lack; on failure every mapping is as before and only page tables were kept |
| `PageCode.Memory.ClearPage` | xv6/vm.c:269-276 | frees one user page and its mapping; the panic on page 0 cannot happen |
| `PageCode.Memory.DeallocUvm` | xv6/vm.c:255-279 | removes exactly the present pages between the sizes and frees exactly their frames, although absent tables are skipped |
| `PageCode.Memory.FreeTables` | xv6/vm.c:291-296 | frees exactly the page tables of a directory whose user pages are gone |
| `PageCode.Memory.FreeVm` | xv6/vm.c:283-298 | the free pages grow by exactly the directory, its tables and its user pages; other directories are unaffected |
| `PageCode.Memory.CopyPage` | xv6/vm.c:329-338 | one page copied with its flags, or nothing but page tables taken |
| `PageCode.Memory.CopyTurn` | xv6/vm.c:325-338 | one turn of the loop copies one page more, or leaves the other directories alone |
| `PageCode.Memory.CopyUvm` | xv6/vm.c:315-345 | a new directory with equal contents and flags on disjoint pages if and only if there are as many free pages as the kernel layout, the pages copied and their page tables take; otherwise failure with the exact set of free pages restored; the parent is unchanged |
| `SleepWakeup.NoLostWakeup` | xv6/proc.c:417-474 | for any code that sleeps only where it found its condition true and wakes every channel whose condition it may have made false, in every interleaving with the window inside sleep open: with the locks free, every sleeper's condition holds |
| `SleepHistory.SectionsFollowed` | xv6/proc.c:417-474 | in every run the shared state is the one the last critical section left, and each process is at some point of its own last section, past exactly the wakeup calls it has made, and sleeps only after all of them and on the channel the section names |
| `SleepHistory.WokenExactly` | xv6/proc.c:453-497 | a sleeper is woken exactly by the end of a wakeup on its channel or by a kill |
| `SleepHistory.SleepsUntilWoken` | xv6/proc.c:417-474 | a process that has gone to sleep stays asleep until then |
| `Monitors.SleepLockSleepersWaitForHolder` | xv6/sleeplock.c:22-42 | with the locks free, a process asleep on a sleep lock means the lock is held |
| `Monitors.BeginOpSleepersWaitForRoom` | xv6/log.c:125-174 | with the locks free, a process asleep in begin_op means a commit is running or the log has no room for it |
| `Monitors.LogStepIsSection` | xv6/log.c:125-233 | the steps by which the group-commit machine takes the lock are the critical sections of this monitor: the same counts, the same sleepers, no other wakeups |
| `Monitors.PipeNeverStuck` | xv6/pipe.c:59-121 | in every run in which no writer puts bytes into an empty pipe without waking the readers: with the locks free, writers sleep only on a full pipe whose read end is open, readers of an open end only on an empty pipe that can be written, and never both |
| `Monitors.WriteForsakesIff` | xv6/pipe.c:78-98 | a write to an empty pipe wakes no reader exactly when the writer has been killed and has more bytes than the pipe holds |
| `Monitors.WriteForgetsReaderIff` | xv6/pipe.c:78-98 | from any state with the locks free and a reader asleep, one critical section of pipewrite leaves the reader asleep beside bytes if and only if the writer has been killed and the bytes exceed the room |
| `Monitors.ReachableWriteForgetsIff` | xv6/pipe.c:78-98 | after any run without such a write, if and only if the writer has been killed and the bytes exceed the whole pipe |
| `Monitors.KilledWriterForgetsReader` | xv6/pipe.c:84-90 | a run from an open empty pipe that ends with the reader asleep beside bytes |
| `PipeCode.Pipe.WriteSome` | xv6/pipe.c:78-98 | one critical section of pipewrite stores the next bytes in order behind what is there and ends exactly as the monitor's section for its byte count and killed flag does; the readers of an empty pipe are not woken exactly when the caller is killed and has more bytes than the pipe holds |
| `PipeCode.Pipe.ReadSome` | xv6/pipe.c:100-121 | one critical section of piperead delivers the next bytes in order, so that what was delivered is always a prefix of what was stored, and ends exactly as the monitor's section does |
| `PipeCode.Pipe.Close` | xv6/pipe.c:59-75 | closes one end and wakes the other, as the monitor's section says |
| `PipeCode.CounterGap` | xv6/pipe.c:84-117 | 32-bit counters that have wrapped still tell full from empty and give the number of bytes in flight |
| `PipeCode.SlotsDiffer` | xv6/pipe.c:94 | the slot written next holds none of the bytes in flight |
| `PipeCode.SleepLockCode.TryAcquire` | xv6/sleeplock.c:22-32 | one turn of the waiting loop, as the monitor's section says |
| `PipeCode.SleepLockCode.Release` | xv6/sleeplock.c:34-42 | frees the lock and wakes its waiters |
| `ProcTable.StepKeeps` | xv6/proc.c:74-497 | every step of every CPU keeps the lock held by one CPU, each process on one CPU or kernel stack at most, parents, embryos under construction and pids in order; which event leads to which state is `ProcLife.StateIsLastAct` |
| `ProcTable.RunningMatchesCpus` | xv6/proc.c:323-392 | in every run, with the lock free, RUNNING processes and CPUs with a process correspond one to one |
| `ProcTable.ParentsCanReap` | xv6/proc.c:181-312 | in every run every live process but init has a live parent that is no zombie, and no parent sleeps in wait while it has a zombie child |
| `ProcTable.ReapedOnlyWhenGone` | xv6/proc.c:273-382 | in every run a zombie is freed only when no CPU is on its kernel stack or has it as its process |
| `ProcTable.ZombiesOnlyReaped` | xv6/proc.c:228-312 | a zombie stays the same zombie until its parent reaps it, once |
| `ProcLife.StateIsLastAct` | xv6/proc.c:74-497 | in every run each process is in the state that what last happened to it says: born, dropped, readied, picked, yielded, asleep on the channel it named, woken, exited or reaped |
| `ProcLife.LifeCycle` | xv6/proc.c:74-497 | these follow one another only along the life cycle |
| `ProcLife.SleepersWakeExactly` | xv6/proc.c:417-497 | a process is SLEEPING exactly if its last act was to sleep, on the channel it named, and becomes RUNNABLE exactly at a wakeup of that channel, a kill of it, or an exit that wakes its parent or init |
| `ProcLife.YieldedUntilPicked` | xv6/proc.c:386-392 | a process that yields is RUNNABLE until the scheduler picks it, and then it runs |
| `ProcLife.FieldsFromEvents` | xv6/proc.c:74-497 | in every run killed is set exactly by kill and cleared exactly by wait; the parent is who forked the process, or init after that one has exited; pids are numbered in the order of allocation; and fork works on the child it allocated |
| `ProcLife.WorksForLastPick` | xv6/proc.c:323-358 | a CPU works for the process it picked last |
| `ProcLife.Dispatch` | xv6/proc.c:323-358 | the scheduler can run any RUNNABLE process |
| `ProcLife.Departs` | xv6/proc.c:366-392 | a process that yields, sleeps, waits or exits gives the CPU back to the scheduler |
| `ProcLife.CanFork` | xv6/proc.c:181-221 | a running process can fork into a free slot, and the child is RUNNABLE with a new pid and that parent |
| `Grep.MatchHereMeans` | xv6/grep.c:85-96 | matchhere decides whether some prefix is in the pattern's language, the whole text under a final $ |
| `Grep.MatchStarMeans` | xv6/grep.c:99-106 | matchstar decides the same for a starred character followed by a pattern |
| `Grep.MatchStarLoop` | xv6/grep.c:99-106 | the loop computes the recursive definition and terminates together with matchhere |
| `Grep.MatchHereCode` | xv6/grep.c:85-96 | the code computes the recursive definition |
| `Grep.Match` | xv6/grep.c:73-82 | match is true if and only if some substring, a prefix under ^ and a suffix under $, belongs to the language of the pattern, with literal uses of *, ^ and $ |
| `ShellSpec.GetToken` | xv6/sh.c:265-308 | always advances except at the end of the line, and a word is a maximal run of word characters |
| `ShellSpec.ParseCmd` | xv6/sh.c:327-342 | on every string parsing ends, and every argument and file of an accepted command is a whole token of the line, with at most nine arguments to a command; which lines are accepted, and as what, is `ShellParse.AcceptedIff` and `ShellParse.SpelledParses` |
| `ShellParse.SpellsIff` | xv6/sh.c:265-308 | gettoken reads exactly the tokens a line is made of, whatever white space surrounds them |
| `ShellParse.ItemsParse` | xv6/sh.c:374-445 | words and redirections in any interleaving parse to the words in order, wrapped in the redirections in order |
| `ShellParse.SpelledParses` | xv6/sh.c:327-446 | however a line of the grammar is spelled, the parser accepts it and gives it its meaning: pipes nest to the right and bind tighter than &, which binds tighter than ;, and parentheses group |
| `ShellParse.AcceptedIff` | xv6/sh.c:327-446 | the parser accepts a line if and only if it spells one of the grammar with proper words and at most nine arguments to a command |
| `ShellParse.LineParses` | xv6/sh.c:344-446 | a line of the grammar standing anywhere before the end of its block parses to its meaning and no further |
| `ShellPrint.ParseInvertsShow` | xv6/sh.c:327-446 | parsing inverts the printing, with parentheses only where needed, of every command tree of proper words with at most nine arguments |
| `ShellPrint.LineFewest` | xv6/sh.c:344-446 | that printing has no more parentheses than any other line with the same meaning |
| `ShellPrint.ReparseIsStable` | xv6/sh.c:327-446 | whatever line is accepted, printing its command and parsing again gives the same command |
| `ShellCode.NextToken` | xv6/sh.c:265-308 | gettoken's loops compute the token function |
| `ShellCode.Redirections` | xv6/sh.c:374-397 | parseredirs' loop computes the recursive definition |
| `ShellCode.Simple` | xv6/sh.c:424-445 | parseexec's loop computes the recursive definition, which `ShellParse.ItemsParse` characterises |
| `ShellCode.Block` | xv6/sh.c:399-413 | parseblock computes the recursive definition |
| `ShellCode.Pipeline` | xv6/sh.c:361-372 | parsepipe computes the recursive definition |
| `ShellCode.Line` | xv6/sh.c:344-359 | parseline's loop and recursion compute the recursive definition and terminate |
| `ShellCode.NulTerminate` | xv6/sh.c:448-493 | the buffer changes at exactly the ends of the command's tokens |
| `ShellCode.EndsBetween` | xv6/sh.c:448-493 | no terminator lands on a character of any token |
| `ShellCode.TerminatedReads` | xv6/sh.c:448-493 | with all terminators in place every argument and file pointer reads back as a C string exactly its own token |
| `ShellCode.ParseBuffer` | xv6/sh.c:327-342 | parsecmd on a buffer: the C string in it is accepted if and only if it spells a line of the grammar, and afterwards the command read through its pointers is what that line means |

## Left out

- FileBudget.ReachBudget: the disk that reaches the bound has four bitmap blocks; the image mkfs makes has one, and the largest transaction on it is not determined.
- FileCode.FileSystem.ReadI: the branch for device files; the same for WriteI.
- FileCode.FileSystem.FileWrite: what other processes do to the file between two chunks, when the inode is unlocked.
- FileCrash.FileWriteSurvivesCrash: the operations in the journal are those of one call; operations of other processes between its chunks are not interleaved. Blocks are encoded by an arbitrary function of what lives in them rather than by the layout of struct dinode.
- GroupCommit.StepKeeps: which blocks an operation logs is free within its budget; system calls other than filewrite are not shown to keep to it.
- GroupCommit.StepKeeps: what commit writes once the header has outgrown the log area; such runs are exhibited by GuardRace and excluded from the other results by StaysInside.
- GroupCommit.StepKeeps: commit runs without the log lock while `lh.n` is cleared; no other step reads it then, and the model clears it when the commit finishes.
- BufCode.BufferCache.BGet: the wait for the sleep lock; it is the step Lock of the model of concurrent clients.
- BufCache.StepKeepsData: a disk transfer is one atomic step here; the queued driver is shown to provide that separately.
- IdeQueue.QueuedRefinesSynchronous: device errors and the test for the second disk.
- HeapCode.Heap.Malloc: requests above 0x7000_0000 bytes, for which the byte count handed to sbrk would not be a positive int; sbrk is a parameter that grants or refuses and never moves the break back.
- PageCode.Memory.KFree: addresses are page numbers, so the alignment test is not modelled; a page is known to be in use by a record of uses rather than by its address.
- PageCode.Memory.MapPages: flags are the writable and user bits; the accessed and dirty bits that the hardware sets are left out.
- PageCode.Memory.CopyUvm: other directories and the allocator are used by one caller at a time; kalloc's own lock is not modelled.
- ProcTable.StepKeeps: the table's records are values in a map; scans over the table appear as the choice of an entry, and the clearing of a process's channel after sleep is left out since only sleeping processes' channels are read.
- ShellCode.NulTerminate: memory for command nodes is not modelled; a command is a value and only the input buffer is changed in place.
- Directories, path names, link counts, the inode cache and system-call argument fetching.
- exec, growproc, trap handling, the boot code and the device drivers other than the disk; port input and output, xchg and swtch are taken as atomic primitives.
- The read loop of grep, which discards partial lines, and running the parsed command in the shell.
- Spin locks themselves: acquire and release are atomic steps.
- The exercises under syscalls/.
