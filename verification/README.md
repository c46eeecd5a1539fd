# Verification of the xv6 file system, memory and synchronisation code

A Dafny model of the phase-2 kernel and user code: the redo log, the buffer
cache and the inode layer; the Hoare monitor and its readers/writers client;
sleep and wakeup with the mutexes and sleep-locks built on them, fork, exit and
wait; Sv39 page tables, the page allocator and the memory of processes; and four
self-contained algorithms, the K&R allocator, the shell's parser, the pipe and the regular
expression matcher.  `dafny verify dfyconfig.toml` checks everything.

How the code is modelled:

- Code that updates structures in place is a class with those fields and the
  code's loops; each method is proved against a specification on values, and
  what the code promises is proved about that specification.
- Protocols are state machines over single steps (one disk write, one lock
  operation, one message), and the results are about every run.  A crash may
  come between any two disk writes and drops all memory.
- Panics are outcomes where the code can be asked for them, and preconditions
  where a panic is what the code does to a caller that breaks its rules.
- User copies, `sbrk`, allocation failures and the choice of the next process
  are parameters or nondeterministic steps.

| files | what they hold |
|---|---|
| Params, Sets | shared constants, the log_write calls of an operation, and facts about finite sets and lists |
| Journal, Log | the log on disk, commit and recovery as sequences of disk writes, and the code that performs them |
| GroupCommit, LogHistory, LogSpace | runs of concurrent operations, commits, recoveries and crashes; which value of a block counts, and the code as steps of the runs; space in the log |
| BufferList, CacheRuns | the linked buffer cache, and its clients |
| Bitmap, FileLayout, FileSystem | the free map in bits, slots and bytes of inodes, and the operations of fs.c and filewrite |
| FileLog | filewrite's transactions in runs of the log |
| Monitor, ReadersWriters, RwRuns, RwWriters | the monitor server with its clients; the readers/writers procedures; who waits, who gets in and who is handed the monitor; writers that are left waiting |
| SleepLock, LockRuns, ExitWait | sleep/wakeup with mutexes and sleep-locks; what callers of the locks get; fork, exit and wait |
| PageTable, PageTree, PageRuns | page-table entries, the account of pages and the translation; trees of pages; what mapping, unmapping, growing and copying ranges do |
| VirtualMemory, ProcessMemory | kalloc.c and vm.c; the page tables of processes in proc.c, sbrk and page faults |
| FreeList, Umalloc | the ring of free blocks; malloc and free |
| Shell, ShellLexer, ShellGrammar, ShellParser, ShellText | the parser on tokens and its round trip; the division of a text into tokens; the grammar as rules; the cursor code; text, words and nulterminate |
| Pipe, Grep | the pipe; the matcher |

What the proofs show beyond the code's own comments:

- `log_write` tests for a full log before it looks for the block in the log, so
  operations that stay within MAXOPBLOCKS distinct blocks can still run into
  "too big a transaction" when one of them logs a block again.  The panic is
  unreachable exactly below that bound (`LogSpace.TooBigATransaction`).
- On a disk of any size `filewrite` still never gets there: the panic needs an
  operation with all its MAXOPBLOCKS blocks in the log that logs one of them
  again (`LogSpace.OnlyAbsorbedBlocksPanic`), and a chunk of `filewrite` reaches
  its tenth block, if at all, with its last call (`FileLog.LoggedWrite`).
- A leaf entry need not own the page it maps.  Every process table maps the
  trampoline and a trapframe that it does not own, and during exec two tables
  map the same trapframe; the account of pages is exact all the same, and a page
  table that is built, grown, copied and freed returns every page
  (`ProcessMemory.Life`).
- `StopWrite` signals readers only, so a writer can be left waiting in a free
  monitor with nobody active (`RwWriters.WriterLeftWaiting`).  That is so exactly
  when the last to be active was a writer that stopped while others were waiting
  (`RwWriters.WritersPassedOver`).
- A `pipewrite` that gives up after some bytes, killed or without readers left,
  returns without a wakeup, and a reader can stay asleep over those bytes
  (`Pipe.ReaderLeftAsleep`).  That is the only way: in every other run a reader
  asleep while the lock is free has an empty pipe with its write end open
  (`Pipe.SleepingReaders`).
- `writei` and `itrunc` leave nothing unlogged: every data block, indirect block,
  bitmap block and inode block that they change is among the blocks logged
  (`FileSystem.FileSys.Writei`, `FileSystem.FileSys.Itrunc`), and the log then keeps for
  each block the last value given to it (`LogHistory.LastWriteWins`).

## Model

| member | source | states |
|---|---|---|
| Journal.CrashAtomicity | a2-phase2/xv6-A2/kernel/log.c:66-204 | for every list of distinct logged blocks outside the log area, every number of commit's disk writes that reached the disk before a crash, and every series of recovery attempts that crash in turn, a recovery that finishes leaves the home blocks all old if the first header write had not happened and all new if it had, and the header empty |
| Journal.CommitPrefix | a2-phase2/xv6-A2/kernel/log.c:194-204 | after any prefix of commit's writes the disk still means the old contents up to and including the last log block, and the new contents from the header write on |
| Journal.RecoverPrefix | a2-phase2/xv6-A2/kernel/log.c:117-124 | a recovery that crashes after any number of its writes leaves a disk that recovers to the same contents |
| Journal.RecoverInstalls | a2-phase2/xv6-A2/kernel/log.c:66-84 | a finished recovery leaves in every home block what the header and the log blocks committed, and an empty header |
| Journal.CommitComplete | a2-phase2/xv6-A2/kernel/log.c:195-204 | a commit that is not interrupted leaves the new contents at home and an empty header |
| Journal.CrashedRecoveriesKeep | a2-phase2/xv6-A2/kernel/log.c:117-124 | any number of crashed recoveries change nothing that is committed |
| Journal.EncodeHead | a2-phase2/xv6-A2/kernel/log.c:103-115 | write_head changes n and the first n block numbers of the header block and no other word |
| Log.LogState.constructor | a2-phase2/xv6-A2/kernel/log.c:53-63 | initlog performs exactly recovery's writes and leaves an empty log |
| Log.LogState.ReadHead | a2-phase2/xv6-A2/kernel/log.c:87-98 | the in-memory header becomes the one on disk |
| Log.LogState.WriteHead | a2-phase2/xv6-A2/kernel/log.c:103-115 | one disk write, of the header block with the in-memory header in it |
| Log.LogState.WriteLog | a2-phase2/xv6-A2/kernel/log.c:179-192 | the loop performs exactly one write per logged block, of the cached contents into the log area, in order |
| Log.LogState.InstallTrans | a2-phase2/xv6-A2/kernel/log.c:66-84 | the loop performs exactly one write per logged block, of the log copy to its home, in order, and unpins each when not recovering |
| Log.LogState.RecoverFromLog | a2-phase2/xv6-A2/kernel/log.c:117-124 | performs exactly the writes that the crash results reason about |
| Log.LogState.Commit | a2-phase2/xv6-A2/kernel/log.c:194-204 | performs exactly the writes, in order, that the crash results reason about, and empties log and cache pins |
| Log.LogState.BeginOp | a2-phase2/xv6-A2/kernel/log.c:127-143 | an operation is admitted exactly if no commit runs and n + 10 * outstanding + 10 is at most 30 |
| Log.LogState.EndOp | a2-phase2/xv6-A2/kernel/log.c:147-165 | outstanding goes down by one; the panic, the decision to commit and committing are as the code's tests say |
| Log.LogState.LogWrite | a2-phase2/xv6-A2/kernel/log.c:215-236 | a block is appended unless it is in the log already; the panics come exactly on a full log or outside a transaction, before absorption |
| Log.Absorb | a2-phase2/xv6-A2/kernel/log.c:226-234 | the list keeps its order and its distinctness and grows exactly if the block is new |
| GroupCommit.NoPartialOperation | a2-phase2/xv6-A2/kernel/log.c:127-236 | in every interleaving of begin_op, log_write, end_op, single disk writes and crashes, the disk recovers to exactly the logical contents of some earlier moment with no operation outstanding, and to nothing older than a settled moment since |
| GroupCommit.Step | a2-phase2/xv6-A2/kernel/log.c:127-204 | every step keeps the invariant and either leaves what the disk recovers to alone or makes it the contents of a quiescent state |
| GroupCommit.CommittingAlone | a2-phase2/xv6-A2/kernel/log.c:152-176 | in every run, a commit under way means that no operation is outstanding |
| GroupCommit.EndOpNeverPanics | a2-phase2/xv6-A2/kernel/log.c:148-159 | in every run end_op's panic is unreachable |
| LogHistory.LogSees | a2-phase2/xv6-A2/kernel/log.c:215-236 | log_write makes the new contents of its block the current ones, whether or not the block was in the log already, and changes no other block; a panic changes none |
| LogHistory.CommitSees | a2-phase2/xv6-A2/kernel/log.c:194-204 | no single disk write of a commit, nor its end, changes what the file system sees in any home block |
| LogHistory.StepSees | a2-phase2/xv6-A2/kernel/log.c:127-236 | begin_op, end_op and commit leave the current contents of every block alone; only log_write changes them, of its own block |
| LogHistory.LastWriteWins | a2-phase2/xv6-A2/kernel/log.c:127-236 | in every run, while the machine stays up every home block holds the last value that any operation logged for it, and its first value if none did |
| LogHistory.DurableValues | a2-phase2/xv6-A2/kernel/log.c:66-236 | at every moment of every run the disk recovers, in every home block, to the last value logged before some earlier moment with no operation outstanding |
| LogHistory.CanCommit | a2-phase2/xv6-A2/kernel/log.c:194-204 | from every state of every run with a commit under way the run can go on to its end: the log is empty and every block holds what it held |
| LogHistory.CanRecover | a2-phase2/xv6-A2/kernel/log.c:117-124 | from every state of every run with a recovery under way the run can go on to its end, and the file system then sees what the disk had committed |
| LogHistory.CodeLogs | a2-phase2/xv6-A2/kernel/log.c:215-236 | a call of the modelled log_write is a log step of the runs, panics included |
| LogHistory.CodeBegins | a2-phase2/xv6-A2/kernel/log.c:127-143 | begin_op that goes through is a begin step of the runs, and it goes through whenever such a step is possible |
| LogHistory.CodeEnds | a2-phase2/xv6-A2/kernel/log.c:147-165 | end_op is an end step of the runs, and the last operation out starts the commit |
| LogSpace.TooBigATransaction | a2-phase2/xv6-A2/kernel/log.c:215-236 | log_write's panic is reachable if and only if operations may log MAXOPBLOCKS or more distinct blocks |
| LogSpace.NoPanicBelowBound | a2-phase2/xv6-A2/kernel/log.c:127-143 | with fewer than MAXOPBLOCKS distinct blocks per operation begin_op's reservation keeps every run from the panic |
| LogSpace.OnlyAbsorbedBlocksPanic | a2-phase2/xv6-A2/kernel/log.c:220-229 | in every run log_write panics if and only if the log is full, and at the bound MAXOPBLOCKS the operation then has exactly MAXOPBLOCKS distinct blocks in the log and the block it logs is one of them |
| LogSpace.OrderlyNeverPanic | a2-phase2/xv6-A2/kernel/log.c:215-236 | in every run, with any number of operations, crashes and interleavings, neither panic is reached if every call of every operation finds fewer than MAXOPBLOCKS blocks of its own; what an operation logs with its last call may be the tenth |
| LogSpace.PanicRun | a2-phase2/xv6-A2/kernel/log.c:220-222 | a run of three operations with ten distinct blocks each that panics when one of them logs a block again |
| LogSpace.SpaceRun | a2-phase2/xv6-A2/kernel/log.c:127-143 | in every run the log blocks in use and those still reserved fit the log |
| BufferList.BufferCache.constructor | a2-phase2/xv6-A2/kernel/bio.c:36-53 | the list is one cycle through the head and all NBUF buffers, none valid or referenced |
| BufferList.BufferCache.Find | a2-phase2/xv6-A2/kernel/bio.c:66-73 | the scan finds a buffer for the block, and says so only if there is none |
| BufferList.BufferCache.FindUnused | a2-phase2/xv6-A2/kernel/bio.c:77-87 | the backward scan finds the unused buffer released longest ago, or all are in use |
| BufferList.BufferCache.Bget | a2-phase2/xv6-A2/kernel/bio.c:58-89 | a cached block gets one more reference; otherwise the least recently used free buffer becomes the block's, invalid and with one reference; the panic comes exactly if neither is possible |
| BufferList.BufferCache.Fill | a2-phase2/xv6-A2/kernel/bio.c:92-103 | the buffer is valid afterwards and its data is read from the disk exactly if it was not valid |
| BufferList.BufferCache.Bwrite | a2-phase2/xv6-A2/kernel/bio.c:106-112 | the disk block becomes the buffer's data |
| BufferList.BufferCache.Brelse | a2-phase2/xv6-A2/kernel/bio.c:116-137 | one reference less, and a buffer without references moves to the front of the list, which stays one cycle through all buffers |
| BufferList.BufferCache.Bpin | a2-phase2/xv6-A2/kernel/bio.c:139-144 | one reference more, the list untouched |
| BufferList.BufferCache.Bunpin | a2-phase2/xv6-A2/kernel/bio.c:146-151 | one reference less, the list untouched |
| BufferList.UnlinkRing | a2-phase2/xv6-A2/kernel/bio.c:128-129 | taking any buffer out of the linked list leaves a cycle through the others in the same order |
| BufferList.LinkRing | a2-phase2/xv6-A2/kernel/bio.c:130-133 | putting a buffer behind the head leaves a cycle with it first |
| CacheRuns.Transparent | a2-phase2/xv6-A2/kernel/bio.c:92-103 | in every run of any number of clients that log or write their changes before brelse, bread's buffer holds the latest contents of its block, whatever was recycled |
| CacheRuns.OneBufferPerBlock | a2-phase2/xv6-A2/kernel/bio.c:58-89 | in every run no two buffers hold the same block of a device other than 0, and the list holds every buffer once |
| CacheRuns.NeverRecycledInUse | a2-phase2/xv6-A2/kernel/bio.c:77-86 | no step changes the block of a buffer with references, and every bracket from bread to brelse is a reference |
| CacheRuns.QuiescentDisk | a2-phase2/xv6-A2/kernel/bio.c:105-151 | once all brackets are closed and all pins undone, the disk holds the latest contents of every block |
| CacheRuns.OnlyStoresCount | a2-phase2/xv6-A2/kernel/bio.c:58-151 | the latest contents of a block change only when a client inside its bracket stores into its buffer, and then to what it stored |
| CacheRuns.CanBread | a2-phase2/xv6-A2/kernel/bio.c:58-103 | from every state of every run a client can open a bracket on a block whose buffer is free to lock, cached or not, and reads its latest contents |
| CacheRuns.CanStore | a2-phase2/xv6-A2/kernel/bio.c:92-112 | from every state of every run a client inside its bracket can store anything, and that is the latest from then on |
| CacheRuns.InvStep | a2-phase2/xv6-A2/kernel/bio.c:58-151 | every step of every client keeps counts, locks, uniqueness and the relation of buffers, disk and latest contents |
| Bitmap.MarkSet | a2-phase2/xv6-A2/kernel/fs.c:76-78 | or-ing the mask into its byte marks that block and no other |
| Bitmap.MarkClear | a2-phase2/xv6-A2/kernel/fs.c:99-103 | and-ing the complement of the mask clears that block's mark and no other |
| FileSystem.FileSys.FindFree | a2-phase2/xv6-A2/kernel/fs.c:73-86 | the nested scan returns the first free block, or the number of blocks if none is free |
| FileSystem.FileSys.Balloc | a2-phase2/xv6-A2/kernel/fs.c:66-89 | the first free block is marked and zeroed, and it and its bitmap block are logged; 0 means every block is in use and nothing changed |
| FileSystem.FileSys.Bfree | a2-phase2/xv6-A2/kernel/fs.c:92-106 | the mark is cleared; the panic comes exactly if it was clear already |
| FileSystem.FileSys.MapDirect | a2-phase2/xv6-A2/kernel/fs.c:411-429 | the slot's block, allocated if the slot was empty; ownership stays exact, no byte of any file changes, and failure changes nothing and means a full disk; whatever it changes, blocks and marks, is logged |
| FileSystem.FileSys.MapEntry | a2-phase2/xv6-A2/kernel/fs.c:430-440 | the same for an entry of the indirect block, which is logged if it changes, as is everything else that changes |
| FileSystem.FileSys.Bmap | a2-phase2/xv6-A2/kernel/fs.c:405-444 | the file block's disk block; ownership stays exact, mapped blocks stay where they are, no file's bytes or size change, a mapped block means no change at all, and the blocks logged are bounded; every block and every mark that changes is logged |
| FileLayout.GrowOwn | a2-phase2/xv6-A2/kernel/fs.c:405-441 | allocating a block into an empty slot keeps the account exact: each marked data block is in one slot, each slot's block is marked |
| FileLayout.GrowBytes | a2-phase2/xv6-A2/kernel/fs.c:405-441 | a new block changes no byte of any file |
| FileLayout.StoreBytes | a2-phase2/xv6-A2/kernel/fs.c:543-549 | a copy into a file's block changes exactly the bytes it covers, of that file only |
| FileLayout.StoreOwn | a2-phase2/xv6-A2/kernel/fs.c:543-549 | a copy into a data block never touches an indirect block |
| FileLayout.FreeSlotOwn | a2-phase2/xv6-A2/kernel/fs.c:455-471 | freeing a slot's block removes exactly that block from the account |
| FileLayout.FreeEntryOwn | a2-phase2/xv6-A2/kernel/fs.c:465-468 | freeing an indirect entry without clearing it removes exactly its block from the account |
| FileLayout.SetWordAt | a2-phase2/xv6-A2/kernel/fs.c:431-436 | storing a block number in an indirect block changes that entry and no other |
| FileSystem.FileSys.WriteBlock | a2-phase2/xv6-A2/kernel/fs.c:539-550 | one round of the loop: the bytes are in place or, on a failed copy or a full disk, no byte changed; every block and every mark that changes is logged |
| FileSystem.FileSys.WriteLoop | a2-phase2/xv6-A2/kernel/fs.c:539-551 | a prefix of the source is written, blocks up to its end are mapped, nothing else changes, a short count without a failed copy means a full disk, and the number of logged blocks is bounded; it stops only when done, at a full disk or at the block whose copy fails; every block and every mark that changes is logged |
| FileSystem.FileSys.Writei | a2-phase2/xv6-A2/kernel/fs.c:528-562 | refused exactly if off is beyond the end or the end beyond MAXFILE blocks; otherwise the file is its old bytes overwritten at off by the bytes written, every other file is unchanged, there are no holes, and the inode is on disk; a short count means a full disk or a failed copy, at exactly that block; every block, mark and inode on disk that changes has its block logged |
| FileSystem.FileSys.Readi | a2-phase2/xv6-A2/kernel/fs.c:494-519 | returns exactly the stored slice, with off + n taken modulo 2 to the 32; never allocates, logs or changes anything; -1 exactly if the copy of one of the blocks it reads fails |
| FileSystem.FileSys.ReadBlock | a2-phase2/xv6-A2/kernel/fs.c:505-517 | one round of the loop reads exactly the file's bytes and finds the block mapped |
| FileSystem.FileSys.WriteThenRead | a2-phase2/xv6-A2/kernel/fs.c:494-562 | readi after writei gives back exactly the bytes that were written, and the file is otherwise as it was |
| FileSystem.FileSys.TruncEntries | a2-phase2/xv6-A2/kernel/fs.c:462-469 | all entries of the indirect block are freed, none of them free already |
| FileSystem.FileSys.Itrunc | a2-phase2/xv6-A2/kernel/fs.c:448-476 | clears the marks of exactly this inode's blocks, empties it on disk too, leaves every other file's bytes alone, and never meets bfree's panic; the bitmap block of every mark and the inode block that change are logged |
| FileSystem.FileSys.Iupdate | a2-phase2/xv6-A2/kernel/fs.c:226-242 | the inode is copied to disk and its block logged |
| FileSystem.FileSys.constructor | a2-phase2/xv6-A2/kernel/fs.c:66-106 | an empty file system satisfies the invariant |
| FileSystem.LogSpan | a2-phase2/xv6-A2/kernel/file.c:149-153 | the most blocks a chunk logs: at most MAXOPBLOCKS, and at most 7 with a single bitmap block |
| FileSystem.FileSys.Transaction | a2-phase2/xv6-A2/kernel/file.c:156-165 | one chunk in one transaction logs at most MAXOPBLOCKS distinct blocks, at most 7 with a single bitmap block, every one of its log_write calls finds fewer than MAXOPBLOCKS blocks of its own, and it does what writei does, and every block, mark and inode it changes is logged in this transaction |
| FileSystem.FileSys.FileWrite | a2-phase2/xv6-A2/kernel/file.c:134-179 | what is written is a prefix of the source at the old offset, across all transactions; the offset moves to its end; n is returned exactly if all was written; a short write without a failed copy means a full disk, an offset beyond the end, or an end beyond MAXFILE blocks; every call of every transaction finds fewer than MAXOPBLOCKS blocks of its own; every block, mark and inode that changes is logged by one of the transactions |
| FileLog.LoggedWrite | a2-phase2/xv6-A2/kernel/file.c:134-179 | on a disk of any size, in every run of the log in which operations make the calls of these transactions or of others as orderly, however they interleave, commit and crash, log_write and end_op never panic; and everything the write changes is in one of its transactions |
| Monitor.MonServer.Handle | a2-phase2/Monitor.c:44-245 | one message: the new server variables, queues and replies are those of the specification Serve |
| Monitor.MonServer.PassOn | a2-phase2/Monitor.c:72-107 | the monitor goes to the first urgent process, else to the first waiting to enter, else it is free |
| Monitor.MonInvRun | a2-phase2/Monitor.c:44-245 | in every run the owner is set exactly if the monitor is locked, an unlocked monitor has empty entry and urgent queues, every blocked client is in exactly one queue once, and only the owner is inside |
| Monitor.AtMostOneInside | a2-phase2/Monitor.c:44-245 | two clients inside the monitor are the same client |
| Monitor.OneReplyPerRequest | a2-phase2/Monitor.c:44-245 | in every run a client gets exactly one reply between two successive requests |
| Monitor.Balance | a2-phase2/Monitor.c:44-245 | at every moment of every run a client has as many replies as requests, less one while it is blocked |
| Monitor.SignalWakes | a2-phase2/Monitor.c:170-200 | a signal hands the monitor straight to the first waiter and parks the signaller in the urgent queue |
| Monitor.UrgentFirst | a2-phase2/Monitor.c:72-160 | in every run a process that waits to enter gets the monitor only when no signaller is waiting in the urgent queue, and only as the first of the entry queue |
| Monitor.FirstComeFirstServed | a2-phase2/Monitor.c:44-245 | in every run the entry, urgent and condition queues are served in the order of arrival: as long as a process waits, whoever came after it waits behind it |
| Monitor.HandOver | a2-phase2/Monitor.c:78-106 | passing the monitor on from a state with nobody inside restores the invariant |
| ReadersWriters.ReadersWritersSafety | a2-phase2/reader_writer_monitor.c:46-109 | in every run of any number of processes numReaders and busyWriting are the true numbers of readers and writers, and a writer overlaps neither a reader nor another writer |
| ReadersWriters.NoReaderForgotten | a2-phase2/reader_writer_monitor.c:46-109 | while the monitor is unlocked, a reader waiting on OKtoRead means that a writer is active |
| RwRuns.NoIdleWait | a2-phase2/reader_writer_monitor.c:46-91 | in every run a process waits on OKtoRead only while busyWriting is set and somebody writes, and on OKtoWrite only while numReaders or busyWriting is not 0 and somebody reads or writes |
| RwRuns.LastReaderWakesWriter | a2-phase2/reader_writer_monitor.c:72-91 | in every run, when the last reader brings numReaders to 0 with writers on OKtoWrite, the first of them owns the monitor before anybody else but that reader does |
| RwWriters.WritersPassedOver | a2-phase2/reader_writer_monitor.c:46-109 | in every run, while the monitor is unlocked and nobody is active, writers are waiting on OKtoWrite if and only if the last to be active was a writer and others were waiting when it set busyWriting to 0 |
| RwWriters.WriterLeftWaiting | a2-phase2/reader_writer_monitor.c:82-109 | a run of two writers that ends with one of them waiting, the monitor unlocked and nobody active |
| RwRuns.CanRead | a2-phase2/reader_writer_monitor.c:46-70 | from every state of every run with the monitor free and nobody writing a process can start to read, with nobody else taking a step |
| RwRuns.CanWrite | a2-phase2/reader_writer_monitor.c:82-91 | the same for writing when nobody reads or writes |
| RwRuns.CanStopReading | a2-phase2/reader_writer_monitor.c:72-80 | from every state of every run with the monitor free a reader that has no writer to hand over to can stop |
| RwRuns.CanStopWriting | a2-phase2/reader_writer_monitor.c:93-109 | the same for a writer that has no reader to hand over to |
| RwRuns.BothHappen | a2-phase2/reader_writer_monitor.c:46-109 | there are runs in which a process reads and runs in which one writes |
| ReadersWriters.RwInvRun | a2-phase2/reader_writer_monitor.c:46-109 | the invariant behind both holds in every run |
| ReadersWriters.ActKnows | a2-phase2/reader_writer_monitor.c:46-109 | the code between two monitor calls turns what the process inside knows into what it relies on next |
| ReadersWriters.Wakes | a2-phase2/reader_writer_monitor.c:63-66 | what the signaller established still holds when the waiter runs, so a wait guarded by if is enough |
| SleepLock.NoLostWakeup | a2-phase2/xv6-A2/kernel/proc.c:557-602 | in every interleaving of single lock operations and field accesses, while a lock's spinlock is free a process asleep on it, or committed to sleep, finds it locked |
| SleepLock.MutexAlternates | a2-phase2/xv6-A2/kernel/proc.c:735-805 | successful acquisitions and releases of a mutex strictly alternate, and locked tells which was last |
| SleepLock.RunInvAll | a2-phase2/xv6-A2/kernel/sleeplock.c:21-41 | the invariant for mutexes and sleep-locks holds in every run |
| SleepLock.WakeupMove | a2-phase2/xv6-A2/kernel/proc.c:588-602 | no step of any process loses a wakeup: a committed sleeper has a locked lock or a waker still to reach it |
| LockRuns.LockReturns | a2-phase2/xv6-A2/kernel/proc.c:735-772 | in every run a process that comes back from locking, whether it slept or not, leaves the lock held and its spinlock free, and the last event of a mutex is an acquisition |
| LockRuns.UnlockReturns | a2-phase2/xv6-A2/kernel/proc.c:775-805 | in every run a process that comes back from unlocking leaves the lock free |
| LockRuns.CanLock | a2-phase2/xv6-A2/kernel/sleeplock.c:21-31 | from every state of every run a free lock whose spinlock is free can be taken |
| LockRuns.CanWakeUp | a2-phase2/xv6-A2/kernel/proc.c:557-584 | from every state of every run a process that was woken can go on to take the lock if it is free |
| LockRuns.CanUnlock | a2-phase2/xv6-A2/kernel/sleeplock.c:33-41 | from every state of every run in which the locks it needs are free a held lock can be released, and that wakes exactly the processes asleep on it |
| LockRuns.CanFinishWakeup | a2-phase2/xv6-A2/kernel/proc.c:588-602 | wakeup reaches the end of its loop and wakes exactly the sleepers on its channel |
| ExitWait.NoSleepOverZombie | a2-phase2/xv6-A2/kernel/proc.c:341-430 | in every run, while wait_lock is free nobody asleep in kwait, or committed to sleep there, has a zombie child |
| ExitWait.NoZombieParent | a2-phase2/xv6-A2/kernel/proc.c:325-381 | in every run every parent is a process that is neither a zombie nor gone |
| ExitWait.EveryoneHasAParent | a2-phase2/xv6-A2/kernel/proc.c:272-381 | in every run every running, sleeping or zombie process but init has another process as its parent |
| ExitWait.OrphansMoveToInit | a2-phase2/xv6-A2/kernel/proc.c:325-336 | a step of kexit that changes a parent changes it from the exiting process to init |
| ExitWait.ChildrenGoToInit | a2-phase2/xv6-A2/kernel/proc.c:325-381 | in every run, when an exiting process becomes a zombie every child it had when it took wait_lock has init as its parent |
| ExitWait.CanFork | a2-phase2/xv6-A2/kernel/proc.c:272-318 | from every state of every run with the locks free kfork can put a running child into an unused slot |
| ExitWait.CanExit | a2-phase2/xv6-A2/kernel/proc.c:341-381 | from every state of every run with the locks free a process but init can exit: it ends as a zombie with wait_lock free |
| ExitWait.CanScan | a2-phase2/xv6-A2/kernel/proc.c:396-419 | the scan of kwait can go on to any child that is the first zombie among its own |
| ExitWait.CanReap | a2-phase2/xv6-A2/kernel/proc.c:403-416 | kwait at a zombie child can free its slot and return |
| ExitWait.ForkInv | a2-phase2/xv6-A2/kernel/proc.c:308-318 | the parent-setting part of kfork keeps the invariant |
| ExitWait.ExitInv | a2-phase2/xv6-A2/kernel/proc.c:325-381 | every step of kexit and reparent keeps the invariant, although wakeup comes before ZOMBIE |
| ExitWait.WaitInv | a2-phase2/xv6-A2/kernel/proc.c:385-430 | every step of kwait's scan, sleep and reaping keeps the invariant |
| PageTable.PxInjective | a2-phase2/xv6-A2/kernel/riscv.h:371-374 | the three table indices determine the virtual page |
| PageTable.PxDigits | a2-phase2/xv6-A2/kernel/riscv.h:371-374 | the indices are the three nine-bit digits of the virtual page number, level 2 the highest |
| PageTable.Entry | a2-phase2/xv6-A2/kernel/riscv.h:364-369 | an entry gives back its page number and flags, with the valid bit set |
| PageTable.LeafLookup | a2-phase2/xv6-A2/kernel/vm.c:97-174 | writing one level-0 entry changes the translation of exactly one page of one page table |
| PageTable.GrowLookup | a2-phase2/xv6-A2/kernel/vm.c:108-112 | a new, empty table page changes no translation |
| PageTable.AttachOwn | a2-phase2/xv6-A2/kernel/vm.c:111-167 | storing an entry for a loose page, which it then owns, keeps the account of pages exact |
| PageTable.LeafOwn | a2-phase2/xv6-A2/kernel/vm.c:167-210 | storing or clearing a leaf entry that does not own its page keeps the account of pages exact |
| PageTable.DetachOwn | a2-phase2/xv6-A2/kernel/vm.c:204-210 | clearing an entry, with or without freeing its page, keeps the account of pages exact |
| VirtualMemory.Memory.constructor | a2-phase2/xv6-A2/kernel/kalloc.c:26-40 | every managed page is free, in one linked list |
| VirtualMemory.Memory.Kfree | a2-phase2/xv6-A2/kernel/kalloc.c:46-63 | the page becomes the head of the linked free list, no other page changes |
| VirtualMemory.Memory.Kalloc | a2-phase2/xv6-A2/kernel/kalloc.c:68-82 | the head of the free list is taken off, or the list is empty and nothing changes; every page stays either free or accounted for |
| VirtualMemory.Memory.Walk | a2-phase2/xv6-A2/kernel/vm.c:97-115 | finds the level-0 table of the page; with alloc it adds missing tables, at most two and all in this tree, which changes no translation and no user page, and fails only with fewer than two free pages |
| VirtualMemory.Memory.Mappages | a2-phase2/xv6-A2/kernel/vm.c:145-174 | for any physical range, owned by the new entries or not: on success exactly the requested pages translate to the requested pages and flags; on failure exactly the first of them do, and memory is out; every other translation of every page table, all contents and the account outside this tree are untouched |
| VirtualMemory.Memory.UnmapOne | a2-phase2/xv6-A2/kernel/vm.c:201-211 | the page is unmapped; its memory is freed if asked, and otherwise becomes loose if the entry owned it and stays as it is if not; every other translation untouched |
| VirtualMemory.Memory.Uvmunmap | a2-phase2/xv6-A2/kernel/vm.c:192-212 | exactly the range is unmapped, and exactly the pages its entries owned are freed or become loose |
| VirtualMemory.Memory.Uvmdealloc | a2-phase2/xv6-A2/kernel/vm.c:246-258 | exactly the pages between the rounded sizes are unmapped and freed |
| VirtualMemory.Memory.Uvmalloc | a2-phase2/xv6-A2/kernel/vm.c:216-240 | on success the pages between the rounded sizes are new, zeroed, owned and mapped with the flags asked for; on failure users see no change: no new leaf, no lost page, same contents; it fails only with fewer than three free pages for each page asked for |
| VirtualMemory.Memory.Uvmcopy | a2-phase2/xv6-A2/kernel/vm.c:296-324 | on success the new table has its own copy of every mapped page, same flags and contents; on failure users see no change; it fails only with fewer than three free pages for each page of the size |
| VirtualMemory.Memory.Freewalk | a2-phase2/xv6-A2/kernel/vm.c:262-278 | frees exactly the table pages under the given one, never meets a leaf if none is left, owned or not, and touches no other page |
| VirtualMemory.Memory.Uvmfree | a2-phase2/xv6-A2/kernel/vm.c:282-288 | the account afterwards is exactly the account outside this tree; other page tables and all other pages are unchanged |
| VirtualMemory.Memory.Uvmcreate | a2-phase2/xv6-A2/kernel/vm.c:178-187 | a new, empty page table in a page that was free; 0 exactly if none was |
| VirtualMemory.Memory.IsMapped | a2-phase2/xv6-A2/kernel/vm.c:475-486 | tells whether the page is translated, and changes nothing |
| VirtualMemory.OrRUBits | a2-phase2/xv6-A2/kernel/vm.c:233-233 | the flags of a grown page bit by bit: R and U set, every other bit as asked for |
| VirtualMemory.UpRounds | a2-phase2/xv6-A2/kernel/riscv.h:355-355 | PGROUNDUP gives the smallest number of pages that holds the size |
| PageRuns.Undone | a2-phase2/xv6-A2/kernel/vm.c:229-236 | unmapping what was added brings back the state that users saw |
| PageTree.DropOutside | a2-phase2/xv6-A2/kernel/vm.c:201-211 | freeing the pages that a range of entries owns leaves the account outside the tree alone |
| PageTree.TableChild | a2-phase2/xv6-A2/kernel/vm.c:268-275 | in a tree without leaves every valid entry refers to a table page, so freewalk's panic is unreachable |
| PageTree.NoLeavesIf | a2-phase2/xv6-A2/kernel/vm.c:260-276 | a page table that translates nothing has no valid level-0 entry left |
| ProcessMemory.ProcPagetable | a2-phase2/xv6-A2/kernel/proc.c:192-222 | a new table that maps the trampoline and the trapframe without owning them and nothing else; if memory runs out at any point every page taken is free again and nothing else differs; that happens only with fewer than five free pages |
| ProcessMemory.ProcFreepagetable | a2-phase2/xv6-A2/kernel/proc.c:226-232 | every page of the table is free again, the trapframe and the trampoline are left alone, and so is every other page and page table |
| ProcessMemory.Freeproc | a2-phase2/xv6-A2/kernel/proc.c:171-180 | freeing the trapframe while the page table still maps it, and then the table, returns exactly these pages |
| ProcessMemory.Growproc | a2-phase2/xv6-A2/kernel/proc.c:252-268 | a process image of the new size: only the pages between the sizes differ, new ones are zeroed; on failure users see no change; with the 64-bit sum, taking away more than all takes away nothing; it fails only when growing, with fewer than three free pages for each new page |
| ProcessMemory.Sbrk | a2-phase2/xv6-A2/kernel/sysproc.c:50-74 | eager and lazy growth and shrinking keep the process image, and lazy growth touches no memory; it fails only as growproc does |
| ProcessMemory.Vmfault | a2-phase2/xv6-A2/kernel/vm.c:452-473 | a page below the size that is not mapped becomes a new zeroed page; in every other case users see no change; with three free pages such a page is never refused |
| ProcessMemory.Fork | a2-phase2/xv6-A2/kernel/proc.c:272-290 | the child has an image with its own copy of the parent's memory, and the parent and all others are as before; or it fails and every page taken is free again; it fails only with fewer than 6 + 3 * pages free pages |
| ProcessMemory.Life | a2-phase2/xv6-A2/kernel/proc.c:171-290 | a child that is forked, grows, shrinks and faults in any way and is freed leaves exactly the account, contents and translations there were, whatever failed on the way; the child is born unless memory is short, and at every moment of its life it has an image of the size its requests so far gave it |
| FreeList.JoinRight | a2-phase2/xv6-A2/user/umalloc.c:33-35 | joining a freed block with its right neighbour keeps the ring ordered and disjoint |
| FreeList.JoinLeft | a2-phase2/xv6-A2/user/umalloc.c:38-40 | joining with the left neighbour keeps the ring ordered, with no two blocks contiguous |
| FreeList.TakeOff | a2-phase2/xv6-A2/user/umalloc.c:76-77 | taking a whole block off keeps the ring |
| FreeList.CutOff | a2-phase2/xv6-A2/user/umalloc.c:78-82 | cutting the tail off a block keeps the ring |
| Umalloc.Heap.Search | a2-phase2/xv6-A2/user/umalloc.c:30-32 | the search ends, at the last node below the block |
| Umalloc.Heap.Free | a2-phase2/xv6-A2/user/umalloc.c:24-44 | the block leaves the live ones and becomes free units, in one ring in address order with no two free blocks contiguous; free and live units together stay what sbrk gave |
| Umalloc.Heap.Morecore | a2-phase2/xv6-A2/user/umalloc.c:46-61 | what sbrk gives becomes free units, at least as many as asked for in one block |
| Umalloc.Heap.Scan | a2-phase2/xv6-A2/user/umalloc.c:74-89 | one trip round the ring finds a block that is large enough, or there is none |
| Umalloc.Heap.Malloc | a2-phase2/xv6-A2/user/umalloc.c:63-90 | the block returned is large enough, apart from all live blocks and taken from the free units; NULL only if no free block will do and sbrk fails; the search ends; sbrk is not called if a free block will do |
| Umalloc.Headers | a2-phase2/xv6-A2/user/umalloc.c:69-69 | the smallest number of headers that holds one header and nbytes |
| ShellParser.Parser.GetToken | a2-phase2/xv6-A2/user/sh.c:271-314 | moves the cursor over exactly the next token of the text |
| ShellParser.Parser.Peek | a2-phase2/xv6-A2/user/sh.c:316-326 | tells whether the next token starts with one of the symbols; the tokens ahead stay the same |
| ShellLexer.MaximalMunch | a2-phase2/xv6-A2/user/sh.c:271-314 | on every text and from every position the tokens are ts if and only if the text divides into blanks and those tokens with every word and every >> as long as it can be |
| ShellLexer.RedirectionModes | a2-phase2/xv6-A2/user/sh.c:380-403 | <, > and >> give their literal open modes and file descriptors |
| ShellParser.Parser.ParseLine | a2-phase2/xv6-A2/user/sh.c:350-365 | on every text terminates and gives the tree, the error and the rest that the grammar gives on its tokens |
| ShellParser.Parser.ParsePipe | a2-phase2/xv6-A2/user/sh.c:367-378 | the same for a pipeline |
| ShellParser.Parser.ParseRedirs | a2-phase2/xv6-A2/user/sh.c:380-403 | the same for redirections |
| ShellParser.Parser.ParseBlock | a2-phase2/xv6-A2/user/sh.c:405-419 | the same for a block in parentheses |
| ShellParser.Parser.ParseExec | a2-phase2/xv6-A2/user/sh.c:421-452 | the same for a command |
| ShellParser.Parser.ParseCmd | a2-phase2/xv6-A2/user/sh.c:333-345 | a whole line, which must be used up: a tree is returned only if the rules derive the tokens of the text from it, and an error only if they derive them from no tree |
| Shell.LineTrip | a2-phase2/xv6-A2/user/sh.c:350-452 | parsing the parenthesised rendering of any tree with fewer than MAXARGS words per command gives that tree back, over any kind of words |
| ShellGrammar.ParserIsGrammar | a2-phase2/xv6-A2/user/sh.c:333-452 | the parser accepts a line with a tree if and only if the rules derive exactly its tokens, in order, from that tree |
| ShellGrammar.LineDerived | a2-phase2/xv6-A2/user/sh.c:350-365 | whatever tree the parser returns, the rules derive from it exactly the tokens it used up |
| ShellGrammar.LineParsed | a2-phase2/xv6-A2/user/sh.c:350-365 | every line the rules derive is parsed to the tree they derive it from, at the end of the input or before a closing parenthesis |
| ShellGrammar.Unambiguous | a2-phase2/xv6-A2/user/sh.c:350-452 | no line is derived from two trees |
| ShellGrammar.RefusedUnderived | a2-phase2/xv6-A2/user/sh.c:333-345 | a line the parser refuses is derived from no tree |
| ShellText.TextTrip | a2-phase2/xv6-A2/user/sh.c:333-452 | the same round trip through text: rendering a tree as characters, lexing and parsing gives a tree whose words spell it |
| ShellText.LexTrip | a2-phase2/xv6-A2/user/sh.c:271-314 | the lexer undoes the rendering of tokens as text |
| ShellText.LineSpelled | a2-phase2/xv6-A2/user/sh.c:350-452 | the parser never looks into words |
| ShellText.Nulterminate | a2-phase2/xv6-A2/user/sh.c:454-499 | writes a NUL at the end of every word of the tree and nowhere else |
| ShellText.WordsReadBack | a2-phase2/xv6-A2/user/sh.c:454-499 | after nulterminate every word and file name of a parsed line reads back as exactly its token |
| Pipe.Stream | a2-phase2/xv6-A2/kernel/pipe.c:76-130 | in every interleaving and however often the 32-bit counters wrap, the bytes consumed are a prefix of those produced with at most PIPESIZE in between, and the tests for full and empty are exact |
| Pipe.SleepingWriters | a2-phase2/xv6-A2/kernel/pipe.c:83-103 | while the pipe's lock is free, a process asleep on nwrite means that the pipe is full and its read end open |
| Pipe.SleepingReaders | a2-phase2/xv6-A2/kernel/pipe.c:76-130 | while the pipe's lock is free, a process asleep on nread means that the pipe is empty and its write end open, or that some writer gave up after it had put bytes in |
| Pipe.ReaderLeftAsleep | a2-phase2/xv6-A2/kernel/pipe.c:84-87 | a run that ends with a reader asleep over a byte, the lock free and both ends open, because the writer was killed after its first byte |
| Pipe.CanWrite | a2-phase2/xv6-A2/kernel/pipe.c:76-103 | from every state of every run with the lock free, the read end open and room left a process can write any byte |
| Pipe.CanRead | a2-phase2/xv6-A2/kernel/pipe.c:105-130 | from every state of every run with the lock free and the pipe not empty a process can read the next byte produced |
| Pipe.OneHolder | a2-phase2/xv6-A2/kernel/pipe.c:58-130 | at most one process is past acquire |
| Pipe.PipeBuf.WriteRun | a2-phase2/xv6-A2/kernel/pipe.c:83-98 | the loop produces exactly the bytes it counts, and stops only done, refused, on a failed copy, or at a full pipe with a reader; without readers or killed it refuses before the first byte |
| Pipe.PipeBuf.ReadRun | a2-phase2/xv6-A2/kernel/pipe.c:120-126 | the bytes delivered are the next ones produced, never more than asked for; a short count without a failed copy means the pipe is drained |
| Pipe.PutMeans | a2-phase2/xv6-A2/kernel/pipe.c:95-95 | storing a byte appends it to what was produced |
| Pipe.GetMeans | a2-phase2/xv6-A2/kernel/pipe.c:123-123 | taking a byte consumes the next one produced |
| Grep.Match | a2-phase2/xv6-A2/user/grep.c:72-82 | true if and only if the pattern's items divide some part of the text, at its start for a leading caret |
| Grep.MatchHere | a2-phase2/xv6-A2/user/grep.c:85-96 | true if and only if the items of the pattern divide a part of the text from this position on |
| Grep.MatchStar | a2-phase2/xv6-A2/user/grep.c:99-106 | true if and only if some run of c from this position is followed by a match |
| Grep.MatchesCons | a2-phase2/xv6-A2/user/grep.c:85-106 | a pattern divides the text where its first item and then the rest do |

## Left out

- Journal.CrashAtomicity: a disk write is one atomic step and the disk keeps the order of writes, as the log assumes of the driver; virtio_disk.c is not part of this model.
- GroupCommit.NoPartialOperation: an operation's change of a block and its log_write are one step; begin_op's sleeping and the wakeups of waiting operations are not modelled, only when an operation may go on.
- CacheRuns.Transparent: for clients that log or write every change before brelse and use devices other than 0, as all callers do; a critical section under bcache.lock is one step; reference counts are unbounded integers.
- BufferList.BufferCache.Bget: that a free buffer is always there is not claimed; pinned blocks can number NBUF.
- FileSystem.FileSys.Writei: one operation at a time on the whole file system, not interleaved with operations on other inodes; a user copy succeeds or fails as a whole, so a copy that fails in the middle of a block is not modelled.
- FileSystem.FileSys.Itrunc: called on inodes in memory; iget, iput, ilock and reference counts of the inode table are not modelled, nor are the other fields of an inode.
- FileSystem.FileSys.FileWrite: the device and pipe branches are not modelled.
- Directories, path names, file descriptors and system calls: they would add members of the same kind as the inode layer.
- Monitor.MonInvRun: the server's queues are sequences; the pool list library is not modelled, because ListRemove of the first of two items leaves the head on a freed node there (a2-phase2/list_adders.c:137-149, a2-phase2/list_removers.c:83-90). Clients have one outstanding Send, do not enter twice, and initialisation is over.
- ReadersWriters.NoReaderForgotten: says nothing of writers, for which it is false; RwWriters.WritersPassedOver gives the exact condition. The procedures are steps over program counters, since the point is how they interleave.
- SleepLock.NoLostWakeup: slots of the mutex table (sys_mtx_create, the used flag) and the owner field are not modelled; lock numbers are those in use. That only the owner can unlock, as partA.design.txt has it, is not claimed: sys_mtx_unlock (a2-phase2/xv6-A2/kernel/proc.c:790-798) has no test for it.
- ExitWait.NoSleepOverZombie: files, memory, process numbers and exit status are not modelled; a process sleeps in kwait only; allocproc and the copying in kfork are one step.
- VirtualMemory.Memory.Mappages: superpages are not modelled; kvmmake and proc_mapstacks are sequences of such calls and have no members of their own.
- VirtualMemory.Memory.Uvmunmap: sizes and addresses are unbounded integers; callers stay below MAXVA, where walk would panic, and free only what the range owns, since kfree of any other page is a fault of the caller.
- ProcessMemory.Growproc: for sizes up to TRAPFRAME, beyond which mappages panics; vmfault is called with the page table of the running process. Registers in the trapframe, exec's loading of segments and uvmclear are not modelled.
- Umalloc.Heap.Malloc: requests whose size in bytes does not fit sbrk's int are not modelled; sbrk gives memory above all it gave before.
- Umalloc.Heap.Free: frees live blocks only, as the code demands of its callers.
- ShellParser.Parser.ParseCmd: running commands is not modelled; malloc of tree nodes succeeds; error messages are not kept apart.
- Pipe.Stream: sleep and wakeup are single steps here (their own interleavings are in SleepLock); the freeing of a closed pipe is not modelled.
- Grep.Match: reading input and splitting it into lines is not modelled.
- Scheduler, traps, drivers, boot code, uthread.c, s-chat.c and the small user programs are not part of this model.
