# A verified model of the xv6 kernel's hard parts

xv6 is a small Unix-like kernel for x86. This project models, in Dafny, the parts of it that are hard to get right and proves
what they are for:

* the crash-safe storage stack: a physical redo log with group commit (`log.c`) over a cache of disk buffers that pins logged
  blocks (`bio.c`), over a disk that takes one block at a time (`memide.c`);
* the file system on top: the free map, direct and indirect blocks, files as byte sequences (`fs.c`, `file.c`), directories and
  link counts (`sysfile.c`);
* processes: fork, exit, wait, sleep and wakeup (`proc.c`), and pipes (`pipe.c`);
* page tables and physical pages (`vm.c`, `kalloc.c`);
* three user-level algorithms: the heap allocator (`umalloc.c`), the shell's parser (`sh.c`) and grep's matcher (`grep.c`).

## How it is built

Code that updates state in place is modelled by classes whose methods have the loops of the source. Each method is proved
against a function or predicate on plain values, and what the source promises is proved about those. Protocols in which several
processes take turns are transition systems whose steps are the sections of code that hold a lock, and the reads that log_write
makes without it; the results about them hold in every state of every run (`Runs`).

| module | about |
|---|---|
| `Basics`, `Blocks`, `Runs` | machine words and counting; blocks, words in blocks, sequences of block writes; runs of transition systems |
| `Redo` | what a disk with a log stands for, after any prefix of the writes of a commit or a recovery |
| `Journal` | system calls, group commit, crashes and recoveries, interleaved |
| `JournalLimits` | what the size of the log area decides: refusals, crash safety, the longest list |
| `Bio`, `LogCopy` | the buffer cache; copies of blocks through it while other processes read |
| `LogDevice` | `log.c` in place: every state it reaches is one that a run of `Journal` reaches |
| `LogWorst` | when a commit finds a buffer, over all runs; runs that end without one |
| `FsImage`, `FsContents` | who owns which block; files as bytes |
| `FsLog`, `Fs` | what a write allocates and logs, exactly; the functions of `fs.c` and filewrite |
| `FsWorst` | disks on which a write logs as much as it can, and on which truncation logs too much |
| `Links`, `Sysfile` | the directory tree as a transition system; create, link and unlink in place |
| `ProcTable`, `Proc` | the process table as a transition system; its loops in place |
| `Pipe` | the ring buffer in place; readers and writers as a transition system |
| `PageMap`, `Vm` | who owns which physical page; the allocator and the page-table functions in place |
| `HeapBlocks`, `Umalloc` | the heap as a value; malloc and free in place |
| `ShellGrammar`, `Shell` | the shell's parser as functions; the parser in place |
| `ShellSyntax` | a grammar of command lines over tokens, and that the parser is exactly that grammar |
| `Grep` | the meaning of patterns; the matcher; writing patterns and reading them back |

A kernel panic is an outcome (`ok` is false, `Panicked`, `Panic`) whose condition is stated, or is proved not to occur. Four
properties turned out not to hold of the code as it stands, and each has its exact condition and a case in which it fails.

* What the log promises depends on the size of its area (`LogWorst.AreaSizes`), because log_write makes its test before it takes
  the lock, so that three calls can pass it together. No mix of crashes and calls damages the disk exactly if the area has one
  block, or NBUF blocks and more (`JournalLimits.RecoverableIff`); in between, `JournalLimits.Overrun` is a run that writes behind
  the area. log_write does not refuse a write within budget exactly if the area has more than LOGSIZE blocks
  (`JournalLimits.NeverTooBigIff`). A commit finds a buffer while `r` others are in use exactly if the area has one block, or
  `r` and the area leave two of NBUF buffers over (`LogWorst.AlwaysRoomIff`). Both constants are 30. So the 30 blocks that mkfs
  lays out survive every crash, but log_write can refuse, and a commit can panic for want of a buffer: with 29 blocks listed and
  one reader (`LogWorst.OneReader`), or with 30 and no reader at all (`LogWorst.FullLog`). No size has all three properties.
* Truncating a file keeps to the blocks that an operation may log exactly on disks whose data blocks have their bits in fewer than
  MAXOPBLOCKS blocks of the free map (`FsWorst.TruncFitsIff`, `FsWorst.LongTrunc`).
* A killed writer can leave readers of a pipe asleep (`Pipe.WakeupsKept`, `Pipe.LeftBehind`).
* Very large requests to malloc are computed or passed to sbrk wrongly (`Umalloc.RequestIff`).

## Model

| member | source | states |
|---|---|---|
| Blocks.PutWordGet | log.c:101-113 | a word stored in a block is read back, and no other word of the block changes |
| Blocks.PlayPrefix | log.c:177-202 | playing a prefix of some writes depends on that prefix only, so a crash point is a prefix |
| Redo.HeaderRoundTrip | log.c:85-113 | the header block read_head reads gives exactly the list of blocks write_head wrote |
| Redo.LoggedHolds | log.c:85-122 | a disk at boot holds the transaction its header describes, with the data in the log blocks |
| Redo.StandsForUnique | log.c:115-122 | what a disk stands for, that is the home blocks after recovery, is unique |
| Redo.ClearStandsFor | log.c:115-122 | with a clear header a disk stands for its own home blocks and nothing else |
| Redo.RecoveryDone | log.c:69-122 | a completed recovery installs the logged blocks and clears the header |
| Redo.RecoveryPrefix | log.c:69-122 | a crash after any number of the writes of a recovery leaves a disk that stands for the same home blocks |
| Redo.CommitDone | log.c:192-202 | a completed commit has installed the transaction and cleared the header |
| Redo.CommitEarly | log.c:177-202 | a crash up to the header write leaves a disk that stands for what it stood for before the commit |
| Redo.CommitLate | log.c:69-82 | a crash after the header write leaves a disk that stands for the whole transaction |
| Journal.BeginKeeps | log.c:125-141 | admitting a system call keeps the invariant of log, cache and disk |
| Journal.TestKeeps | log.c:218-221 | passing the tests at the head of log_write, which take no lock, keeps it |
| Journal.LogKeeps | log.c:223-232 | logging a block under the lock, absorbed or new, after any number of other calls have passed the test, keeps it |
| Journal.EndKeeps | log.c:145-174 | ending a system call keeps it, including when the last one starts the commit |
| Journal.WriteKeeps | log.c:69-113 | every single block write of a commit or a recovery keeps it |
| Journal.FinishKeeps | log.c:166-173 | the end of a commit or of a recovery keeps it |
| Journal.CrashKeeps | log.c:115-122 | losing everything in memory at any moment keeps it |
| Journal.BootKeeps | log.c:85-122 | starting recovery from what is on the disk keeps it |
| Journal.AlwaysRecoverable | log.c:115-122 | in every reachable state the disk stands for the starting disk with exactly the durable updates |
| Journal.DurableIsHeaderWritten | log.c:192-202 | the durable updates of a run are those of the commits whose header write happened, in order |
| Journal.CrashSafety | log.c:69-202 | crash safety over whole runs with any number of crashes at any block write, also during recovery, in an area of one block or at least NBUF |
| Journal.Atomicity | log.c:125-233 | of every system call all updates survive a crash or none, and none if it has not ended |
| Journal.ReadsLatest | log.c:213-233 | while the kernel is up, a block read is the committed disk with all pending updates on top |
| Journal.Reservation | log.c:125-174 | in every area, the log and the unused budgets never exceed LOGSIZE, no block is listed twice, a commit excludes open calls, an idle log is empty and admits a call |
| Journal.SaneKeeps | log.c:213-233 | in every area, every step keeps the list at most one block longer than the area, counting the calls that have passed the test |
| Journal.NeverStuck | log.c:69-122 | in every reachable state a log that is down can boot, and one that commits or recovers has a next write or is done, except that a commit of NBUF blocks finds no buffer |
| Journal.WriteRun | log.c:69-122 | the next writes of a commit or a recovery can all be made, and take the disk where the script says |
| JournalLimits.RefusalMeansFull | log.c:213-220 | with room for the header, log_write refuses exactly when the log is full, and then all open calls have used up their budgets |
| JournalLimits.NeverTooBigIff | log.c:132-133 | log_write never refuses a write within budget if and only if the log area is larger than LOGSIZE |
| JournalLimits.AbsorbedWriteRefused | log.c:218-219 | a block that is already in the log can be refused, because the test comes before absorption |
| JournalLimits.Together | log.c:218-232 | three calls that pass the test together list one block more than the area has, two as many, in every area that is small enough |
| JournalLimits.LongestIs | log.c:218-232 | the longest list over all runs, for every area: no run lists more blocks and some run lists as many |
| JournalLimits.Overrun | log.c:177-190 | from two blocks to NBUF - 1, a run in which write_log overwrites the block behind the area before anything is committed |
| JournalLimits.RecoverableIff | log.c:69-233 | in all runs the disk stands for the durable updates if and only if the area has one block or at least NBUF |
| Bio.Disk.Iderw | memide.c:38-60 | writes a dirty buffer, reads into an invalid one, panics exactly when not locked, nothing to do, or out of range |
| Bio.UnlinkKeepsRing | bio.c:131-132 | taking a buffer out leaves a ring of the others, in order |
| Bio.PushKeepsRing | bio.c:133-136 | putting it behind the head makes a ring with it in front |
| Bio.RecycleKeeps | bio.c:79-91 | recycling a buffer keeps at most one buffer per block and loses no contents |
| Bio.UncachedInStep | bio.c:79-91 | a buffer not yet read belongs to a block that is up to date on disk |
| Bio.Cache.constructor | bio.c:38-56 | the ring contains every buffer once, most recent last-initialised first |
| Bio.Cache.Find | bio.c:68-76 | finds the buffer of a block exactly if it is cached |
| Bio.Cache.Victim | bio.c:78-91 | finds the least recently used buffer that is free and not pinned, exactly if there is one |
| Bio.Cache.Bget | bio.c:61-93 | gives the cached buffer or recycles the victim, panics exactly if there is neither, and keeps the cache coherent |
| Bio.Cache.Fill | bio.c:96-106 | bread shows the caller the latest logical contents of the block |
| Bio.Cache.Update | bio.c:109-116 | storing into a held buffer changes the logical contents of that block alone |
| Bio.Cache.Pin | log.c:223-232 | a pinned buffer is kept until its block is written |
| Bio.Cache.Bwrite | bio.c:109-116 | writes the buffer to its block, panics exactly if the caller does not hold it |
| Bio.Cache.MoveToFront | bio.c:130-137 | the pointer surgery moves the buffer to the front of the ring and keeps the order of the others |
| Bio.Cache.Brelse | bio.c:120-141 | the last release moves the buffer in front of all others, which keep their order; a pinned or unwritten change is never lost |
| LogCopy.Bread | bio.c:96-106 | reads the latest contents of a block exactly if it is cached or a buffer is free |
| LogCopy.CopyNext | log.c:71-81 | one turn of a copying loop makes the next write of the script and needs exactly one or two free buffers |
| LogCopy.EncodeHeader | log.c:101-113 | the loop of write_head produces the header block for the list |
| LogCopy.DecodeHeader | log.c:85-96 | the loop of read_head produces the list from the header block |
| LogDevice.Log.WriteLog | log.c:177-190 | the writes are the listed blocks' contents into the log, in order, while others may be reading other blocks; it panics exactly if no buffer is free |
| LogDevice.Log.InstallTrans | log.c:69-82 | the writes are the logged blocks to their homes, in order, and unpin them |
| LogDevice.Log.WriteHead | log.c:101-113 | one write of the header block with the current list |
| LogDevice.Log.ReadHead | log.c:85-96 | the list becomes what the header block says, and nothing is written |
| LogDevice.Log.Commit | log.c:192-202 | the disk writes are exactly those of the journal's commit, one step each; it panics exactly if no buffer is free, before writing; nothing stays pinned and buffers others use are left alone |
| LogDevice.Log.RecoverFromLog | log.c:115-122 | from any disk that stands for some home blocks, the disk writes are exactly those of the journal's recovery, and the log is running and empty |
| LogDevice.Log.LogTest | log.c:218-221 | the tests of log_write, which panic exactly if the log is too big or no call is open; passing them is a step of the journal |
| LogDevice.Log.LogAppend | log.c:223-232 | lists the block once and pins it, for a call that has passed the tests, whatever others have listed since; it is a step of the journal |
| LogDevice.Log.LogWrite | log.c:213-233 | both, uninterrupted |
| LogDevice.Log.BeginOp | log.c:125-141 | admits a call exactly if not committing and the budgets of all open calls and this one fit; it is a step of the journal |
| LogDevice.Log.EndOp | log.c:145-164 | the last call out starts the commit; the panic there is not reached; it is a step of the journal |
| LogCopy.CommitCrash | log.c:192-202 | cutting the writes of Commit short leaves the old home blocks before the header write and all the logged contents after |
| LogCopy.RoomIff | bio.c:78-93 | with exactly the listed blocks pinned and none of them in use, a buffer is free if and only if the blocks listed and the buffers in use are together fewer than NBUF |
| LogDevice.Log.constructor | log.c:54-64 | the log starts where the journal is at power-on |
| LogDevice.Log.Read | bio.c:96-106 | bread keeps the pinned blocks those listed, and the log a state of the journal |
| LogDevice.Log.Modify | log.c:207-212 | so does a change by the holder of a buffer |
| LogDevice.Log.Release | bio.c:120-141 | so does brelse of a buffer that is unchanged or has been passed to log_write since |
| LogDevice.Log.Done | log.c:166-173 | the section after commit is the step that finishes the commit in the journal |
| LogDevice.CommitAgrees | log.c:192-202 | the transaction that commit finds in the cache is the one the journal commits |
| LogDevice.QuietReady | file.c:105-110 | what is pinned and stale when the last call ends follows from the invariant, while others may be reading |
| LogDevice.CutShort | log.c:192-202 | a commit cut short after any number of its writes leaves the disk of a state the journal reaches, which stands for the updates durable there |
| LogDevice.RoomyInArea | log.c:192-202 | in the areas that are crash safe, a commit whose list does not fit the area has no free buffer, so it writes nothing |
| LogWorst.CommitRoom | bio.c:78-93 | in every state of the log, the exact number of listed blocks and buffers in use at which a commit finds none |
| LogWorst.AlwaysRoomIff | param.h:10-12 | in all runs the blocks listed leave a buffer over while `r` are in use if and only if the area has one block or `g.size + 1 + r < NBUF` |
| LogWorst.CommitFinds | bio.c:78-93 | in those areas, in every state of the log with at most `r` buffers in use, a commit finds a buffer |
| LogWorst.AreaSizes | param.h:10-12 | which areas are crash safe, which have no refusal within budget and which have room for every commit, each if and only if; no area to which anything can be logged has room and one of the others |
| LogWorst.LogOne | log.c:207-233 | one call's bread, log_write and brelse of a new block, done by the class as the journal's steps |
| LogWorst.Rush | log.c:213-233 | calls that each hold a buffer, pass the test together and then list their blocks |
| LogWorst.NoRoom | log.c:125-202 | for every area and every number of blocks that a run can list there: boot, three calls, as many readers as there are other buffers, and a commit that panics |
| LogWorst.FullLog | log.c:125-202 | in the area that mkfs lays out, such a run without any reader |
| LogWorst.OneReader | file.c:105-110 | and one with a list that fits the area and one reader |
| FsImage.OwnedMeans | fs.c:372-435 | all pointers in inodes and indirect blocks are distinct allocated data blocks, and no data block is marked that none points to |
| FsContents.SplicedByte | fs.c:499-504 | storing a piece in one block changes exactly those bytes of the file |
| FsContents.WroteMore | fs.c:499-505 | a turn of writei's loop extends what has been written, and nothing else changes in any file |
| FsContents.WroteAll | fs.c:481-511 | after the loop and the new size, the file has exactly the new bytes, other files are the same, no file has holes |
| Fs.FileSystem.constructor | mkfs.c:94-111 | a formatted disk has only its metadata marked |
| Fs.FileSystem.Mounted | fs.c:171-187 | a disk in which every pointer owns its block and no file has holes is a state of the file system |
| Fs.FileSystem.Balloc | fs.c:56-78 | gives the first free block, zeroed and marked, and panics exactly if all are marked |
| Fs.FileSystem.Bfree | fs.c:81-95 | clears the block's bit, and panics exactly if it was clear |
| Fs.FileSystem.Iupdate | fs.c:220-236 | the inode on disk becomes the one in memory |
| Fs.FileSystem.Bmap | fs.c:372-400 | maps the block, keeps ownership, every other pointer and all data; allocates and logs exactly what was missing; panics exactly if out of range or if fewer blocks are free than that |
| Fs.FileSystem.Itrunc | fs.c:407-435 | clears exactly the bits of the blocks the inode owned, never frees a free block, empties the inode in memory and on disk, and logs exactly the inode's block and the free-map blocks of those bits |
| Fs.FileSystem.Readi | fs.c:452-476 | for a file, an offset within it and a range that does not wrap: exactly its bytes from there, as many as asked for or up to its end; refuses exactly the rest, and changes nothing |
| Fs.WriteThenRead | fs.c:452-511 | after a write, a read at the same offset of at least as many bytes gives the bytes written, and then those of the file that follow |
| Fs.FileSystem.Writei | fs.c:481-511 | replaces exactly the given bytes, extends the file, touches no other file, writes the inode through; allocates only if the file grows; panics exactly if it needs more blocks than are free; logs exactly the set `FsLog.Logs`, within its budget, which it reaches exactly in the worst case |
| Fs.FileSystem.FileWrite | file.c:117-156 | stores the bytes chunk by chunk, each in a transaction of at most MAXOPBLOCKS blocks: all of them, or as many whole chunks as the largest file has room for, or none beyond the end of the file; panics exactly if what it would store needs more blocks than are free |
| FsLog.NeedsJoin | file.c:133-153 | writes of adjoining ranges need together exactly the blocks that one write of both needs, though they may share a block |
| Fs.JournaledTwice | log.c:204-212 | that every changed block was passed to log_write holds across operations |
| Fs.WrapsIff | fs.c:463-464 | the test for a sum that wraps is exact |
| Fs.Truncated | fs.c:407-435 | after truncation the other files own what they owned and have the bytes they had |
| FsLog.FillEntry | fs.c:386-398 | a block for an entry of the indirect block: who owns what, and what is set and logged |
| FsLog.ReachedThrough | fs.c:386-398 | mapping a block through the indirect block, new or not, allocates and logs exactly what was missing |
| FsLog.RanOutEntry | fs.c:64-78 | if the entry's block cannot be had, fewer blocks were free than the mapping needs |
| FsLog.SpentMore | fs.c:499-505 | a turn of writei's loop adds exactly its data block, the free-map blocks of what it allocates, and the indirect block if it gets an entry |
| FsLog.RanOutMore | fs.c:499-505 | running short at one block is running short of what the whole write needs |
| FsLog.NeedNothing | fs.c:498-504 | blocks below the end of the file are there, so writing to them needs none |
| FsLog.MapsCard | fs.c:64-78 | bits set are in as many blocks of the free map as there are bits exactly if no two share one |
| FsLog.Bounded | file.c:127-133 | a write logs at most its budget |
| FsLog.BudgetReachedIff | file.c:127-133 | it logs all of it exactly if every block it touches is new but for the one it starts inside, the indirect block is new, and no two new blocks share a free-map block |
| Fs.ProgressStops | fs.c:499-505 | a write stops only if it needs more blocks than were free |
| Fs.WithinNeedsNothing | fs.c:498-504 | a write within the file needs no block |
| Fs.ChunkFits | file.c:127-133 | what a chunk logs fits MAXOPBLOCKS |
| Fs.BudgetFits | file.c:127-133 | the budget of a chunk fits MAXOPBLOCKS wherever it goes, and that of a longer one at the start of a block does not |
| FsWorst.CrowdedOwned | mkfs.c:94-111 | a disk with one free block in each block of the free map and every other block owned |
| FsWorst.LastWorst | file.c:127-133 | appending to its last file across the last direct block is the worst case |
| FsWorst.Append | fs.c:481-511 | writei on that disk logs exactly its budget |
| FsWorst.FullChunk | file.c:127-133 | a chunk of filewrite, in the middle of a block, can log exactly MAXOPBLOCKS blocks |
| FsWorst.LongerChunk | file.c:127-133 | a chunk longer by one byte can log more than that, so no longer chunk would do |
| FsWorst.TruncFitsIff | fs.c:407-435 | on every disk of a layout truncation logs at most MAXOPBLOCKS blocks if and only if fewer than that many blocks of the free map are for data blocks |
| FsWorst.LongTrunc | fs.c:407-435 | on a disk of any other layout, an itrunc that logs more |
| Fs.FileHasMore | file.c:135-152 | writing chunk after chunk is writing it all |
| Links.NamedCount | sysfile.c:138-148 | a new name makes one more reference, and a new directory one more to its parent |
| Links.NamedTree | sysfile.c:241-283 | a new name keeps the directories a tree |
| Links.UnnamedCount | sysfile.c:212-226 | a removed name makes one reference less, and a removed directory one less to its parent |
| Links.UnnamedTree | sysfile.c:212-226 | a removed name keeps the directories a tree |
| Links.EmptyDirectory | sysfile.c:168-181 | an empty directory has exactly one link, and its parent at least two |
| Links.UnlinkTarget | sysfile.c:205-210 | what unlink removes is in use and has a link, so the panic there is not reached |
| Links.CreateKeeps | sysfile.c:241-283 | create keeps counts and tree |
| Links.LinkKeeps | sysfile.c:118-165 | link keeps counts and tree |
| Links.UnlinkKeeps | sysfile.c:184-239 | unlink keeps counts and tree |
| Links.DropKeeps | fs.c:331-352 | freeing an inode without links keeps counts and tree |
| Links.LinkCounts | sysfile.c:118-283 | in every run, each link count is the number of entries other than "." that name the inode in linked directories |
| Links.DirectoryTree | sysfile.c:241-283 | in every run, ".." leads from every linked directory to the root, and each but the root has one name, in its parent |
| Links.PutFinds | fs.c:551-578 | a new entry is found under its name, and no other name names anything else than before |
| Links.EraseFinds | sysfile.c:212-214 | a cleared entry is not found any more if its name was the only one of its kind, and all other names are found as before |
| Links.NamesUnique | sysfile.c:118-283 | in every run, no directory has two entries of the same name |
| Sysfile.Directories.DirLookup | fs.c:524-548 | finds the first slot in use with that name |
| Sysfile.Directories.DirLink | fs.c:551-578 | refuses a name that is there, and else fills the first empty slot or appends |
| Sysfile.Directories.IsDirEmpty | sysfile.c:168-181 | true exactly if nothing but the first two slots is in use |
| Sysfile.Directories.Ialloc | sysfile.c:258-274 | the first free inode, with "." and ".." and the parent's count raised if it is a directory; a panic exactly if there is none |
| Sysfile.Directories.Create | sysfile.c:241-283 | answers with an inode exactly if the name was new or is that of a file and a file was asked for; then the name is that inode's, and a new one was free and is all that changed but for its parent; panics exactly if the name is new and there is no free inode; its panics after that are not reached |
| Sysfile.Directories.Link | sysfile.c:118-165 | succeeds exactly for an inode that is no directory and a name that is not there; then the name is that inode's and it has one more link; otherwise nothing has changed |
| Sysfile.Directories.Unlink | sysfile.c:184-239 | succeeds exactly for a name other than "." and "..", of a file or an empty directory; then nothing has the name and the inode has one link less; otherwise nothing has changed; the panic for a missing link is not reached |
| ProcTable.LightKeeps | proc.c:417-497 | scheduling, yielding, sleeping elsewhere, waking and killing keep the family tree, pids and waits right |
| ProcTable.ForkSteps | proc.c:180-222 | the steps of fork, and its failures, keep them right |
| ProcTable.ScanKeeps | proc.c:280-311 | a pass of wait, whether it reaps, gives up or sleeps, keeps them right |
| ProcTable.ExitKeeps | proc.c:250-266 | the locked part of exit keeps them right |
| ProcTable.ExitWaitProtocol | proc.c:227-312 | in every run, nobody sleeps in wait with a zombie child, every started process but init has a live parent, and a zombie's parent is not asleep in wait |
| ProcTable.ReapedOnce | proc.c:286-299 | in every run, no pid is returned by two waits or while a process has it |
| ProcTable.ReapedAreReturned | proc.c:286-299 | in every run, the pids reaped are exactly those that calls of wait have returned, in order |
| ProcTable.ExitedIs | proc.c:250-266 | entry by entry what exit does: the caller a zombie, its children with init, and exactly those woken that sleep on its parent, or on init if a child is a zombie |
| ProcTable.WakeupMeans | proc.c:467-474 | after wakeup nobody sleeps on the channel, and nobody else is affected |
| Proc.Ptable.Wakeup1 | proc.c:457-465 | exactly the processes asleep on the channel become runnable |
| Proc.Ptable.Allocproc | proc.c:73-92 | the first unused entry becomes an embryo with the next pid and nothing else changes; or none is unused and nothing changes |
| Proc.Ptable.Abandon | proc.c:255-262 | the loop gives every child to init and wakes init exactly if one of them is a zombie |
| Proc.Ptable.Exit | proc.c:250-266 | the caller is a zombie, its children are init's, exactly those asleep on its parent, or on init if a child is a zombie, are woken |
| Proc.Ptable.FindZombie | proc.c:282-301 | finds the first zombie child, and whether there is any child |
| Proc.Ptable.WaitPass | proc.c:280-311 | returns the pid of a zombie child exactly if there is one, and frees it; -1 exactly if there is none and the caller has no children or is killed; else sleeps |
| Proc.Ptable.Kill | proc.c:479-497 | finds a process exactly if one has the pid; marks it, makes it runnable if asleep, and changes nothing else |
| Pipe.Ring.Counters | pipe.c:85-114 | the tests for full and empty are exact although the counters wrap |
| Pipe.Ring.Put | pipe.c:84-94 | appends to the stream as much as fits |
| Pipe.Ring.Get | pipe.c:113-117 | takes the next bytes of the stream |
| Pipe.Ring.WriteSection | pipe.c:83-97 | a section of pipewrite: returns exactly if all is stored; otherwise the pipe is full, and it fails exactly if nobody can read or it is killed |
| Pipe.WriteMeans | pipe.c:83-97 | what is stored and what is left are what there was to store, in order |
| Pipe.Ring.ReadSection | pipe.c:105-120 | a section of piperead: the next bytes, as many as asked for and there; returns none, though asked for some, only if the pipe is empty and nobody can write |
| Pipe.ReadMeans | pipe.c:105-120 | the same of the stream, with when it sleeps, fails and wakes writers, exactly |
| Pipe.Delivered | pipe.c:101-121 | in every run, a read gets the next bytes of the stream, as many as asked for and there; if it gets none, everything ever stored has been read and the write end is closed |
| Pipe.WriteWhole | pipe.c:78-98 | in every run, a write that is done has stored all its bytes, in order, or has filled the pipe with a first part of them and was killed or nobody can read |
| Pipe.Ring.Close | pipe.c:59-75 | closes that end only, loses nothing, and tells whether both are closed |
| Pipe.CloseMeans | pipe.c:59-75 | leaves nobody asleep at the other end, and nobody else woken |
| Pipe.ReadsPrefix | pipe.c:78-121 | in every interleaving the bytes read are a prefix of the bytes stored, with at most PIPESIZE in between |
| Pipe.WakeupsKept | pipe.c:59-121 | writers asleep always have a full pipe to wait for; readers an empty one, except exactly after a writer gives up with more than PIPESIZE to store while a reader sleeps |
| Pipe.Wakeups | pipe.c:59-121 | in every run without that exit, readers and writers never sleep together |
| Pipe.WriterWakeups | pipe.c:59-121 | in every run, a writer asleep has a full pipe with its read end open |
| Pipe.LeftBehind | pipe.c:86-89 | a run in which a reader sleeps on a full pipe |
| PageMap.EntrySet | vm.c:60-80 | writing one page-table entry changes that mapping of that address space and no other |
| PageMap.PdeSet | vm.c:41-52 | a new page table is owned by its directory entry and maps nothing |
| PageMap.UserSet | vm.c:70-72 | a mapped page is owned by its mapping |
| PageMap.UserCleared | vm.c:268-276 | an unmapped page is owned by nobody |
| PageMap.DirDropped | vm.c:283-298 | an address space given up releases exactly its pages |
| Vm.Memory.Kalloc | kalloc.c:82-95 | takes the first page off the free list, or fails exactly if it is empty |
| Vm.Memory.Kfree | kalloc.c:59-77 | puts a page in front of the free list |
| Vm.Memory.FreeRange | kalloc.c:46-53 | frees every page of the range once |
| Vm.Memory.WalkPgdir | vm.c:35-55 | finds or makes the page table, which takes one page if it is missing, changes no mapping, and fails exactly if there is none to be had |
| Vm.Memory.MapOne | vm.c:60-80 | maps one page, or fails exactly if there is no page for a missing page table, with everything mapped as before, or panics exactly if the page is mapped |
| Vm.Memory.MapRange | vm.c:60-80 | maps a range of kernel pages that were not mapped and changes nothing else; or fails exactly if fewer pages are free than page tables are missing; or panics because a page of it is mapped |
| Vm.Memory.DeallocUvm | vm.c:255-279 | unmaps and frees exactly the user pages between the sizes, although it skips missing page tables |
| Vm.Memory.FreeVm | vm.c:283-298 | returns each page of the address space exactly once and touches no other |
| Vm.Memory.SetupKvm | vm.c:118-136 | a new address space without user pages and with every range of the kernel mapped; it fails exactly if fewer pages are free than one and the number of page tables, and then returns every page |
| Vm.Memory.MapKernel | vm.c:129-134 | the loop maps all ranges, each leaving those before it mapped, or fails exactly for want of a page table |
| Vm.KernelMapOk | vm.c:110-115 | the kernel's four ranges are above KERNBASE and do not overlap |
| Vm.Memory.AllocUvm | vm.c:221-249 | maps fresh pages, writable by the user, between the sizes; it fails exactly if fewer pages are free than these and the missing page tables, and then nothing is mapped that was not and only page tables are kept |
| Vm.Memory.CopyUvm | vm.c:315-345 | a copy with pages of its own, the same permissions and the kernel mapped; it fails exactly if there are not pages enough for the copies and all tables, and then returns every page |
| Vm.PagesNeeded | vm.c:110-115 | with the kernel's real ranges, setupkvm takes 65 pages, and copyuvm of n pages takes these, n, and one page table for every 1024 |
| HeapBlocks.Apart | umalloc.c:24-90 | any two blocks, free or allocated, are disjoint |
| HeapBlocks.Inserted | umalloc.c:33-43 | linking a block in keeps the list circular and ordered and the blocks a tiling of the heap |
| HeapBlocks.Joined | umalloc.c:33-42 | so does joining two free blocks that touch |
| HeapBlocks.Unlinked | umalloc.c:76-77 | so does handing out a whole block |
| HeapBlocks.Splitted | umalloc.c:78-82 | so does handing out the tail of a block |
| HeapBlocks.Grown | umalloc.c:46-61 | so does adding memory from sbrk |
| HeapBlocks.Freed | umalloc.c:24-44 | after free no two free blocks touch, the units of the heap are the same, and the block is no longer allocated |
| Umalloc.RequestIff | umalloc.c:69-69 | a request is computed and passed to sbrk as meant if and only if it is at most 2^31 - 16 bytes |
| Umalloc.SbrkExactIff | umalloc.c:46-54 | sbrk is asked for as many bytes as are put on the free list exactly below 2^28 units |
| Umalloc.AtPlace | umalloc.c:30-32 | the search in free stops exactly at the block's place in the list |
| Umalloc.Heap.FindPlace | umalloc.c:30-32 | the search ends, at the place |
| Umalloc.Heap.LinkAfter | umalloc.c:33-43 | the four ways of joining write the headers as specified |
| Umalloc.Heap.Free | umalloc.c:24-44 | the list stays circular, ordered and joined; total units are the same; other allocated blocks are untouched |
| Umalloc.Heap.Morecore | umalloc.c:46-61 | adds exactly the units asked for, at least 4096, and reports failure without change; astray exactly if sbrk is asked for another number of bytes |
| Umalloc.Heap.Take | umalloc.c:75-84 | hands out a block of exactly the units asked for, outside every allocated block |
| Umalloc.Heap.Malloc | umalloc.c:63-90 | ends after at most one successful morecore, and none unless every free block is too small, with a fresh block that has the units and, unless the sum wrapped, the bytes asked for; or fails only if no free block fits and sbrk refuses; or goes astray exactly if none fits and the size does not fit sbrk's argument |
| ShellGrammar.WordToken | sh.c:299-303 | a word up to white space or a symbol is one token |
| ShellSyntax.TokenIs | sh.c:265-308 | between tokens there is only white space, signs are what they look like, >> is one of them, words are as long as they can be, and there is none left exactly at the end |
| ShellSyntax.LineAccept | sh.c:344-446 | wherever the tokens of a line of the grammar stand, before nothing or a closing parenthesis, they are read as its tree |
| ShellSyntax.LineFrom | sh.c:344-446 | whatever is read as a line has the tokens of a line of the grammar, and the tree the grammar gives it |
| ShellSyntax.AcceptsIff | sh.c:327-342 | a line is accepted if and only if its tokens are those of a line of the grammar |
| ShellSyntax.TreeOf | sh.c:327-446 | and then the tree is the one the grammar gives it, however the tokens are spaced: words in order, each redirection around its command with its mode and descriptor, pipes, lists and background commands |
| ShellSyntax.NothingLost | sh.c:327-446 | the tree of any accepted line has exactly the words of the line, and as many redirections, pipes, lists and background commands as there are signs for them |
| ShellSyntax.PlainTrip | sh.c:327-446 | any line of the grammar, written out without further parentheses and parsed, gives its tree |
| ShellSyntax.RoundTrip | sh.c:327-446 | any command tree of at most nine words per simple command, written with parentheses and parsed, is given back |
| Shell.Parser.NextToken | sh.c:265-308 | advances the cursor and returns the token of the grammar |
| Shell.Parser.PeekAt | sh.c:310-320 | skips white space and tells whether the next character is one of those |
| Shell.Parser.Redirections | sh.c:374-397 | reads the redirections the grammar has there, or panics exactly when it does |
| Shell.Parser.Arguments | sh.c:421-445 | reads the words and redirections of a simple command, or panics exactly when the grammar does |
| Shell.Parser.SimpleOrBlock | sh.c:415-446 | parses what parseexec accepts |
| Shell.Parser.Block | sh.c:399-413 | parses what parseblock accepts |
| Shell.Parser.Pipeline | sh.c:361-372 | parses what parsepipe accepts |
| Shell.Parser.Line | sh.c:344-359 | parses what parseline accepts, and ends on every input |
| Shell.LineWords | sh.c:265-446 | every word of whatever was parsed is a maximal run of word characters |
| Shell.Nulterminate | sh.c:449-493 | writes a NUL after every word and nowhere else |
| Shell.ReadsBack | sh.c:449-493 | then every argument and file name reads as exactly its token |
| Shell.ParseBuffer | sh.c:327-342 | parsecmd: panics exactly if the line is not one of the grammar, and else gives the tree of the grammar, with every word readable as a C string |
| Grep.BeginsIff | grep.c:85-96 | a pattern cuts the text if its first item takes a piece and the rest cuts what is left |
| Grep.Match | grep.c:72-82 | true exactly if the pattern matches somewhere, or at the start after a caret |
| Grep.MatchHere | grep.c:85-96 | true exactly if some way of cutting the start of the text fits the items of the pattern |
| Grep.MatchStar | grep.c:99-106 | true exactly if any number of the character and then the rest fit |
| Grep.PatternTrip | grep.c:85-96 | a pattern written for some items is read as these items |
| Grep.PlainSearch | grep.c:72-96 | a pattern of plain characters matches exactly the texts that contain it, and after a caret those that start with it |

## Left out

- `Journal` treats the spin lock of the log as making its sections atomic, and the test that log_write makes without it as one step; memory ordering and interrupts are not part of this model.
- `Journal`: when a list overruns a log area smaller than NBUF blocks, what install_trans then copies is not modelled; results about such areas depend on the contents of the disk only up to the header write.
- LogDevice.Log.Commit: for a list that fits the log area or that has left no buffer, which is every list in the areas that are crash safe (`LogDevice.RoomyInArea`); a commit that overruns a smaller area is a run of `Journal` only. Other processes may be reading other blocks throughout, but their reads neither start nor end during the commit, and none is of a listed block, for which commit would sleep.
- LogCopy.Bread: by a process that does not have to wait; sleeping for a buffer that another process holds is not modelled.
- LogCopy.DecodeHeader: for a header that lists at most LOGSIZE blocks, as on every disk the log has written; read_head does not test it.
- Bio.Cache.Brelse: a changed buffer has been written or pinned before, which is how the interface is to be used and not something brelse tests.
- LogDevice.Log.Release: a changed buffer has been passed to log_write since, which brelse does not test.
- LogDevice.Log.BeginOp: one turn of the loop; that a sleeping process is woken again, here and in end_op, is not modelled.
- Packing of free-map bits into bytes and of inodes into blocks; the free map is a sequence of booleans and inodes are records.
- Fs.FileSystem.constructor: a disk without files; the root directory and the files that mkfs writes are not modelled.
- Fs.FileSystem.Mounted: inodes are given whole, not read from their blocks.
- Fs.FileSystem.Balloc: bits are booleans.
- Fs.FileSystem.Bfree: bits are booleans.
- Fs.FileSystem.Iupdate: where in its block the inode is stored is not modelled.
- Fs.FileSystem.FileWrite: models the branch for files; the test for a writable file and other processes that write between two chunks are not modelled.
- Fs.FileSystem.Readi: the driver of a device inode is not called, only named.
- Links.LinkCounts: each system call is one step, with a parent directory that is still linked; two calls at once and link counts that overflow 16 bits are not modelled.
- Sysfile.Directories.DirLookup: entries are records, not read through readi.
- Sysfile.Directories.DirLink: entries are records, not written through writei.
- Sysfile.Directories.Link: that the parent is not found after the count was raised is not modelled.
- Path names: names are given with their parent directory; skipelem and namex are not modelled, nor the cache of inodes.
- ProcTable.ReapedOnce: pids are unbounded; the overflow of nextpid is not modelled.
- Sleep locks, and sleeping on channels other than those of wait and pipes beyond being woken.
- Pipe.Ring.Close: tells when the pipe's page is to be freed; the page itself is not modelled.
- Vm.Memory.CopyUvm: the contents of pages are not modelled, only which pages are mapped where and with what permissions; all pages below the size are there, else it panics.
- Vm.Memory.AllocUvm: the contents of pages are not modelled, so neither is clearing them.
- Vm.Memory.FreeRange: the ends of the range are whole pages.
- Vm.Memory.Kfree: the range test and the filling with junk are not modelled.
- Vm.Memory.SetupKvm: the kernel's ranges are a parameter, above KERNBASE and not overlapping; `Vm.KernelMapOk` is about the real ones. Rounding of addresses to pages and the test of PHYSTOP are not modelled.
- Umalloc.Heap.Malloc: a call that goes astray is not followed further, because the kernel and the heap then disagree about what memory there is.
- Shell.Parser.Arguments: a simple command is built when complete; the sharing of one record by its redirections is not modelled.
- Running commands, and the rest of the shell; grep's reading of lines.
- Console, keyboard and the editor, device drivers, boot code, system-call dispatch, exec and the small user programs.
