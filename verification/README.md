# xv6 and its key-value server, verified

A Dafny model of the stateful core of this repository: the xv6 kernel's disk log, buffer cache, file
system, virtual memory, process table and pipes, the user-level allocator, shell parser and pattern
matcher, and the cache and record store of the key-value server. Each part is written in the form of
its source. Code that works in place is a class or a loop, proved against a specification that does
not mention links, counters or buffers. Protocols are machines whose steps any number of processes
interleave. The theorems range over all inputs, all reachable states or all runs.

The main results:

- **The log is crash safe.** `WriteAheadLog` interleaves the operations of 64 processes with
  commits, crashes and recoveries that may crash again. In every state of every run from mount, on
  the image that `mkfs` makes and on every other log area that suffices, recovery from the disk as
  it stands gives every home block its committed contents; those change at one step only, the header
  write of a commit. `LogCode` proves the loops of `log.c` write exactly the blocks that argument
  needs, in that order, closes the argument for a crash after any number of them, and shows that
  what `begin_op`, `log_write`, `end_op`, commit and recovery do is a run of that machine. Commit and
  recovery complete whenever no buffer is locked and two can be recycled. `LogSpec` says what all
  this is for without the machine: readers see the last change of a block, a crash leaves the last
  change that was logged and committed, as the steps of the run alone tell it (`EveryRunTold`).
- **The size of the log area matters, exactly.** `log_write` looks at `lh.n` before it takes the
  lock, so the reservation of `begin_op` does not keep the list inside the area: for every area of 2
  to LOGSIZE blocks `LogCanOverflow` builds a run to a commit of one block too many. With fewer than
  LOGSIZE blocks, unless the area ends the disk or outnumbers the home blocks, that commit
  overwrites a home block before its header is written, and a crash loses committed contents
  (`SmallLogUnsafe`). With LOGSIZE blocks, as `mkfs` has it, the list pins all NBUF buffers and the
  commit panics in `bget` before its first write (`FullLogPanics`, `FullLogJams`), so nothing is
  lost. `CrashSafeExactly` puts the two halves together.
- **Files are byte strings.** `readi`, `writei`, `itrunc` and `filewrite` are reading, splicing,
  emptying and appending on a sequence of bytes. No block ever belongs to two slots and no other
  file changes. A write runs out of blocks exactly when fewer are free than it has slots to fill,
  and takes as many as it fills. Every block that a write, a link or `itrunc` changes is logged, and
  so is the inode when it changes. No transaction of `filewrite` logs more than MAXOPBLOCKS blocks;
  `itrunc` stays within them exactly on disks with few enough bitmap blocks (`TruncFitsExactly`).
- **Directories are finite maps**, through every run of links and unlinks, with exact conditions for
  every refusal and panic; paths split into exactly their components.
- **The heap is tiled.** Free blocks, live blocks and nothing else make up the memory obtained; the
  free list stays ordered with no two neighbours touching; malloc fails only when no block fits and
  no memory is left.
- **The least-frequently-used cache** of linked lists gives, for every run, the answers that the
  history of gets and puts tells: which keys are still in, counted by their uses since they came in,
  and the value last put. It evicts the least recently used of the keys used least.
- **Page frames are conserved.** Every frame is free or has one owner; building, growing, copying
  and tearing down an address space changes no other one. Each of them fails exactly when fewer
  frames are free than it takes, tables included: 65 for `setupkvm`. A failed `setupkvm` or
  `copyuvm` gives back every frame; a failed `allocuvm` loses none, but page tables made on the way
  stay with the directory.
- **Processes**: over every run no parent sleeps in wait past a zombie child, nobody sleeps there
  killed, parents are live, and every exit is reaped at most once, by the parent, with the status
  passed to `exit`. Each slot moves through its states by exactly the steps that should move it
  (`LifeCycle`).
- **Pipes**: over every run, kills included, bytes come out in order, counters wrap without harm and
  no reader and writer wait for each other. Each call of `pipewrite` stores a prefix of its bytes, and
  all of them unless it is killed or left without readers. No wakeup is lost exactly when killed
  processes write no more than the pipe holds (`ServedExactly`).
- **The shell** accepts exactly the lines of a grammar, redirections anywhere among the words, and
  builds the tree that the grammar gives them, however they are spaced (`AcceptsExactly`,
  `RenderParses`). Every token of every line survives the NULs written into the line. **grep** matches
  exactly what its pattern means.
- **The record store** answers like a map over every run of puts, deletes, gets and restarts.

Where the code falls short of what its names promise, the exact condition is proved: the log area
(`CrashSafeExactly`); the budget of `itrunc` (`TruncFitsExactly`); wakeups and killed writers
(`ServedExactly`); kills that hit an unused slot (`CleanExactly`); `malloc` of more than 2^32 - 8
bytes (`NeededExact`) and `sbrk` of 2^31 bytes or more (`SbrkExact`); values that contain a space or
a NUL come back cut (`ShownWhole`); keys that are not words do not survive a restart
(`Store.Restart`); deleting a key that is in the cache leaves the cache's count off by one
(`LFUCache.Del`, with its effect in `DelThenFull`).

`Options`, `Params`, `Substrings`, `Blocks`, `Bitmap` and `Files` are what other modules build on.
`LogSpec` and `ShellGrammar` are independent accounts of what the log and the parser are for. A
module whose name ends in `Code` holds the code for the specification module before it. `None` in a
result stands for a panic unless said otherwise. Ghost fields such as `owner`, `live`, `latest`,
`written` and `reaps` are history: they are what the code is proved against and do not exist in the
program.

## Model

| member | source | states |
|---|---|---|
| `Blocks.WordOfSetWord` | xv6-public/fs.c:389-394 | A 32-bit word stored in a block reads back, and no other word of the block changes. |
| `BufferCache.GetKeeps` | xv6-public/bio.c:61-93 | bget keeps the cache well formed and returns the one buffer for the block; what it recycles was unreferenced, clean and released before every other such buffer; it panics only when no buffer holds the block and none can be recycled. |
| `BufferCache.ShareKeeps` | xv6-public/bio.c:69-76 | One more reference to a cached block keeps every cache invariant. |
| `BufferCache.RecycleKeeps` | xv6-public/bio.c:81-91 | Relabelling an idle clean buffer keeps one buffer per block; nobody held it. |
| `BufferCache.PutKeeps` | xv6-public/bio.c:120-141 | brelse keeps the cache well formed, touches only the reference count of that buffer, and puts a buffer with no more references at the front of the ring. |
| `BufferCache.VictimOldest` | xv6-public/bio.c:81-91 | The backward scan finds the least recently released of all recyclable buffers. |
| `BufferCache.ToFrontRing` | xv6-public/bio.c:132-137 | Moving a buffer to the front permutes the ring: those before it shift by one, those after it stay. |
| `BufferCache.ToFrontOrdered` | xv6-public/bio.c:129-138 | The ring stays in order of last release. |
| `BufferCache.RingCovers` | xv6-public/bio.c:49-55 | Every buffer is on the ring, so the two scans of bget miss none. |
| `BufferCache.OwnerKeeps` | xv6-public/sleeplock.c:22-42 | Taking and giving up a sleep lock keeps the cache well formed as long as the owner holds a reference. |
| `BufferCache.TakeKeeps` | xv6-public/bio.c:96-101 | bget followed by the sleep lock shows no reader anything new, whether it finds no buffer, sleeps or locks; a buffer that is not recycled keeps its pin. |
| `BufferCache.RelabelKeeps` | xv6-public/buf.h:1-11 | Flags and data of a buffer play no part in the shape of the cache. |
| `BufferCache.PushLinks` | xv6-public/bio.c:50-54 | Linking a buffer in at the head of the doubly linked ring yields the ring with it in front. |
| `BufferCache.UnlinkLinks` | xv6-public/bio.c:132-133 | Unlinking a buffer yields the ring without it. |
| `BufferCache.UnlinkOther` | xv6-public/bio.c:132-137 | After the two writes that unlink a buffer of the whole ring its own links are still there and the ring with it in front is one push away. |
| `BufferCache.AgreesUpdate` | xv6-public/bio.c:96-106 | Replacing a buffer by one that shows the same contents leaves what readers see unchanged. |
| `BufferCache.AgreesFill` | xv6-public/memide.c:52-59 | An invalid buffer that is filled from disk shows what any reader of the block should see. |
| `BufferCache.AgreesWrite` | xv6-public/memide.c:52-56 | Writing a buffer through changes disk and view of that block together and of no other. |
| `BufferCache.Bcache.Binit` | xv6-public/bio.c:38-56 | The links built by the loop form a ring of all NBUF buffers in the order pushed; all are idle. |
| `BufferCache.Bcache.ScanForBlock` | xv6-public/bio.c:69-76 | Following next links finds the first buffer on the ring with the block, or shows there is none. |
| `BufferCache.Bcache.ScanForVictim` | xv6-public/bio.c:81-91 | Following prev links finds the last recyclable buffer on the ring, or shows there is none. |
| `BufferCache.Bcache.Bget` | xv6-public/bio.c:61-93 | The linked code is the abstract bget in every state, panic included. |
| `BufferCache.Bcache.AcquireSleep` | xv6-public/sleeplock.c:22-32 | One pass of acquiresleep: the caller becomes the owner exactly when nobody is, else sleeps with nothing changed; the cache stays well formed. |
| `BufferCache.Bcache.Iderw` | xv6-public/memide.c:38-60 | Dirty buffers go to disk, others are filled from it; it panics exactly on a buffer the caller has not locked, that has nothing to do, is on another disk or out of range. |
| `BufferCache.Bcache.MoveToFront` | xv6-public/bio.c:132-137 | Six pointer writes move the buffer to the front of the ring. |
| `BufferCache.Bcache.Brelse` | xv6-public/bio.c:120-141 | The linked code is the abstract release: reference, sleep lock, ring position and release time; it panics exactly on a buffer the caller has not locked, with nothing changed. |
| `BufferCache.Bcache.GetLocked` | xv6-public/bio.c:96-101 | For every block number: no buffer, or the one buffer for it, locked by the caller or with the caller asleep on it because it is locked; all other buffers are as they were and readers see the same. |
| `BufferCache.Bcache.Bread` | xv6-public/bio.c:95-106 | For every block number: a locked valid buffer with the contents the view gives it, or bget's panic, or asleep on a lock, or iderw's panic exactly behind the end of the disk; the disk is not written, no other buffer changes. |
| `BufferCache.Bcache.WriteThrough` | xv6-public/bio.c:108-116 | bwrite of new data, whatever the buffer held, moves disk, buffer and view of one block together and records one disk write; it panics exactly on a buffer the caller has not locked, of another disk or out of range. |
| `BufferCache.Bcache.Release` | xv6-public/bio.c:120-141 | Releasing a buffer, or failing to, shows nobody anything new. |
| `WriteAheadLog.HeadOfSetHead` | xv6-public/log.c:84-113 | read_head gives back the list write_head stored, for every list of at most LOGSIZE blocks. |
| `WriteAheadLog.ReplayAt` | xv6-public/log.c:68-82 | Replay gives a listed block the contents of its slot. |
| `WriteAheadLog.ReplayOff` | xv6-public/log.c:68-82 | Replay leaves unlisted blocks alone. |
| `WriteAheadLog.OpStepKeeps` | xv6-public/log.c:124-174 | begin_op, end_op and the unlocked check of log_write keep the machine's invariant. |
| `WriteAheadLog.GetStepKeeps` | xv6-public/bio.c:61-93 | So does bget, which may recycle any clean buffer but never the pinned one of a block still in the log. |
| `WriteAheadLog.LockStepKeeps` | xv6-public/bio.c:120-141 | So do sleep locks and brelse. |
| `WriteAheadLog.FillStepKeeps` | xv6-public/bio.c:101-104 | So does a disk read: it yields the latest contents, since unlogged ones are pinned. |
| `WriteAheadLog.ModifyStepKeeps` | xv6-public/log.c:204-213 | So does a change to a held buffer inside an operation, before it is logged. |
| `WriteAheadLog.AppendStepKeeps` | xv6-public/log.c:223-232 | So does the locked part of log_write, absorbed or appended, whatever the length of the list by then. What it does to the contents is in LogSpec.AppendEffect. |
| `WriteAheadLog.CopyStepKeeps` | xv6-public/log.c:176-190 | So does each copy of write_log into a slot of the log area. |
| `WriteAheadLog.HeadStepKeeps` | xv6-public/log.c:98-113 | So does the header write, which makes the latest contents the committed ones. |
| `WriteAheadLog.InstallEffect` | xv6-public/log.c:68-82 | One install gives the home block what its last log_write stored and changes no other block. |
| `WriteAheadLog.InstallStepKeeps` | xv6-public/log.c:68-82 | Installing one block keeps the invariant, in commit and in recovery. |
| `WriteAheadLog.ClearStepKeeps` | xv6-public/log.c:198-200 | Clearing the header after the last install keeps the invariant. |
| `WriteAheadLog.ReadHeadStepKeeps` | xv6-public/log.c:115-122 | Recovery's read of the header keeps the invariant. |
| `WriteAheadLog.CrashKeeps` | xv6-public/log.c:53-66 | A crash at any step, with memory and cache lost, leaves a state that recovery can start from. |
| `WriteAheadLog.BootOk` | xv6-public/mkfs.c:94-115 | A disk whose log header is empty is a good state to boot. |
| `WriteAheadLog.StepKeeps` | xv6-public/log.c:10-28 | Every step of every process keeps the invariant, if a log slot it writes lies in the log area. |
| `WriteAheadLog.FullLogPinsAll` | xv6-public/log.c:228-231 | A list of LOGSIZE blocks pins every buffer of the cache. |
| `WriteAheadLog.FullLogPanics` | xv6-public/bio.c:81-92 | bget of any log block then panics, so no step of write_log is possible and the commit writes nothing. |
| `WriteAheadLog.HomesOnly` | xv6-public/log.c:224-230 | The list is never longer than there are home blocks, since no block is listed twice. |
| `WriteAheadLog.SlotWriteFits` | xv6-public/log.c:176-190 | On a log area of LOGSIZE blocks, or at the end of the disk, or larger than the number of home blocks, every slot that write_log can write lies in the area. |
| `WriteAheadLog.RunKeeps` | xv6-public/log.c:10-28 | So does every run, crashes and recoveries included, on every log area that suffices, mkfs's own among them. |
| `WriteAheadLog.CrashSafe` | xv6-public/log.c:10-28 | In every reachable state recovery from the disk as it is gives each home block its committed contents. |
| `WriteAheadLog.CommitPoint` | xv6-public/log.c:98-113 | Committed contents change only at the header write, with no operation in progress, and become all log_writes made so far. |
| `WriteAheadLog.CopyingQuiet` | xv6-public/log.c:144-174 | While the log is copied no operation is in progress and every modification is logged. |
| `WriteAheadLog.WriteAheadReads` | xv6-public/log.c:204-213 | No home block on disk runs ahead of the header; whoever holds a block sees what the last log_write stored. |
| `WriteAheadLog.Reservation` | xv6-public/log.c:124-141 | While an operation is active the log and all promised space fit LOGSIZE, no block is listed twice, and no commit runs. |
| `WriteAheadLog.CommittedStays` | xv6-public/log.c:192-202 | Without a commit header no run changes committed contents. |
| `WriteAheadLog.RecoveryDecided` | xv6-public/log.c:115-122 | After any crashes, partial recoveries and uncommitted operations, a running machine's home blocks are what recovery from the first disk would give: a transaction is all there or not at all. |
| `WriteAheadLog.EveryRunIsCrashSafe` | xv6-public/log.c:10-28 | Every run from mount on such a log area ends in a state in which recovery gives each home block its committed contents. |
| `LogOverflow.LogCanOverflow` | xv6-public/log.c:218-232 | For every log area of 2 to LOGSIZE blocks there is a run from mount, every operation within its budget and every log_write past its check, to a commit of more blocks than the area has slots. |
| `LogOverflow.Race` | xv6-public/log.c:218-230 | Two log_writes pass the check on the last free slot and both append. |
| `LogOverflow.Overfill` | xv6-public/log.c:218-232 | From a log with one free slot, two log_writes and two end_ops reach a commit of one block too many. |
| `LogOverflow.FillLog` | xv6-public/log.c:218-232 | Runs that list any number of blocks up to the area's capacity exist. |
| `LogOverflow.Mount` | xv6-public/log.c:53-66 | initlog on an empty log reaches the running state with every block committed as on disk. |
| `LogOverflow.CopyPast` | xv6-public/log.c:176-190 | The last copy of that commit overwrites the block behind the area before any header is written; a crash then loses its committed contents. |
| `LogOverflow.SmallLogUnsafe` | xv6-public/log.c:214-233 | On every log area that does not suffice, some run from mount ends in a state that is not safe to crash. |
| `LogOverflow.CrashSafeExactly` | xv6-public/log.c:10-28 | Every run from mount is crash safe if and only if the log area has LOGSIZE blocks or more, ends the disk, or is larger than the number of home blocks. |
| `LogOverflow.FullLogJams` | xv6-public/mkfs.c:25 | With the LOGSIZE blocks of mkfs a run reaches a commit of LOGSIZE blocks in which bget of every log block panics. |
| `LogRuns.BreadRuns` | xv6-public/bio.c:95-106 | What bread does to the cache, as far as it gets, is a run of the machine: bget, the sleep lock, the disk read. |
| `LogRuns.ReleaseRuns` | xv6-public/bio.c:120-141 | So is what brelse does: the sleep lock given up, then the reference. |
| `LogRuns.TurnEnds` | xv6-public/log.c:68-82 | So is a turn of write_log or install_trans with both its brelses. |
| `LogRuns.HeadEnds` | xv6-public/log.c:98-113 | So is write_head, the commit point or the clearing of the log. |
| `LogRuns.ReachesSafe` | xv6-public/log.c:10-28 | Whatever such a run reaches from a good state, on a log area that suffices, is safe to crash. |
| `LogCode.CommitCrash` | xv6-public/log.c:192-202 | After any k of commit's disk writes recovery yields all old contents if the header write is not among them, else all new ones. |
| `LogCode.HeaderWritten` | xv6-public/log.c:176-202 | After write_log and write_head every slot holds its block, the header lists them, and no home block has changed. |
| `LogCode.SlotsWritten` | xv6-public/log.c:176-190 | A prefix of write_log fills just those slots. |
| `LogCode.HomesWritten` | xv6-public/log.c:68-82 | A prefix of install_trans fills just those homes. |
| `LogCode.ListedRecovers` | xv6-public/log.c:68-82 | What a header and its slots stand for, block by block. |
| `LogCode.InstallCrash` | xv6-public/log.c:68-82 | A crash in the middle of install_trans is harmless: recovery still gives the same. |
| `LogCode.ClearCrash` | xv6-public/log.c:198-200 | After the header is cleared the disk itself holds the new contents. |
| `LogCode.RecoverCrash` | xv6-public/log.c:115-122 | Recovery cut short anywhere still recovers to the same; run to its end it puts that on the disk and empties the log. |
| `LogCode.RepeatedCrashes` | xv6-public/log.c:115-122 | However often recovery crashes, the one that completes restores what the first disk stood for. |
| `LogCode.SecondTaken` | xv6-public/bio.c:96-101 | A bread made while another buffer is held fails only because its block is locked by whoever had it locked before, or no buffer holds it and none can be recycled; never when no buffer was locked and two could be recycled. |
| `LogCode.TurnCompletes` | xv6-public/log.c:176-190 | The same for a turn of write_log or install_trans after any number of completed turns. |
| `LogCode.Log.constructor` | xv6-public/log.c:53-66 | A log with nothing listed over the given area. |
| `LogCode.Log.BeginOp` | xv6-public/log.c:124-141 | Admits exactly when no commit runs and the worst case of all operations fits; from a state of the machine, what it does is the machine's step. |
| `LogCode.Log.EndOp` | xv6-public/log.c:146-163 | The last operation out, and only it, must commit; panics exactly on a running commit; else it takes the machine's step. |
| `LogCode.Log.LogWrite` | xv6-public/log.c:214-233 | The list gains the block unless it is there; the buffer is pinned and keeps its contents; refusals are exactly the two panics; else it takes the steps of the machine that make the buffer's contents the latest of the block. |
| `LogRuns.BeginRuns` | xv6-public/log.c:124-141 | One more outstanding operation is one step of the machine. |
| `LogRuns.EndRuns` | xv6-public/log.c:146-163 | One fewer is too, with the commit that the last one starts. |
| `LogRuns.LogWriteRuns` | xv6-public/log.c:214-233 | Both parts of log_write, the test without the lock and the rest under it, are a run of the machine. |
| `LogSpec.AppendEffect` | xv6-public/log.c:214-233 | Every log_write, absorbed or appended, makes the buffer's contents the latest of its block and leaves the buffer's contents, the disk and every other block as they were; the list holds the block once. |
| `LogSpec.AppendData` | xv6-public/log.c:201-233 | The contents it logs are those of the last change of the block. |
| `LogSpec.StepMatches` | xv6-public/log.c:10-28 | Every step of the machine does to the contents what its meaning says: a change waits, logging takes it over, a commit makes all that is logged last, a crash falls back to that. |
| `LogSpec.RunMatches` | xv6-public/log.c:10-28 | So does every run. |
| `LogSpec.EveryRunTold` | xv6-public/log.c:10-28 | In every run from mount, recovery gives every home block its committed contents as the steps alone tell them, and whoever holds a block reads its last change, or the last logged where none waits. |
| `LogSpec.LatestIsLastLogged` | xv6-public/log.c:10-28 | The latest contents of a block are those of the last change of it that was logged, for every sequence of changes, log writes and commits. |
| `LogCode.Log.CopyBlock` | xv6-public/log.c:182-189 | One disk write, of the source block's contents to the target, and clean buffers after, a step of the machine; it fails only when one of the two blocks is locked or has no buffer to be had, and never when no buffer is locked and two can be recycled. |
| `LogCode.Log.WriteLog` | xv6-public/log.c:176-190 | Its disk writes are the listed blocks, in order, into slots 0, 1, ..., all of them unless a block of the list is locked or has no buffer to be had; what it does is a run of the machine. |
| `LogCode.Log.WriteHead` | xv6-public/log.c:98-113 | One disk write: the header with the list, which is the machine's commit point or its clearing of the log; none only when the header block is locked or has no buffer to be had. |
| `LogCode.Log.InstallTrans` | xv6-public/log.c:68-82 | Its disk writes are the slots, in order, to their homes, all of them unless a block of the list is locked or has no buffer to be had; what it does is a run of the machine. |
| `LogCode.Log.Commit` | xv6-public/log.c:192-202 | Writes a prefix of slots, header, homes, empty header; whatever prefix, the disk stands for all old or all new contents. It writes all of it unless a block concerned is locked or has no buffer to be had, and always when no buffer is locked and two can be recycled. What it does is a run of the machine; completed, one from copying to running with the latest contents committed. |
| `LogCode.Log.ReadHead` | xv6-public/log.c:84-96 | The list in memory is the one in the header block, as in the machine; it fails only when the header block is locked or has no buffer to be had. |
| `LogCode.Log.RecoverFromLog` | xv6-public/log.c:115-122 | Whatever prefix of its writes is made, the disk recovers to the same; completed, it holds that and an empty log. It completes unless a block concerned is locked or has no buffer to be had; what it does is a run of the machine. |
| `Heap.InsertOrdered` | xv6-public/umalloc.c:24-44 | After free the list is in address order and no two free blocks touch. |
| `Heap.InsertUnits` | xv6-public/umalloc.c:24-44 | free adds exactly the units of the block. |
| `Heap.InsertFits` | xv6-public/umalloc.c:29-42 | Where the block lands, which neighbours it absorbs, and that the result fits between the rest. |
| `Heap.InsertApart` | xv6-public/umalloc.c:24-44 | Coalescing never reaches into a live block. |
| `Heap.TakeOrdered` | xv6-public/umalloc.c:75-84 | Cutting the tail off a block keeps the list ordered. |
| `Heap.TakeUnits` | xv6-public/umalloc.c:75-84 | malloc removes exactly the units it hands out, and they were free. |
| `Heap.FreeTiles` | xv6-public/umalloc.c:24-44 | Freeing a live block keeps free and live blocks a tiling of the arena. |
| `Heap.TakeTiles` | xv6-public/umalloc.c:75-84 | So does handing out a block, at an address no live block has. |
| `Heap.GrowTiles` | xv6-public/umalloc.c:46-61 | So does fresh memory from sbrk, wherever above it lies. |
| `Heap.SpliceLinks` | xv6-public/umalloc.c:33-42 | The pointer surgery of free on headers in memory yields the coalesced list. |
| `Heap.CutLinks` | xv6-public/umalloc.c:75-84 | The header surgery of malloc yields the cut list. |
| `Heap.FirstFitComplete` | xv6-public/umalloc.c:74-89 | A walk once around the circle that finds nothing has seen every block too small. |
| `Heap.InsertedFits` | xv6-public/umalloc.c:86-88 | After morecore the next walk succeeds, so the loop of malloc ends. |
| `Heap.NeededExact` | xv6-public/umalloc.c:69 | One unit for the header and as few more as hold the bytes asked for, exactly when the 32-bit sum does not wrap; otherwise a single header. |
| `Heap.SbrkExact` | xv6-public/umalloc.c:54 | The 32-bit signed number of bytes handed to sbrk is the one meant exactly when that is below 2^31; 2^28 units make it negative and 2^29 units 0. |
| `Heap.Allocator.constructor` | xv6-public/umalloc.c:21-22 | A heap before its first call. |
| `Heap.Allocator.FindPlace` | xv6-public/umalloc.c:30-32 | The walk from freep finds the free block after which the freed one belongs, from any rover position. |
| `Heap.Allocator.LinkNeighbours` | xv6-public/umalloc.c:33-42 | The four branches of the coalescing code on memory. |
| `Heap.Allocator.Free` | xv6-public/umalloc.c:24-44 | The heap stays tiled and ordered; the list is the old one with the block coalesced in; every other live block is untouched. |
| `Heap.Allocator.Sbrk` | xv6-public/umalloc.c:54-58 | Fresh memory becomes one live block above everything else. |
| `Heap.Allocator.OtherSbrk` | xv6-public/umalloc.c:54 | The heap stays tiled when other code moves the break, so that regions need not touch. |
| `Heap.Allocator.Morecore` | xv6-public/umalloc.c:46-61 | At least 4096 units join the free list and freep moves before them, or 0 exactly when sbrk refuses, with nothing changed. |
| `Heap.Allocator.Walk` | xv6-public/umalloc.c:74-89 | One trip around the circle finds the first block that fits, starting after freep, or none exists. |
| `Heap.Allocator.Cut` | xv6-public/umalloc.c:75-84 | The tail of the block found becomes live; freep moves before it. |
| `Heap.Allocator.Malloc` | xv6-public/umalloc.c:63-90 | Next fit from freep, else next fit of the grown list from where morecore put the new block; the block cut is the first that fits on that walk and becomes live apart from all others; 0 exactly when neither helps. The next walk starts at the block before it. |
| `Bitmap.BlockBits` | xv6-public/fs.c:65-68 | Setting or clearing one bit of a bitmap block changes that bit and no other. |
| `Files.MarkedAfter` | xv6-public/fs.c:56-95 | balloc's and bfree's bit writes change the mark of that block only. |
| `Files.EmptyOk` | xv6-public/mkfs.c:68-168 | A disk with its metadata marked and no inode blocks satisfies the invariant. |
| `Files.BlocksDistinct` | xv6-public/fs.c:362-371 | Two slots of any inodes never refer to the same block; a block referred to is an allocated data block. |
| `Files.AllocKeeps` | xv6-public/fs.c:56-78 | balloc returns a block no inode uses, zeroed, and changes no file. |
| `Files.LinkDirectKeeps` | xv6-public/fs.c:378-382 | Storing a fresh block in an inode slot keeps block ownership and every file. |
| `Files.LinkIndirectKeeps` | xv6-public/fs.c:389-394 | So does storing it in an indirect block. |
| `Files.ExtendsContent` | xv6-public/fs.c:372-400 | Allocation alone changes the contents of no file. |
| `Files.WriteDataKeeps` | xv6-public/fs.c:498-504 | Writing a data block of one inode changes only the bytes that block stands for. |
| `Files.ReleaseKeeps` | xv6-public/fs.c:407-435 | Freeing a block the inode owns: it was marked, so bfree does not panic, and the rest stays in order. |
| `Files.TruncateDone` | xv6-public/fs.c:407-435 | After itrunc the file is empty, exactly its blocks are free again, and every other file is as it was. |
| `Files.OtherFileKept` | xv6-public/fs.c:452-476 | A file none of whose blocks changed reads the same. |
| `Space.AllocTakes` | xv6-public/fs.c:56-78 | balloc takes one block out of the bitmap, the one it returns. |
| `Space.FillingOne` | xv6-public/fs.c:372-400 | balloc and the store into an empty slot fill that slot and take one block. |
| `Space.FillingExact` | xv6-public/fs.c:372-400 | Filling a set of slots succeeds exactly when as many blocks are free, and takes as many. |
| `Space.MissingSplit` | xv6-public/fs.c:498-504 | The slots that two writes in a row have to fill, blocks they share counted once, are those of the one write. |
| `Space.NothingMissing` | xv6-public/fs.c:481-511 | A write inside a file has none to fill. |
| `FileCode.FileSystem.ScanBitmap` | xv6-public/fs.c:63-74 | The scan stops at the first clear bit of its bitmap block. |
| `FileCode.FileSystem.Balloc` | xv6-public/fs.c:56-78 | The lowest free block, marked and zeroed, with its bitmap block and itself logged; panics exactly when all are marked. |
| `FileCode.FileSystem.Bfree` | xv6-public/fs.c:80-95 | Clears the mark of that block only; panics exactly when it is clear already. |
| `FileCode.FileSystem.BmapDirect` | xv6-public/fs.c:378-382 | The direct slot's block, allocated on demand, with at most one bitmap block logged; it fails exactly when the slot is empty and no block is free. |
| `FileCode.FileSystem.BmapIndirect` | xv6-public/fs.c:383-397 | The indirect entry's block, with at most two bitmap blocks logged; it fills exactly the empty slots among root and entry, or runs out of free blocks on the way. |
| `FileCode.FileSystem.Bmap` | xv6-public/fs.c:372-400 | The block of every file offset, allocated on demand; below MAXFILE it panics exactly when fewer blocks are free than slots are to be filled; repeated calls change nothing; all files keep their contents; an account of every block logged. |
| `FileCode.FileSystem.FreeSlot` | xv6-public/fs.c:414-431 | bfree of a slot in the middle of itrunc never panics. |
| `FileCode.FileSystem.Itrunc` | xv6-public/fs.c:407-435 | Frees every block of the inode once and no other; the file is empty; other files keep inode and contents; what it logs is the inode's block and the bitmap block of each block freed. Every block that changes is logged. |
| `TruncBudget.TruncWithin` | xv6-public/fs.c:407-435 | itrunc logs at most one block for each bitmap block that speaks of data blocks, and the inode's block. |
| `TruncBudget.BuiltLogs` | xv6-public/fs.c:407-435 | A file of k blocks, each marked in another of k bitmap blocks, makes itrunc log those k and the inode's block. |
| `TruncBudget.TruncFitsExactly` | xv6-public/fs.c:407-435 | itrunc of every file of every consistent file system logs at most MAXOPBLOCKS blocks if and only if fewer than MAXOPBLOCKS bitmap blocks speak of data blocks. |
| `FileCode.FileSystem.Readi` | xv6-public/fs.c:452-476 | The bytes of the file from off, cut at its end; -1 exactly for an offset past the end or a sum that wraps; nothing changes. |
| `FileCode.FileSystem.WriteChunk` | xv6-public/fs.c:498-504 | One turn of the loop writes its piece and accounts for the blocks it logs and takes; it fails exactly when the bitmap runs out. Every block that changes is logged. |
| `FileCode.FileSystem.WriteLoop` | xv6-public/fs.c:498-504 | All the bytes are written, other bytes and files are not, and each empty slot is filled once; it stops early exactly when the bitmap runs out. Every block that changes is logged. |
| `FileCode.FileSystem.Writei` | xv6-public/fs.c:481-511 | The bytes are spliced into the file at off, which may extend it; -1 exactly when off is past the end or the end past MAXFILE; else a panic exactly when fewer blocks are free than slots are missing, never inside the file; no other file changes; a chunk of filewrite logs at most MAXOPBLOCKS blocks. Every block that changes is logged, and so is the inode's block if its copy in memory changes. |
| `FileCode.FileSystem.WriteTransaction` | xv6-public/file.c:140-145 | begin_op, writei, end_op of one chunk log at most MAXOPBLOCKS blocks; the chunk is refused or runs out of blocks exactly when writei does. It logs all that it changes, the inode included. |
| `FileCode.FileSystem.Filewrite` | xv6-public/file.c:117-156 | A write of any length, cut into transactions within the budget, splices in exactly the bytes that are not refused: none past the end of the file, all that fit the largest file, else the whole chunks that fit it. The offset advances by as many. It panics exactly when fewer blocks are free than those bytes miss slots, and takes as many as they miss. What changes, the inode included, is logged by one of the transactions. |
| `FileCode.LoggedMore` | xv6-public/file.c:135-152 | If every transaction logs what it changes, all that the whole write changes is logged. |
| `FileCode.LoggedSize` | xv6-public/fs.c:506-509 | The update of the inode logs its block. |
| `Space.SameInode` | xv6-public/fs.c:506-509 | A write that ends inside the file and fills no slot leaves the inode as it was, so writei need not update it. |
| `FileCode.WriteBound` | xv6-public/file.c:127-133 | A chunk touches at most 4 data blocks, one indirect block, the inode's block and a bitmap block for each of at most 4 allocations: 10 in all. |
| `FileCode.BlockSpan` | xv6-public/file.c:133 | A chunk of at most 1536 bytes spans at most 4 blocks, 3 if it starts on a boundary. |
| `FileCode.TallyStep` | xv6-public/fs.c:498-504 | The account of logged blocks through one turn of the loop. |
| `FileCode.WroteContent` | xv6-public/fs.c:506-509 | With the size set, the file is the old one with the bytes spliced in. |
| `FileCode.SplicedTwice` | xv6-public/file.c:135-152 | Writing two consecutive pieces is writing the whole. |
| `FileCode.RoomStep` | xv6-public/file.c:133-146 | The next chunk of filewrite is refused exactly when the bytes that can be written are written, and never passes them. |
| `FileCode.OthersKept` | xv6-public/fs.c:481-511 | A write to one inode leaves the contents of the others. |
| `FileCode.BlockSlice` | xv6-public/fs.c:469-474 | Within one block, the file is a slice of that block. |
| `Directory.FieldOfPadded` | xv6-public/string.c:68-79 | A padded name field reads back as the name cut to DIRSIZ bytes. |
| `Directory.Namecmp` | xv6-public/fs.c:516-520 | Equal exactly when the names agree on the bytes that count, shorter fields included. |
| `Directory.Strncpy` | xv6-public/string.c:68-79 | The field is the name cut or padded with NULs. |
| `Directory.DirMapHas` | xv6-public/fs.c:524-548 | The map of a directory holds exactly its live entries. |
| `Directory.FirstMatchIsMap` | xv6-public/fs.c:524-548 | The first matching entry is what the map holds, for every name. |
| `Directory.EntryReads` | xv6-public/fs.c:572-575 | An entry's bytes read back as its name and the low 16 bits of its inode number. |
| `Directory.EntryWritten` | xv6-public/fs.c:481-511 | Writing one entry changes no other entry. |
| `Directory.LinkedMap` | xv6-public/fs.c:551-578 | dirlink is map insertion; a number whose low 16 bits are 0 leaves the map as it was. |
| `Directory.ClearedMap` | xv6-public/sysfile.c:207-220 | Clearing an entry is map removal. |
| `Directory.DoRefines` | xv6-public/fs.c:551-578 | Link and unlink keep names distinct and do to the map what they should. |
| `Directory.EveryDirRun` | xv6-public/fs.c:524-578 | Through every run of links and unlinks the bytes stand for the map of the run, with distinct names. |
| `Directory.ReadEntry` | xv6-public/fs.c:533-537 | readi of one entry gives its number and name. |
| `Directory.Dirlookup` | xv6-public/fs.c:524-548 | The first live entry with the name and its offset, or none, or a panic exactly when it gets to an entry cut short; nothing changes. |
| `Directory.LookupAgrees` | xv6-public/fs.c:524-548 | In a directory of whole entries lookup does not panic and agrees with the map for every name. |
| `Directory.Dirlink` | xv6-public/fs.c:551-578 | -1 exactly when the name is there; a panic exactly when it is not and an entry is cut short, the directory is as large as a file can be, or fewer blocks are free than the entry needs; else the map gains it in the first free entry; no other file changes. All that changes is logged. |
| `Directory.FindFree` | xv6-public/fs.c:564-570 | The scan stops at the first free entry or the end. |
| `Directory.ClearEntry` | xv6-public/sysfile.c:203-220 | The entry found is zeroed; -1 exactly for dot names, names not there and directories that are not empty, with nothing changed; a panic exactly where the checks panic, since the write never fails; no other file changes. All that changes is logged. |
| `Directory.DotName` | xv6-public/sysfile.c:204 | True exactly for the two dot names. |
| `Directory.Isdirempty` | xv6-public/sysfile.c:168-181 | True exactly when no entry from the third on is live; panics exactly when none is and the last is cut short; nothing changes. |
| `Directory.UnlinkCheck` | xv6-public/sysfile.c:203-216 | Refuses exactly dot names, names not there and directories that are not empty; panics exactly where an entry is cut short or a number is no inode's; else gives the offset of the first entry with the name; nothing changes. |
| `Directory.ClearedIsUnlink` | xv6-public/sysfile.c:218-220 | What unlink writes when it does not refuse is the unlink of the directory runs. |
| `Directory.FirstComponent` | xv6-public/fs.c:581-594 | A path starts with its first component, cut to DIRSIZ. |
| `Directory.Skipelem` | xv6-public/fs.c:596-618 | Returns the next component and the rest, or nothing exactly when only slashes are left. |
| `Directory.AllElements` | xv6-public/fs.c:625-657 | Calling skipelem until it returns nothing yields exactly the non-empty components in order. |
| `Lfu.PushedChain` | KVS/greeter_async_server.cc:102-109 | addtoFront on a linked list yields the list with the node in front. |
| `Lfu.DroppedChain` | KVS/greeter_async_server.cc:111-117 | removeNode yields the list without the node. |
| `Lfu.LeastExists` | KVS/greeter_async_server.cc:171-176 | A cache that is not empty has a key to evict. |
| `Lfu.LeastUnique` | KVS/greeter_async_server.cc:171-176 | Only one: least count, then least recently touched. |
| `Lfu.ReadSound` | KVS/greeter_async_server.cc:151-159 | get keeps the cache within capacity and its times distinct. |
| `Lfu.WriteSound` | KVS/greeter_async_server.cc:161-189 | So does put, evictions included. |
| `Lfu.ReadAfterWrite` | KVS/greeter_async_server.cc:151-189 | What was put is what the next get returns, unless the capacity is 0. |
| `Lfu.OldestIsLeast` | KVS/greeter_async_server.cc:172-174 | The last node of the list for minFreq is the key to evict. |
| `Lfu.MinAfterTouch` | KVS/greeter_async_server.cc:134-149 | minFreq stays the least count in use when a key moves up. |
| `Lfu.MinAfterFresh` | KVS/greeter_async_server.cc:179-187 | It is 1 after an insertion. |
| `Lfu.WithoutFiled` | KVS/greeter_async_server.cc:135-136 | Taking a key out of its list leaves all lists sorted by time and filed by count. |
| `Lfu.WithFiled` | KVS/greeter_async_server.cc:146-148 | Adding it in front of another keeps them so. |
| `Lfu.CutLinked` | KVS/greeter_async_server.cc:135-136 | Both maps and every list stay consistent when a node is unlinked, and no list shares a node. |
| `Lfu.PushLinked` | KVS/greeter_async_server.cc:145-148 | So they do when it is linked in again. |
| `Lfu.LFUCache.constructor` | KVS/greeter_async_server.cc:129-133 | An empty cache, whatever the capacity. |
| `Lfu.LFUCache.AddToFront` | KVS/greeter_async_server.cc:102-109 | The five pointer writes on memory. |
| `Lfu.LFUCache.RemoveNode` | KVS/greeter_async_server.cc:111-117 | The two pointer writes on memory. |
| `Lfu.LFUCache.UpdateFlMap` | KVS/greeter_async_server.cc:134-149 | The key's count goes up by one and it becomes the most recent; every other key keeps value, count and time. |
| `Lfu.LFUCache.Get` | KVS/greeter_async_server.cc:151-159 | The answer and the new state of the abstract cache, whose counts and times are the uses of the history (HistoryTold). |
| `Lfu.LFUCache.Evict` | KVS/greeter_async_server.cc:171-176 | The key removed is the least recently touched of least count. |
| `Lfu.LFUCache.Insert` | KVS/greeter_async_server.cc:177-187 | A new key with count 1; all others as they were. |
| `Lfu.LFUCache.Put` | KVS/greeter_async_server.cc:161-189 | The new state of the abstract cache, in all four branches. |
| `Lfu.LFUCache.Del` | KVS/greeter_async_server.cc:191-198 | The key leaves map and lists, but currentSize, minFreq and the lists by count stay: the count is one too high, and the cache invariant survives exactly when the key was not there. |
| `Lfu.DelThenFull` | KVS/greeter_async_server.cc:161-198 | At capacity 1, after put and del of a key, the cache is empty but counts itself full, and the node that the next put would evict is the dummy head of an empty list. |
| `Lfu.HitIsLastPut` | KVS/greeter_async_server.cc:151-189 | In every run a key still in the cache has the value of its last put. |
| `Lfu.Run` | KVS/greeter_async_server.cc:122-189 | Every run of gets and puts on the linked cache gives the answers that its history tells: for a key kept, the value last put; a key is kept until it is the least recently used of those used least since they came in, when another needs room. |
| `Lfu.HistoryTold` | KVS/greeter_async_server.cc:122-189 | For every run, the keys in the cache, the number of gets and puts of each since it came in, the time of its last use, and every answer are those of the history. |
| `Lfu.ToldStep` | KVS/greeter_async_server.cc:151-189 | One more operation keeps the cache and the history in step. |
| `Lfu.ToldLeast` | KVS/greeter_async_server.cc:171-176 | The key to evict is the least recently used of those used least in the history. |
| `Paging.TakeKeeps` | xv6-public/kalloc.c:82-95 | kalloc keeps every frame free or owned once, and every translation. |
| `Paging.GiveKeeps` | xv6-public/kalloc.c:59-77 | So does kfree of a frame in the kernel's hands, which no table refers to. |
| `Paging.NewDirKeeps` | xv6-public/vm.c:124-126 | A zeroed directory maps nothing and changes no other. |
| `Paging.NewTableKeeps` | xv6-public/vm.c:44-53 | A new table changes no translation of any directory. |
| `Paging.WrittenEntry` | xv6-public/vm.c:71-73 | Writing one entry changes that translation and no other. |
| `Paging.MapUserKeeps` | xv6-public/vm.c:71-73 | Mapping a frame in hand gives it to that page of that directory alone. |
| `Paging.MapKernelKeeps` | xv6-public/vm.c:129-134 | Kernel pages own no frame. |
| `Paging.UnmapKeeps` | xv6-public/vm.c:269-276 | The frame behind a user page was owned by that page; freed, it is in no table. |
| `Paging.RestoredFree` | xv6-public/vm.c:284-298 | A restored state has the same set of free frames. |
| `Paging.OthersTranslate` | xv6-public/vm.c:222-345 | Whatever is done to one directory, every other translates as before to pages with the same contents. |
| `VmCode.Memory.constructor` | xv6-public/kalloc.c:20-37 | No frame is free before kinit. |
| `VmCode.Memory.Freerange` | xv6-public/kalloc.c:46-53 | Exactly the whole pages of the range become free. |
| `VmCode.Memory.Kalloc` | xv6-public/kalloc.c:82-95 | The frame at the head of the linked list, or none exactly when the list is empty; the rest stays linked. |
| `VmCode.Memory.Kfree` | xv6-public/kalloc.c:59-77 | The frame, its contents given up to the link, is at the head of the linked list; panics exactly outside the range; a frame not free before leaves the list well linked. |
| `VmCode.ChainPush` | xv6-public/kalloc.c:72-74 | The two link writes of kfree put a frame that is not free in front of the chain of free frames. |
| `VmCode.ChainPop` | xv6-public/kalloc.c:89-91 | The head of a non-empty chain is its first frame, and its link the head of the rest. |
| `VmCode.Memory.Walkpgdir` | xv6-public/vm.c:35-55 | The table for the page, made on demand; no translation changes; none only without alloc or memory. |
| `VmCode.Memory.MapOne` | xv6-public/vm.c:69-73 | One page is mapped; panics exactly on a page mapped already; -1 only when its table is missing and no frame is free, and leaves the state as it was. |
| `VmCode.Memory.Mappages` | xv6-public/vm.c:60-80 | For every range, page by page it is mapped to consecutive frames, which the user pages now own, and exactly the missing tables are made; a panic falls on the first page mapped already; -1 only when fewer frames are free than tables are missing, saying how far it got. |
| `VmCode.Memory.UnmapOne` | xv6-public/vm.c:269-276 | The page is gone and its frame free. |
| `VmCode.Memory.Deallocuvm` | xv6-public/vm.c:255-279 | Exactly the user pages of the range are gone, their frames free, other directories as before. |
| `VmCode.Memory.FreeTables` | xv6-public/vm.c:291-296 | Every table of the directory is freed once. |
| `VmCode.Memory.Freevm` | xv6-public/vm.c:283-298 | Everything of the directory is free and all the rest is as it was; no frame is lost or gained. |
| `VmCode.Memory.Setupkvm` | xv6-public/vm.c:118-136 | A directory with exactly the kernel's translations and 64 tables, or every frame given back; the second exactly when fewer than 65 frames are free. |
| `VmCode.Memory.MapKernel` | xv6-public/vm.c:129-134 | Each row of kmap maps without meeting a page of an earlier row; it fails only when no frame is free and one of the row's tables is missing. |
| `VmCode.AllDirect` | xv6-public/vm.c:103-115 | The four rows are the kernel's translation of every page. |
| `VmCode.RowFree` | xv6-public/vm.c:103-115 | The rows of kmap do not overlap. |
| `VmCode.Memory.AddPage` | xv6-public/vm.c:233-246 | A filled page at that address, or the frame still in hand; -1 exactly when fewer frames are free than the page and its table cost. |
| `VmCode.Memory.Allocuvm` | xv6-public/vm.c:221-249 | The new pages are there and zero, or on failure the range is unmapped and no frame is lost, tables made on the way staying with the directory. It fails exactly when fewer frames are free than the pages and missing tables up to the first page mapped already, and panics exactly when it gets to such a page. Every byte of the new pages is 0. |
| `VmCode.AllocFailRestores` | xv6-public/vm.c:235-246 | With nothing mapped above the old size, a failed allocuvm leaves every translation as it was. |
| `VmCode.Memory.TakeBack` | xv6-public/vm.c:235-245 | The way out of a failure frees the pages mapped so far and the one in hand. |
| `VmCode.Memory.Copyuvm` | xv6-public/vm.c:315-345 | The child has the kernel's translations and its own copy of each page with the same flags and contents. It fails, restoring all frames, exactly when fewer frames are free than 65, the pages up to the first one missing in the parent and their tables; it panics exactly when it gets to a missing page. |
| `FrameCount.PaidTrans` | xv6-public/vm.c:69-79 | The frames two ranges in a row take, tables they share counted once, are those of the one range. |
| `FrameCount.FallsShort` | xv6-public/vm.c:233-246 | After any number of pages, one more costs more than is free exactly when the whole range up to it did from the start. |
| `FrameCount.TablesShort` | xv6-public/vm.c:66-70 | A range that stops for want of a table had fewer frames than tables missing. |
| `VmCode.AllTables` | xv6-public/vm.c:103-136 | Wherever the kernel's data begins, the four rows of kmap go through 64 directory entries. |
| `VmCode.ChildNeeds` | xv6-public/vm.c:315-345 | A child of n pages takes 65 frames, the pages and a table for every 1024 of them begun. |
| `VmCode.CopyDone` | xv6-public/vm.c:315-345 | Page by page the child is a copy of the parent. |
| `VmCode.NoTableNoPages` | xv6-public/vm.c:266-268 | Skipping a directory entry without a table skips no mapped page. |
| `VmCode.NothingLeft` | xv6-public/vm.c:283-298 | With nothing in hand the directory has left no trace. |
| `Proc.QuietKeeps` | xv6-public/proc.c:408-520 | yield, sleep, the scheduler, wakeup and kill keep the table's invariant. |
| `Proc.ForkKeeps` | xv6-public/proc.c:192-235 | So does fork, with its two writes outside the lock and its failures. |
| `Proc.ExitStartKeeps` | xv6-public/proc.c:240-263 | So does the part of exit before the lock. |
| `Proc.ExitPairs` | xv6-public/proc.c:265-284 | exit wakes its parent before it is a zombie, and init before it adopts one. |
| `Proc.AfterExitAt` | xv6-public/proc.c:265-284 | What exit does to each slot. |
| `Proc.ExitFinishKeeps` | xv6-public/proc.c:265-285 | exit from the lock on keeps the invariant. |
| `Proc.ReapKeeps` | xv6-public/proc.c:296-320 | Reaping a zombie keeps it. |
| `Proc.WaitSleepKeeps` | xv6-public/proc.c:323-332 | So does going to sleep in wait: no zombie was there. |
| `Proc.StepKeeps` | xv6-public/proc.c:76-520 | Every step keeps the invariant. |
| `Proc.RunKeeps` | xv6-public/proc.c:76-520 | It holds in every state of every run. |
| `Proc.NoLostExit` | xv6-public/proc.c:265-332 | No process sleeps in wait while it has a zombie child. |
| `Proc.ParentsLive` | xv6-public/proc.c:270-279 | A parent is never a zombie or an unused slot: exit hands its children to init. |
| `Proc.ReapedOnce` | xv6-public/proc.c:289-333 | wait returns each exited child at most once, with the status on record for it. |
| `Proc.ReapTold` | xv6-public/proc.c:240-333 | Over every run, by its steps: what wait returns is the pid and status of a child of the caller that called exit with that status before, and its slot is then free. |
| `Proc.ExitedBy` | xv6-public/proc.c:240-263 | Every status on record was passed to exit by that process. |
| `Proc.LifeCycle` | xv6-public/proc.c:76-520 | Every step moves every slot as the life of a process has it: a sleeper wakes by a wakeup on its channel, a kill that finds it, or the exit its wait is for, and by nothing else; a zombie leaves by its parent's wait alone; who falls asleep does so on the channel its waker uses. |
| `Proc.KilledDoNotWait` | xv6-public/proc.c:323-332 | In every state of every run nobody sleeps in wait with the killed flag up. |
| `Proc.KillReaches` | xv6-public/proc.c:501-520 | kill finds every process that exists by its pid and no stale copy of it; the process is then marked and awake, and no other slot changes. |
| `Proc.ReapedGone` | xv6-public/proc.c:296-320 | In every state of every run no slot carries the pid of a process that wait has returned, so killing it fails. |
| `Proc.ForkGivesUp` | xv6-public/proc.c:76-100 | fork changes nothing exactly when no slot is free. |
| `Proc.CleanStep` | xv6-public/proc.c:501-520 | A step leaves an unused slot with the killed flag up exactly when it is a kill that finds its pid in an unused slot first, or a fork that fails after its child was killed. |
| `Proc.CleanExactly` | xv6-public/proc.c:76-520 | Through a run no slot is left with the flag up if and only if no step is such a one. |
| `Proc.BornKilled` | xv6-public/proc.c:76-100 | The flag stays until a fork takes the slot, whose child is then born killed. |
| `Proc.KillZero` | xv6-public/proc.c:501-520 | A run in which the only kill is of pid 0 and the first child is born killed. |
| `ProcCode.AdoptNext` | xv6-public/proc.c:270-279 | exit's pass over one more slot is one more step of the specification. |
| `ProcCode.Ptable.Wakeup1` | xv6-public/proc.c:480-488 | Every sleeper on the channel, and no one else, becomes runnable. |
| `ProcCode.Ptable.Allocproc` | xv6-public/proc.c:76-100 | The first unused slot gets the next pid; none exactly when the table is full. |
| `ProcCode.Ptable.ExitLocked` | xv6-public/proc.c:265-285 | The loops of exit take the abstract step. |
| `ProcCode.Ptable.WaitPass` | xv6-public/proc.c:296-332 | One pass of wait returns the first zombie's pid and status, -1 exactly without children or when killed, else sleeps. |
| `ProcCode.Ptable.KillPid` | xv6-public/proc.c:501-520 | Marks and wakes the first process with the pid; -1 exactly when there is none. |
| `Shell.ParseLineWords` | xv6-public/sh.c:345-446 | For every line, every token of the parse is a maximal word. |
| `Shell.EndsOutside` | xv6-public/sh.c:266-308 | No end of a token lies inside a token. |
| `Shell.EveryTokenReads` | xv6-public/sh.c:450-493 | Once NULs are written at token ends, every token of every line that parses reads back as it stood. |
| `Shell.TreeOfCmdOf` | xv6-public/sh.c:266-308 | The tokens of a printed command are its words. |
| `Shell.LineOf` | xv6-public/sh.c:345-359 | A printed command parses back wherever it stands in a line. |
| `Shell.ParsePrint` | xv6-public/sh.c:328-342 | Every command that can be written parses back to itself. |
| `Shell.OneRedir` | xv6-public/sh.c:375-397 | A redirection parses to its file and direction. |
| `Shell.ArgsOf` | xv6-public/sh.c:416-446 | The words of a printed command parse to its arguments. |
| `Shell.BlockParses` | xv6-public/sh.c:400-413 | A block parses to its line with its redirections around it. |
| `Shell.PipeParses` | xv6-public/sh.c:362-372 | A pipe parses to its two sides. |
| `Shell.ListParses` | xv6-public/sh.c:345-359 | A list parses to its two sides. |
| `Shell.BackParses` | xv6-public/sh.c:345-353 | An ampersand puts the pipeline before it in the background. |
| `ShellCode.Gettoken` | xv6-public/sh.c:266-308 | The lexer's loops and cases give the specified token. |
| `ShellCode.PeekAt` | xv6-public/sh.c:311-320 | Peek looks at the next character that is not white space and loses no token. |
| `ShellCode.Parseredirs` | xv6-public/sh.c:375-397 | The loop gives the redirections in order, or panics where one has no file. |
| `ShellCode.Parseexec` | xv6-public/sh.c:416-446 | Words and redirections, a block, or a panic past MAXARGS. What the result means is in ShellGrammar.AcceptsExactly. |
| `ShellCode.Parseblock` | xv6-public/sh.c:400-413 | A parenthesised line and its redirections; panics without an opening or a closing parenthesis. |
| `ShellCode.Parsepipe` | xv6-public/sh.c:362-372 | The pipeline's tree, grouped to the right. |
| `ShellCode.Parseline` | xv6-public/sh.c:345-359 | The line's tree with its ampersands and semicolons. |
| `ShellCode.Nulterminate` | xv6-public/sh.c:450-493 | A NUL at the end of every token and nowhere else, in place. |
| `ShellCode.Parsecmd` | xv6-public/sh.c:328-342 | The command of the line, or a panic; every token then reads from the buffer as it stood in the line. |
| `ShellGrammar.PeekLex` | xv6-public/sh.c:311-320 | Looking at the next character is looking at the next token. |
| `ShellGrammar.LexRender` | xv6-public/sh.c:266-308 | Tokens written with any white space that keeps them apart are read back as these tokens. |
| `ShellGrammar.RedirsOf` | xv6-public/sh.c:375-397 | A row of redirections is read to its files and directions, in order. |
| `ShellGrammar.ArgsOf` | xv6-public/sh.c:416-446 | Words and redirections in any order are collected in order, up to MAXARGS words. |
| `ShellGrammar.ArgsBack` | xv6-public/sh.c:416-446 | Whatever the loop of parseexec accepts is such a row. |
| `ShellGrammar.LineOf` | xv6-public/sh.c:345-359 | Whatever is written as the grammar of commands, blocks, pipelines and lists has it parses to its meaning. |
| `ShellGrammar.LineBack` | xv6-public/sh.c:345-359 | Whatever the parser accepts is so written and means what the parser made of it. |
| `ShellGrammar.AcceptsExactly` | xv6-public/sh.c:328-342 | A line parses, to a given tree, if and only if its tokens are those of a line of the grammar with this meaning. |
| `ShellGrammar.RenderParses` | xv6-public/sh.c:328-446 | Every line of the grammar, without parentheses where none are needed, redirections before, between and behind the words, and any spacing, parses to its meaning. |
| `PipeRing.Counters` | xv6-public/pipe.c:85-93 | The wrapped 32-bit counters tell a full pipe from an empty one. |
| `PipeRing.StoreOk` | xv6-public/pipe.c:93 | A byte stored in a pipe with room overwrites none that is still to be read. |
| `PipeRing.FetchOk` | xv6-public/pipe.c:113-117 | A byte fetched is the next one written. |
| `PipeRing.StoreAllOk` | xv6-public/pipe.c:84-94 | The write loop stores as many bytes as there is room for. |
| `PipeRing.FetchAllOk` | xv6-public/pipe.c:113-117 | The read loop takes as many as there are. |
| `PipeRing.RunWriteKeeps` | xv6-public/pipe.c:79-98 | A turn of a writer, killed or not, keeps the invariant, whether it ends, fails or sleeps. What it stores and has left is in CallBytes. |
| `PipeRing.RunReadKeeps` | xv6-public/pipe.c:101-121 | So does a turn of a reader, killed or not. |
| `PipeRing.OtherKeeps` | xv6-public/pipe.c:60-75 | So do closing either end, starting a call and the kill of a process. |
| `PipeRing.StepKeeps` | xv6-public/pipe.c:60-121 | Every step keeps it. |
| `PipeRing.RunKeeps` | xv6-public/pipe.c:60-121 | It holds in every state of every run. |
| `PipeRing.FirstInFirstOut` | xv6-public/pipe.c:79-121 | In every state of every run bytes come out in the order written, and what is in between is in the ring. |
| `PipeRing.CallBytes` | xv6-public/pipe.c:79-98 | In every state of every run a call of pipewrite in progress has stored the first bytes it was given and has just the others left, over however many sleeps; one that is over has stored the first of them. |
| `PipeRing.WriteReturns` | xv6-public/pipe.c:79-98 | pipewrite returns exactly when all its bytes are stored, no reader is left or it is killed, and falls short only on a full pipe; else it sleeps. |
| `PipeRing.ReadReturns` | xv6-public/pipe.c:101-121 | piperead returns the next bytes, as many as asked for or as there are; it waits exactly on an empty pipe with writers, unless killed. |
| `PipeRing.OpenUntilClosed` | xv6-public/pipe.c:60-75 | In every state of every run an end is open exactly until it is closed. |
| `PipeRing.EverythingSent` | xv6-public/pipe.c:79-98 | While readers stay and the writer is not killed, what it put into the pipe and what it has left is everything it sent, once and in order. |
| `PipeRing.OneWriter` | xv6-public/pipe.c:79-121 | With one writer the pipe carries the bytes of its calls one after the other, and readers have got the first of them. |
| `PipeRing.NoLostWakeup` | xv6-public/pipe.c:79-121 | No reader sleeps on a pipe with bytes or without writers, in every run whose killed processes write at most PIPESIZE bytes in a call. |
| `PipeRing.LongWriteLoses` | xv6-public/pipe.c:85-89 | For every longer write there is a run in which its writer is killed, fills the pipe and returns -1, and the reader sleeps on a full pipe. |
| `PipeRing.ServedExactly` | xv6-public/pipe.c:79-121 | No run loses a wakeup if and only if killed processes write at most PIPESIZE bytes in a call. |
| `PipeRing.CalmStep` | xv6-public/pipe.c:85-95 | A killed writer with at most PIPESIZE bytes left returns without a wakeup only when no reader was asleep. |
| `PipeRing.NoIdleWriter` | xv6-public/pipe.c:79-121 | In every state of every run, kills included, no writer sleeps on a pipe with room or without readers, and no reader on one without writers. |
| `PipeRing.NoDeadlock` | xv6-public/pipe.c:85-112 | In every state of every run, kills included, a reader and a writer never both sleep. |
| `PipeCode.PipeObject.constructor` | xv6-public/pipe.c:23-57 | An empty pipe, open at both ends. |
| `PipeCode.PipeObject.WriteTurn` | xv6-public/pipe.c:83-97 | The loop stores a prefix of the bytes and stops early only when full; -1 exactly then without readers or when killed. |
| `PipeCode.PipeObject.StoreByte` | xv6-public/pipe.c:93 | One byte goes into the array at the wrapped counter and joins the history written. |
| `PipeCode.PipeObject.FetchByte` | xv6-public/pipe.c:116 | One byte comes out, the next one of the history. |
| `PipeCode.PipeObject.ReadTurn` | xv6-public/pipe.c:105-120 | On an empty pipe with writers it sleeps, or returns -1 exactly when killed; otherwise it takes the next bytes and stops early only when empty. |
| `PipeCode.PipeObject.CopyOut` | xv6-public/pipe.c:113-117 | The copy loop takes the next bytes and stops early only when empty. |
| `RecordStore.DecimalReads` | KVS/greeter_async_server.cc:338-346 | A number printed in decimal reads back. |
| `RecordStore.ContextReads` | KVS/greeter_async_server.cc:366-372 | The context file reads back as the entries written, for keys that are words. |
| `RecordStore.NumbersRead` | KVS/greeter_async_server.cc:376-383 | The counters file reads back as the numbers written. |
| `RecordStore.LoadedKeys` | KVS/greeter_async_server.cc:366-372 | Only words ever come back as keys, so any other key is lost. |
| `RecordStore.SpacedKeyLost` | KVS/greeter_async_server.cc:338-372 | The context file of the one key "a b" reads back empty. |
| `RecordStore.FieldReads` | KVS/greeter_async_server.cc:433-464 | Whatever lies behind the buffer in memory, a get shows the value up to its first space or NUL. |
| `RecordStore.ShownWhole` | KVS/greeter_async_server.cc:320-323 | It shows the whole value exactly when that has no space and no NUL. |
| `RecordStore.SpacedValueCut` | KVS/greeter_async_server.cc:320-323 | The value "a b" is shown as "a". |
| `RecordStore.ContextOf` | KVS/greeter_async_server.cc:338-341 | The loop writes one line for each key of the map. |
| `RecordStore.LoadMap` | KVS/greeter_async_server.cc:366-372 | The loop builds the map of the pairs read. |
| `RecordStore.Store.constructor` | KVS/greeter_async_server.cc:303-311 | An empty store. |
| `RecordStore.Store.Putkey` | KVS/greeter_async_server.cc:392-430 | The map of contents gains the key; every other key still reads as before. |
| `RecordStore.Store.Getkey` | KVS/greeter_async_server.cc:433-464 | The value in the contents as far as it is shown, "-1" exactly for a key that is not there. |
| `RecordStore.Store.Deletekey` | KVS/greeter_async_server.cc:468-480 | The key leaves the contents; 1 exactly when it was there. |
| `RecordStore.Store.Contexttofile` | KVS/greeter_async_server.cc:328-350 | The two files hold the map and the counters as text. |
| `RecordStore.Store.Initializefileinfo` | KVS/greeter_async_server.cc:352-387 | Map and counters are what the two files hold; counters that the file does not mention stay 0. |
| `RecordStore.Store.Restart` | KVS/greeter_async_server.cc:328-387 | Saving and loading loses nothing exactly when every key is a word, and loses every key that is not. |
| `RecordStore.Run` | KVS/greeter_async_server.cc:392-480 | Every run of puts, deletes, gets and restarts gives the answers of a map. |
| `Matcher.AcceptsOne` | xv6-public/grep.c:85-96 | A character or dot takes one character that fits. |
| `Matcher.AcceptsStar` | xv6-public/grep.c:99-106 | A starred item takes any number of characters that fit, with no preference. |
| `Matcher.AcceptsEnd` | xv6-public/grep.c:91-92 | A final $ is the end of the text. |
| `Matcher.NoLonger` | xv6-public/grep.c:99-106 | The loop of matchstar may stop at the first character that does not fit. |
| `Matcher.Matchhere` | xv6-public/grep.c:85-96 | True exactly when the text begins with what the pattern means. |
| `Matcher.Matchstar` | xv6-public/grep.c:99-106 | The same for a starred item and the pattern after it. |
| `Matcher.Match` | xv6-public/grep.c:73-82 | True exactly when the pattern is found, at the start after ^ and anywhere else. |

## Left out

What is assumed or bounded in the parts that are modelled:

- BufferCache.Bcache.Bread: on the root device; it ends where the process goes to sleep on a lock, and the waiting is a step of `WriteAheadLog` instead.
- LogCode.Log.Commit: one process up to its first sleep, with a list that fits the log area; the interleaving with other processes and longer lists are in `WriteAheadLog` and `LogOverflow`.
- WriteAheadLog.ModifyStepKeeps: a process logs what it modified before it releases the buffer or ends its operation, and stays within MAXOPBLOCKS, as log.c asks of its callers; `FileCode` proves for filewrite that it logs what it changes within that budget. begin_op's sleeping and waking, and liveness in general, are not modelled.
- Heap.Allocator.Malloc: sbrk takes a number of units and refuses beyond a fixed limit; what the heap becomes after an sbrk of 2^31 bytes or more, where `SbrkExact` shows the argument wrong, is not modelled.
- FileCode.FileSystem.Writei: regular files and directories only; an allocation failure is a panic, after which only the other files are described. Devices (T_DEV) are not part of this model.
- Directory.Dirlink: when it panics its own contents are not described.
- Directory.ClearEntry: link counts, and the panic of unlink on one below 1, are not modelled; which inodes are directories is a parameter.
- Directory.AllElements: namex's walk through inodes is not modelled, only the names it looks up.
- Lfu.LFUCache.Put: nodes are records in a memory indexed by numbers rather than objects on a heap, so sharing is explicit; the counters are unbounded integers.
- Lfu.Run: runs of get and put; after the deletion of a cached key the code's own count is off, as `Del` states.
- VmCode.Memory.Kalloc: the junk that kfree fills a page with is not modelled, only that its contents are gone.
- VmCode.Memory.Mappages: only the present bit and the permission number of an entry are modelled.
- VmCode.Memory.Deallocuvm: sizes up to KERNBASE, which is what its callers pass; beyond it the kernel's own mappings would be torn down.
- VmCode.Memory.Setupkvm: the check that PHYSTOP lies below DEVSPACE holds for the constants given.
- Proc.RunKeeps: pids do not wrap; kernel stacks, open files and page directories of a process are not part of the table.
- PipeRing.RunKeeps: an end is closed only when no call on it is in progress, since a caller holds a reference to its end.
- RecordStore.Store.Putkey: keys and values shorter than 256 bytes; longer ones make the code write bytes beyond its strings. Record numbers are unbounded integers.
- RecordStore.Store.Restart: the server saves its context before it ends; one that dies without saving is not modelled. Numbers in the context files carry no sign.
- RecordStore.Run: restarts only while all keys are words, the exact condition under which Restart loses nothing.
- Matcher.Match: patterns and texts are strings without NULs.

What the repository does that the model does not:

- The on-disk inode encoding, the inode cache, reference counts and link counts.
- System call argument checks, exec, console, traps, interrupts, boot and device drivers other than the memory disk.
- The scheduler's fairness, context switches and spin locks: a step is what the code does under one lock.
- What happens after a panic.
- The shell's evaluation of commands, and its list of built-in commands.
- grep's line buffering and file handling.
- The key-value server's network layer, client, logging, worker threads, and the agreement between its cache and its store.
- The server's least-recently-used cache.
- The other user programs, which call what is modelled here.
