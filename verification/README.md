# A verified model of the AgentOS kernel's stateful core

The repository is an xv6 kernel for RISC-V with a layer of kernel-managed agents. This project
models the parts of it whose correctness is not visible in one function body, in Dafny, and proves
what they keep over every run. `dafny verify dfyconfig.toml` checks all of it.

A step holds its spinlock from beginning to end, so a critical section is one atomic method call
and the methods of different processes, ticks, kills and crashes may follow one another in any
order. Objects the kernel updates in place are classes with the same fields; pointers into a static
array are indices of it. The pure part of each module says what a state means, and the methods are
proved against it.

## The modules

- `Blocks`: disk blocks as bytes and little-endian words.
- `LogRecovery`, `LogSpace`, `Log`, `BufferCache`: the redo log. `LogRecovery` is the abstract
  protocol, one disk write at a time, with crash atomicity over whole runs. `Log` and `BufferCache`
  are the imperative code, whose disk writes are proved to be prefixes of the abstract sequences,
  over an LRU cache that shows one flat map of blocks, and over it the unlogged contents that last as
  long as their buffers do.
- `FreeMap`, `Ownership`, `FileSystem`: bitmap allocation, direct and indirect blocks, truncation,
  reading, writing, and the chunked write of a file with its log budget. `FileCrash` joins the chunks
  to the log, whatever other operations share their transactions: what a crash leaves is a whole number
  of them. Truncation is such an operation too.
- `Digest`, `ContextPath`: the hash chain over an agent's context records and the packed region of
  records with eviction and rollback.
- `TimerWheel`, `AgentWait`, `ToolRpc`, `Workflow`, `Scheduler`: heartbeats, mailbox and blocking
  wait, tool calls between agents, workflow membership with the cascade that closes a workflow, and
  the scored scheduler.
- `QueryIndex`: the attribute index, the plain scan and the shared result cache.
- `Grep`: the regular-expression matcher against the language of its patterns, and the line filter.
- `Allocator`: the free-list allocator of user programs.
- `PageTable`: three-level page tables as partial maps, address-space copy, and copies to and from
  user memory. `UserMemory` keeps the program's part of every address space, while processes grow,
  shrink and fork, a mapping of readable pages, each over a frame of its own.

## Where the code falls short of what it seems to promise

Each of these is a lemma or a run in the model, next to the exact condition under which the promise
holds.

- `log_write` checks for a full log before it looks for the block in the list, so an operation
  within its budget can panic on a block that would be absorbed (`LogSpace.FullLogRefusesRewrite`,
  `LogSpace.RewriteMeetsGuardIff`). A log area of at most LOGSIZE blocks, like the shipped one, refuses
  blocks within budget as well (`LogSpace.BudgetsHonouredIff`).
- The cache has as many buffers as the log has entries, and a commit needs one more for each log block
  it touches. It panics in `bget` exactly when NBUF blocks are referenced and one of those log blocks is
  not (`Log.Log.Commit`, `Log.Log.EndOp`). With no call holding a buffer that takes NBUF logged blocks,
  which the shipped log size rules out (`Log.LoneLogCommitsIff`); with one reader beside 29 logged
  blocks it happens (`Log.CommitFindsNoBuffer`).
- When the source of `writei` gives out inside a block, the bytes copied before that are in the cache
  but neither counted nor logged, and readers lose them when the buffer is recycled. This happens
  exactly when the source ends inside a block that the operation has not logged and whose bytes it
  changes (`FileSystem.Fs.Writei`, `FileSystem.Fs.LosesTailInside`; `FileSystem.Fs.WriteThatFades` is
  such a call).
- A context push whose record copy fails has already drawn its number. After the next push that
  succeeds the digests verify exactly when none were retained before it, as after a rollback
  (`ContextPath.VerifyAfterFailedCopy`; `ContextPath.DigestsBreak` is a run in which they do not), and
  the records kept are no longer followed by the next number. The number also skips 0 when it wraps,
  which breaks both (`ContextPath.Context.Push`).
- An agent whose loop is over is told that its heartbeat is set, but it is not put on the wheel; if it
  goes on working, it never gets one (`TimerWheel.LostHeartbeat`, `TimerWheel.Wheel.Resume`). Likewise a
  process whose workflow refuses it after its interval has been set, and a marked agent for which there
  is no room (`TimerWheel.RefusedHeartbeat`, `TimerWheel.Wheel.Mark`).
- A wait takes the message before it copies the event to the caller; with a bad event buffer the message
  is gone (`AgentWait.LostMessage`, `AgentWait.Agent.WaitTurn`).
- A kill that comes between the look at the killed flag and the sleep of a tool call does not wake its
  victim (`ToolRpc.MissedKill`).
- Request ids start over after INT_MAX, so a reply can reach another caller that is still waiting
  with the same id (`ToolRpc.IdClash`, `ToolRpc.Runtime.Reply`).
- The index counts a file once per attribute equal to the first condition, so it agrees with the scan
  exactly when no matching file has that attribute twice (`QueryIndex.HitsIffOnce`;
  `QueryIndex.CountedTwice` is a file that does). No operation of the kernel writes such a file, for
  setting an attribute keeps the keys distinct (`QueryIndex.SetAttr`, `QueryIndex.DistinctKeysOnce`); it
  would have to come with the disk.
- `grep` stops at the first line that does not fit its buffer or has a NUL in it
  (`Grep.HandledAllIff`); the lines behind it are lost (`Grep.StopsAtUnreadable`, `Grep.LostLine`). A last
  line without a newline is ignored (`Grep.NoLine`, `Grep.Filter`).
- `sbrk` takes an int: from 2^27 units on, `morecore` gets less memory than the header it writes
  claims (`Allocator.SbrkEnoughIff`, `Allocator.Heap.Malloc`). From 0x7fff_ffe1 bytes on, `malloc` then
  hands out a block that lies beyond the end of the process (`Allocator.BeyondBreak`).

`uvmunmap` passes over an entry that has no flag but the valid bit, so a failing `uvmcopy` would leave
the copy of such an entry mapped and in use (`PageTable.Memory.UvmCopy`). No program has such an entry,
and a fork that fails gives back every frame it took (`UserMemory.UsersLeaf`, `UserMemory.ForkCopy`).

## Model

| member | source | states |
|---|---|---|
| LogRecovery.EncodeHead | kernel/log.c:103-114 | The header block write_head produces decodes to exactly the list it was given, whatever the block held before |
| LogRecovery.CommitAtomic | kernel/log.c:194-203 | Losing power after any number of commit's disk writes leaves a disk that recovers to the state before the transaction or to all of it; the switch is exactly the header write |
| LogRecovery.CommitPieces | kernel/log.c:179-203 | The write sequence of a commit is the log copies, then the header, then the installs, then the cleared header, in that order and no other |
| LogRecovery.CommitPrefix | kernel/log.c:179-203 | After the first k commit writes the disk is in the k-th phase of the protocol, for every k |
| LogRecovery.RecoverPrefix | kernel/log.c:117-123 | After the first k recovery writes the disk is in the k-th phase of recovery, for every k |
| LogRecovery.RecoverIdempotent | kernel/log.c:117-123 | Losing power after any number of recovery's writes changes nothing durable; finishing recovery puts the durable contents into the home blocks and empties the log |
| LogRecovery.NextKeeps | kernel/log.c:67-123 | What each single event of a run (commit, crash in commit, recovery, crash in recovery) does to the durable contents |
| LogRecovery.AnythingMayHappen | kernel/log.c:117-203 | The runs leave nothing out: a machine that is down can recover and is then up, one that is up can commit any transaction, and power may go after any number of the writes of either |
| LogRecovery.RunExtends | kernel/log.c:67-123 | A run can be continued by any enabled event from any state it reaches |
| LogRecovery.RunIsAtomic | kernel/log.c:67-203 | Over every run of commits, crashes inside commits, recoveries and crashes inside recoveries, the durable contents are those of the transactions whose header reached the disk, each whole and in order |
| LogSpace.StepKeepsReserved | kernel/log.c:127-175 | Every begin_op, log_write within budget, end_op and commit keeps logged blocks plus the unused budgets of open operations within LOGSIZE |
| LogSpace.RunStaysReserved | kernel/log.c:127-175 | The same over every interleaving of any number of operations |
| LogSpace.BudgetedWriteFits | kernel/log.c:215-221 | With room for LOGSIZE data blocks an operation that logs a new block of its budget never meets the panic guard |
| LogSpace.RewriteMeetsGuardIff | kernel/log.c:220-230 | For every log size: logging again a block already logged meets the guard exactly when the list fills the log area or has LOGSIZE entries, and the latter takes every open operation at its full budget |
| LogSpace.BudgetsHonouredIff | kernel/log.c:127-221 | No reachable state refuses a block within budget exactly when the log area has more than LOGSIZE blocks; the shipped one has LOGSIZE |
| LogSpace.FullLogRefusesRewrite | kernel/log.c:215-230 | A reachable state in which the guard panics although the block would be absorbed |
| BufferCache.UnlinkRing | kernel/bio.c:122-125 | The two stores that unlink a buffer leave a circular doubly linked list of all the others in order |
| BufferCache.PushFrontRing | kernel/bio.c:45-52 | The four stores of insertion put a buffer at the front of the circular list, both directions intact |
| BufferCache.RequeueRing | kernel/bio.c:122-132 | brelse's stores turn the list into the same list with the buffer moved to the front |
| BufferCache.RequeueMembers | kernel/bio.c:122-132 | The moved list is still a permutation of all buffers |
| BufferCache.RequeueStamps | kernel/bio.c:122-132 | The moved list is still ordered by time of last release |
| BufferCache.AllReferencedIff | kernel/bio.c:74-88 | No buffer can be recycled exactly when NBUF distinct blocks are referenced |
| BufferCache.DataCoherent | kernel/bio.c:93-112 | Changing a referenced buffer changes the one flat map of blocks at its own block and nowhere else |
| BufferCache.LooseCoherent | kernel/bio.c:117-137 | Contents that will not be logged can be set against what is on disk without any reader seeing a difference |
| BufferCache.WrittenCoherent | kernel/bio.c:107-112 | Writing a buffer out changes the disk and no contents any reader can see; what was unlogged in it is durable from then on |
| BufferCache.RefCoherent | kernel/bio.c:117-151 | Taking and dropping references keeps cache and disk a faithful picture of the durable contents and of what readers see |
| BufferCache.RecycledCoherent | kernel/bio.c:74-85 | Recycling an unreferenced buffer loses the unlogged contents it held and nothing else |
| BufferCache.Cache.constructor | kernel/bio.c:37-53 | binit builds the full circular list, no buffer assigned |
| BufferCache.Cache.Bget | kernel/bio.c:59-89 | Returns the one buffer assigned to the block, or recycles the least recently released unreferenced one; panics exactly when the block is not referenced and NBUF others are |
| BufferCache.Cache.Recycle | kernel/bio.c:74-88 | The backward search finds an unreferenced buffer of least release time, if there is one |
| BufferCache.Cache.Bread | kernel/bio.c:93-103 | The returned buffer holds the last contents anybody stored in the block, logged or not, unless unlogged contents went with a recycled buffer; panics exactly as bget does |
| BufferCache.Cache.Store | kernel/bio.c:93-103 | A holder's change is seen by every later reader of that block only |
| BufferCache.Cache.Bwrite | kernel/bio.c:107-112 | Exactly one disk write, of the contents readers see |
| BufferCache.Cache.Brelse | kernel/bio.c:117-137 | Drops one reference; on the last one the buffer becomes the most recently released, and changed contents nobody logged stay visible until it is recycled |
| BufferCache.Cache.Bpin | kernel/bio.c:140-144 | One more reference, so the block cannot be recycled |
| BufferCache.Cache.Bunpin | kernel/bio.c:147-151 | One reference fewer, contents untouched, whether or not it is the last |
| Log.CommitAgrees | kernel/log.c:194-203 | After a full commit the disk holds what the cache shows, and readers of home blocks saw no change |
| Log.CommitBeforeOrAfter | kernel/log.c:194-203 | However many of commit's writes happened, recovery yields the contents before or all the cached contents |
| Log.CommitReaches | kernel/log.c:194-203 | A finished commit leaves an empty log and a disk that recovers to the cached contents |
| Log.Log.WriteLogOne | kernel/log.c:183-190 | One turn of write_log: one disk write, the cached contents of the listed block to its log block; panics exactly when NBUF blocks are referenced and that log block is not |
| Log.Log.WriteLog | kernel/log.c:179-191 | Its disk writes are a prefix of the log copies; all of them exactly when fewer than NBUF blocks are referenced or all the log blocks needed are |
| Log.Log.InstallOne | kernel/log.c:73-82 | One turn of install_trans: one disk write, the log block to its home, unpinned unless recovering; panics exactly when bget finds no buffer |
| Log.Log.InstallTrans | kernel/log.c:69-83 | Its disk writes are a prefix of the installs; all of them in recovery, and whenever write_log got through |
| Log.Log.WriteHead | kernel/log.c:103-114 | One disk write, the encoded in-memory list |
| Log.Log.ReadHead | kernel/log.c:87-97 | The in-memory list becomes the one on disk; nothing is written |
| Log.Log.Commit | kernel/log.c:194-203 | Its disk writes are a prefix of the abstract commit sequence; all of it exactly when there is nothing to commit, fewer than NBUF blocks are referenced, or all the log blocks needed are; then every listed block loses its pin |
| Log.LoneLogCommitsIff | kernel/log.c:194-203 | With no buffer in the hands of a call, the commit goes through exactly when fewer than NBUF blocks are logged; so it always does with the shipped log size |
| Log.CommitFindsNoBuffer | kernel/log.c:147-203 | A run in which three operations within their budgets fill the log, readers hold the buffers that are left, and the last end_op panics: no reader is needed with more than LOGSIZE log blocks, one with the shipped LOGSIZE |
| Log.Log.RecoverFromLog | kernel/log.c:117-123 | Its disk writes are exactly the abstract recovery sequence; it cannot panic, and leaves the durable contents in the home blocks |
| Log.Log.BeginOp | kernel/log.c:127-142 | Admits an operation exactly when its full budget still fits |
| Log.Log.Read | kernel/bio.c:93-103 | bread inside a transaction returns the last contents stored in the block by anyone, unlogged ones as long as they are cached; panics exactly as bget does |
| Log.Log.Modify | kernel/log.c:205-214 | The holder of a buffer changes its block; every later reader sees it, and the operation cannot end before logging the block or giving it back |
| Log.Log.Release | kernel/bio.c:117-137 | Gives the reference back; what was changed and not logged stays visible until the buffer is recycled, and what was logged is kept |
| Log.Log.LogWrite | kernel/log.c:215-235 | Absorbs a block already listed, appends and pins a new one, with whatever readers see in it; panics exactly when the log is full; readers see no change |
| Log.Log.Enlist | kernel/log.c:225-233 | The search finds the block's place or the end of the list |
| Log.Log.EndOp | kernel/log.c:147-175 | The last operation out commits: whichever write the machine dies after, recovery gives the contents before the open operations or after all of them; pins and readers are as before; panics exactly when the commit does |
| FreeMap.PutBit | kernel/fs.c:75-77 | Setting or clearing one bit of a byte leaves the other bits alone |
| FreeMap.MarkOneBit | kernel/fs.c:72-104 | One store into the bitmap changes the state of one block only |
| FreeMap.Store.Balloc | kernel/fs.c:66-88 | Returns the lowest free block, now marked and zeroed, or 0 exactly when every block is in use |
| FreeMap.Store.ScanMap | kernel/fs.c:73-80 | The inner loop finds the first clear bit of a bitmap block |
| FreeMap.Store.Take | kernel/fs.c:74-81 | Marks and zeroes the block found, and logs both blocks |
| FreeMap.Store.Bfree | kernel/fs.c:92-105 | Clears the block's bit; panics exactly when it was clear already |
| FreeMap.Store.Poke | kernel/fs.c:529-534 | A change released without log_write is seen until its buffer is recycled, unless an operation of the transaction has logged the block |
| Ownership.InUseIffOneSlot | kernel/fs.c:391-462 | A data block's bit is set exactly when some direct, indirect or entry slot of some inode refers to it, and never two slots do |
| Ownership.AllocAddr | kernel/fs.c:396-411 | Allocating a direct block or the indirect block keeps ownership, also when the entry allocation after it fails |
| Ownership.AllocEntry | kernel/fs.c:412-423 | Allocating through the indirect block keeps ownership |
| Ownership.FreeAddr | kernel/fs.c:440-457 | Freeing what a slot of the inode refers to finds the bit set and keeps ownership |
| Ownership.FreeEntry | kernel/fs.c:447-453 | The same for each word of the indirect block, in the midst of the loop |
| FileSystem.Fs.Bmap | kernel/fs.c:392-430 | Returns the slot's block, allocated and zeroed if there was none and 0 only when the disk is full; ownership, all mapped data and every other inode are kept, and it logs every block it changes |
| FileSystem.Fs.BmapIndirect | kernel/fs.c:405-426 | The indirect case, including an indirect block that stays allocated when the entry's allocation fails |
| FileSystem.Fs.Itrunc | kernel/fs.c:435-462 | Exactly the file's blocks become free, nobody else's contents change, bfree never meets a free block; the inode and every changed block are logged, and no data block is |
| FileSystem.Fs.TruncStage | kernel/fs.c:435-462 | Between begin_op and end_op, alone in its transaction or sharing it, truncation writes to disk nothing that has not been logged: the inode goes with the blocks it referred to |
| FileSystem.Fs.Readi | kernel/fs.c:481-505 | Returns exactly the file's bytes [off, min(off + n, size)), across block and direct/indirect boundaries; nothing is allocated |
| FileSystem.Fs.Writei | kernel/fs.c:515-548 | Bytes [off, off + r) become the source's, every other byte of every file stays, the size becomes max(size, off + r), 3 * BSIZE bytes log at most MAXOPBLOCKS blocks; r is the bytes of whole chunks unless the disk fills; every changed block is logged exactly unless the source gives out inside a block not logged whose bytes it changes, and then that block alone is not and falls back to what it held |
| FileSystem.Fs.LosesTailInside | kernel/fs.c:529-534 | Bytes stay unlogged only when the source yields some but not all bytes and ends inside a block |
| FileSystem.CountedShort | kernel/fs.c:525-547 | The count returned falls short of the bytes copied exactly when the source gives out inside a block, and by less than a block |
| FileSystem.Fs.WriteThatFades | kernel/fs.c:529-534 | A call whose one copied byte is seen by readers, is not logged, and is gone when the buffer has been recycled |
| FileSystem.Fs.Evict | kernel/bio.c:74-85 | Recycling a buffer with unlogged contents leaves ownership and every file's mapping intact |
| FileSystem.FadesToCounted | kernel/fs.c:525-547 | What is left on disk of a chunk cut short is the file with the bytes counted, and no more |
| FileSystem.Fs.WriteChunk | kernel/fs.c:525-541 | One turn of writei's loop, with the disk full, the source giving out, or the whole chunk copied; the one block changed and not logged is the one the source gave out in |
| FileSystem.GaplessGrows | kernel/fs.c:525-541 | Mapping the block behind the last mapped one leaves no file with a mapped block after an unmapped one |
| FileSystem.Fs.LosesTailMapped | kernel/fs.c:525-541 | When bytes will stay unlogged every block of the range is mapped already, so the disk cannot fill before they are copied |
| FileSystem.Fs.WriteStage | kernel/file.c:165-171 | One chunk, alone in its transaction or sharing it: what the disk then holds differently is logged by it or by those it shares with, and the file on disk holds the bytes counted, or all those copied if the block they end in was logged before |
| FileSystem.Fs.Filewrite | kernel/file.c:152-183 | The chunks concatenate to one write; each transaction stays within MAXOPBLOCKS distinct blocks and logs every block it changes, but for the bytes of a chunk cut short; unless the disk fills, n is returned exactly when the range is acceptable and the source yields n bytes, else -1 |
| FileCrash.OperationLands | kernel/log.c:147-175 | An operation changes no block on disk but those logged by it or before it in its transaction |
| FileCrash.GroupCommits | kernel/log.c:147-175 | Committing the blocks a group of operations logged takes the disk from the contents before the first to those after the last |
| FileCrash.CourseSoFar | kernel/log.c:147-175 | Committing the first k groups of operations gives the disk contents at the k-th cut |
| FileCrash.CallHolds | kernel/file.c:160-177 | After any number of operations, chunks of one call in order with others between them, the file on disk has exactly the bytes of the chunks so far and its size is the largest reached |
| FileCrash.WriteChunkOf | kernel/file.c:165-171 | writei between begin_op and end_op is such a chunk, whether or not others share the transaction |
| FileCrash.TruncateOf | kernel/fs.c:435-462 | Truncation is one of the operations of the crash theorem: what it changes on disk is logged, and every other file holds the bytes it held |
| FileCrash.ChunkLeaves | kernel/file.c:165-171 | A chunk written to one file is an operation of somebody else to every other |
| FileCrash.CrashLeavesOperations | kernel/file.c:160-177 | With any operations beside the call and any grouping of operations into commits, and however commits, crashes and recoveries follow one another, the disk recovers to a whole number of operations, and the file holds exactly the bytes of the chunks among them |
| FileCrash.CrashLeavesChunks | kernel/file.c:160-177 | The same for filewrite alone: the disk recovers to a whole number of its chunks, and the file holds exactly the bytes counted for them |
| FileCrash.CourseExists | kernel/log.c:147-175 | Any grouping whose blocks fit the log has disk contents and transactions that go with it |
| FileCrash.RunExists | kernel/log.c:147-203 | For every number of those transactions a run of the disk has exactly these through |
| FileCrash.OneByteSurvives | kernel/file.c:160-177 | A one-byte call on a small disk that meets all conditions of the crash theorem, after which the new byte is durable |
| FileSystem.ReadsBack | kernel/fs.c:480-548 | A range just written reads back as the bytes written |
| FileSystem.SpentTotal | kernel/file.c:158-163 | The blocks logged by an unaligned write of at most 3 * BSIZE bytes, counted over its turns, fit the budget |
| FileSystem.TruncDone | kernel/fs.c:435-462 | After the loops of itrunc no slot of the inode refers to anything and every other slot is as it was |
| Digest.MixInjective | kernel/agent.c:317-330 | Each step (h xor x) * P mod 2^64 loses nothing of either operand |
| Digest.HashSeesEveryField | kernel/agent.c:317-330 | Changing any one input field of an entry changes its hash |
| Digest.FnvSeesEveryByte | kernel/agent.c:284-292 | Changing any one byte of a string changes its hash |
| Digest.NewEntrySees | kernel/agent.c:296-331 | Every argument is recorded in its own field, and changing any one byte of the request or of the result changes the entry's hash |
| Digest.TamperIsSeen | kernel/agent.c:339-378 | Changing any single field of any one retained entry makes verification fail |
| Digest.LinkedCounts | kernel/agent.c:357-371 | In a chain that verifies each number is one more than that before it |
| Digest.ForgedEntryIffLast | kernel/agent.c:356-375 | Replacing an entry by a self-consistent one goes unseen exactly at the end of the chain |
| Digest.LinkedPush | kernel/agent.c:296-335 | A pushed entry keeps the chain linked exactly when it is numbered next, also when the oldest entry falls out |
| Digest.RetainedPush | kernel/agent.c:332-334 | The ring keeps the newest sixteen entries in order, before and after it wraps |
| Digest.Ring.Push | kernel/agent.c:296-335 | The retained entries become the newest sixteen of the old ones and the new one |
| Digest.Ring.Verify | kernel/agent.c:339-378 | Returns 0 exactly when the indices are in range and the retained chain is linked |
| Digest.Ring.LastHash | kernel/agent.c:300-306 | The previous hash is the newest retained entry's |
| ContextPath.SurvivorsAreLongest | kernel/agent_context.c:275-277 | What the eviction loop leaves, its copies succeeding, is the longest suffix of records behind which the new one fits 16 nodes and the quota |
| ContextPath.Context.ShiftDown | kernel/agent_context.c:134-145 | The overlapping chunked copy moves the remaining bytes to the front unchanged, or as many of them as a copy that fails lets through |
| ContextPath.Context.EvictOldest | kernel/agent_context.c:119-161 | Drops the first record, its dependency, tables and region bytes following; a copy that fails empties the path, the bytes moved so far staying moved |
| ContextPath.Context.MakeRoom | kernel/agent_context.c:275-277 | The eviction loop leaves exactly the survivors with their dependencies, each eviction's copy failing or not on its own, still numbered consecutively |
| ContextPath.Context.Push | kernel/agent_context.c:220-299 | Succeeds exactly when the record fits the region and the quota and no copy fails, and the path never exceeds the quota. Keeps the survivors with their dependencies and appends the record and its digest. The digests verify afterwards exactly when the record was numbered next after the newest of them; numbering stays in step exactly when the next number does not wrap, and after a failed record copy exactly when nothing is retained, for records and digests separately |
| ContextPath.VerifyAfterFailedCopy | kernel/agent_context.c:270-299 | After a failed record copy and a push that succeeds, the digests verify exactly when there were none before |
| ContextPath.DigestsBreak | kernel/agent_context.c:270-299 | A run of three pushes into a new context after which verification fails |
| ContextPath.Context.Rollback | kernel/agent_context.c:366-392 | Leaves exactly the first k records with their dependencies, the next number following them, and an empty digest chain |
| ContextPath.Context.Clear | kernel/agent_context.c:181-215 | Empty path, empty digests, and the region zeroed as far as copyout gets, which nothing reports |
| ContextPath.Context.WriteBegin | kernel/agent_context.c:92-102 | The generation becomes odd and larger |
| ContextPath.Context.SyncHeader | kernel/agent_context.c:165-178 | The generation becomes even and larger |
| TimerWheel.BypassChains | kernel/agent_loop.c:77-95 | Bypassing one node keeps every chain acyclic and every other process on its chain |
| TimerWheel.PushChains | kernel/agent_loop.c:119-125 | Pushing a process keeps every chain and puts it on exactly one |
| TimerWheel.TickExact | kernel/agent_loop.c:609-661 | For consecutive ticks the bucket test beats exactly the processes a scan of all of them would, and keeps deadlines in the future |
| TimerWheel.TurnedIsScanned | kernel/agent_loop.c:640-659 | For one process of the bucket, "deadline passed" is "deadline is now", never a lap late |
| TimerWheel.BeatsPeriodically | kernel/agent_loop.c:640-649 | The n-th deadline reckoned from a start is the n-th tick exactly at the deadline and every interval ticks after it |
| TimerWheel.BeatsAtItsTicks | kernel/agent_loop.c:640-649 | A scan beats an eligible process exactly at its deadline and every interval ticks after it: the event is pending, the process awake and boosted, the next deadline an interval ahead; at every other tick it is left alone |
| TimerWheel.DeadlineOfTicks | kernel/agent_loop.c:640-649 | After n scans the process is still eligible, with its interval and the deadline reckoned |
| TimerWheel.LostHeartbeat | kernel/agent_loop.c:111-117 | A run in which an agent whose loop is over sets a heartbeat successfully, goes on working, and is on no chain |
| TimerWheel.RefusedHeartbeat | kernel/agent.c:591-674 | A run in which a process is given an interval and then refused by its workflow, and is on no chain |
| TimerWheel.Wheel.constructor | kernel/agent.c:40-45 | The empty wheel |
| TimerWheel.Wheel.Remove | kernel/agent_loop.c:61-102 | The process leaves its chain, every other process keeps its place, and the count still equals the number of nodes |
| TimerWheel.Wheel.Insert | kernel/agent_loop.c:105-129 | The process ends up on the chain of its deadline modulo 64, or off the wheel when not eligible |
| TimerWheel.Wheel.Detach | kernel/agent_loop.c:610-624 | The first loop of a tick empties the bucket and marks exactly its processes |
| TimerWheel.Wheel.Tick | kernel/agent_loop.c:598-661 | Exactly the processes on the wheel whose heartbeat is due get the event, wake up, get a boost and their next deadline, and no other process changes; that is every process due if every heartbeat was on the wheel before |
| TimerWheel.Wheel.Ticks | kernel/agent_loop.c:598-661 | After n consecutive ticks every process on the wheel, or in no need of it, is what n scans of every process would make of it |
| TimerWheel.Wheel.TickOne | kernel/agent_loop.c:627-661 | One turn of the second loop, whose rescheduling may refill the bucket being emptied |
| TimerWheel.Wheel.HeartbeatSet | kernel/agent_loop.c:177-195 | New interval and deadline; on the wheel exactly when the loop is not over |
| TimerWheel.Wheel.HeartbeatStop | kernel/agent_loop.c:198-212 | Off the wheel, no interval, no pending beat |
| TimerWheel.Wheel.Finish | kernel/agent_loop.c:342-360 | Ending the loop clears the interval and leaves the process on its chain until its bucket comes round |
| TimerWheel.Wheel.Resume | kernel/agent_loop.c:373 | Every heartbeat stays covered exactly when the revived loop had no interval set off the wheel |
| TimerWheel.Wheel.LoopOver | kernel/agent_loop.c:383-390 | A wait that ends because the parent is gone or the process is killed ends the loop and keeps the interval |
| TimerWheel.Wheel.TakeBeat | kernel/agent_loop.c:463-475 | A wait consumes the beat |
| TimerWheel.Wheel.Sleep | kernel/agent_loop.c:513-515 | The process sleeps on its own channel, its place on the wheel unchanged |
| TimerWheel.Wheel.Birth | kernel/proc.c:111-152 | A blank slot is off the wheel and comes alive so |
| TimerWheel.Wheel.Mark | kernel/agent.c:570-699 | Off the wheel first; on it again exactly when the mark succeeds with an interval. Every heartbeat stays covered exactly when the others were and the process keeps none without room, or joins or asks for none |
| TimerWheel.Wheel.Exit | kernel/agent_tool.c:1146-1148 | An exiting process leaves the wheel |
| TimerWheel.Wheel.Free | kernel/proc.c:158-175 | Clearing the wheel fields of a freed slot without unlinking is safe |
| AgentWait.PushQueued | kernel/agent.c:807-820 | A stored message extends the queue at the back; numbering and both counters stay exact |
| AgentWait.PopQueued | kernel/agent_loop.c:402-419 | Taking the head message leaves the rest in order |
| AgentWait.Agent.constructor | kernel/agent.c:381-454 | A blank slot |
| AgentWait.Agent.Signal | kernel/agent_loop.c:148-157 | The event becomes pending and a sleeper on the process's own channel runnable |
| AgentWait.Agent.Send | kernel/agent.c:770-825 | Refuses a missing payload, an unknown type and an absent target; else takes a normal message exactly while fewer than six normal ones are queued and the mailbox is not full, a system message exactly while it is not full, and wakes the sleeper |
| AgentWait.Agent.BeginWait | kernel/agent_loop.c:332-379 | Refuses a wait that nothing can end, and otherwise sets the deadline |
| AgentWait.Agent.WaitTurn | kernel/agent_loop.c:381-517 | Sleeps exactly when there is nothing to report, else reports PARENT_GONE, the oldest message, FILEMOD, the heartbeat, the timeout or the kill, in that order, each by its own code; the event is taken even if it cannot be copied to the caller, who is told -1 |
| AgentWait.LostMessage | kernel/agent_loop.c:400-440 | A run in which an accepted message is taken from the mailbox and nobody gets to see it |
| AgentWait.Agent.Tick | kernel/agent_loop.c:663-677 | A waiting process is made runnable by the tick of its deadline |
| AgentWait.Agent.FileModified | kernel/agent_loop.c:682-702 | A matching watcher gets FILEMOD and wakes |
| AgentWait.Agent.Kill | kernel/proc.c:677-695 | A killed sleeper becomes runnable |
| AgentWait.Agent.Cascade | kernel/agent.c:192-219 | A cascaded process is killed, has PARENT_GONE pending and is awake |
| AgentWait.Agent.Wakeup | kernel/proc.c:658-671 | A wakeup on the channel it sleeps on makes it runnable |
| AgentWait.Agent.Mark | kernel/agent.c:570-699 | Becoming an agent resets mailbox, events and watches |
| AgentWait.Agent.Watch | kernel/agent_loop.c:232-245 | Adds to the watched events; refuses a caller that is no agent and a mask with other events |
| AgentWait.Agent.Unwatch | kernel/agent_loop.c:248-268 | Drops watched events and what is pending of them; refuses a caller that is no agent |
| AgentWait.Agent.SetHeartbeat | kernel/agent_loop.c:177-212 | Sets or clears the interval and drops a pending beat; refuses a caller that is no agent and an interval that is not positive |
| AgentWait.Agent.SetLoop | kernel/agent_tool.c:931 | A tool call or a rollback stores its loop state |
| AgentWait.Agent.Dispatch | kernel/proc.c:531-541 | A runnable process runs |
| AgentWait.Agent.SleepElsewhere | kernel/proc.c:627-653 | Sleeping in another call is not waiting for events |
| AgentWait.Agent.Birth | kernel/proc.c:283-326 | The new process has an empty mailbox and is killed at once when refused |
| AgentWait.Agent.Exit | kernel/proc.c:376-435 | A process that is not waiting becomes a zombie |
| AgentWait.Agent.Free | kernel/proc.c:158-175 | The slot is blank again |
| ToolRpc.IdsApart | kernel/agent_tool.c:869-870 | Two requests share an id exactly when a whole number of turns of the counter lies between them |
| ToolRpc.OpenIds | kernel/agent_tool.c:860-876 | Opening a request keeps ids in flight distinct exactly when the drawn id is in no used slot |
| ToolRpc.IdClash | kernel/agent_tool.c:869-870 | A run of INT_MAX requests after which a reply meant for one caller is delivered to another |
| ToolRpc.Runtime.Register | kernel/agent_tool.c:1019-1052 | Refuses a caller that is no agent, lacks the capability, or gives a bad name or flags, a name in use and a full table, each exactly then and in this order; else the first free entry is taken |
| ToolRpc.Runtime.FindTool | kernel/agent_tool.c:838-842 | Finds the tool by name exactly when it is registered |
| ToolRpc.Runtime.CallBegin | kernel/agent_tool.c:829-877 | An unknown tool, a caller not permitted and a full table are refused each exactly then and in this order; else a fresh request in the first free slot for the tool's owner |
| ToolRpc.Runtime.CallTurn | kernel/agent_tool.c:879-898 | Sleeps exactly while unanswered and not killed when it looks; the result returned is the one answered to its own request or the exit of its service; "request lost" never happens; a kill after the look is missed |
| ToolRpc.Runtime.RecvTurn | kernel/agent_tool.c:1055-1081 | Hands out the first waiting request, one never handed out before, or sleeps when there is none and it is not killed when it looks |
| ToolRpc.MissedKill | kernel/agent_tool.c:1077-1078 | A run in which a service killed between its look at the flag and its sleep stays asleep |
| ToolRpc.Runtime.RecvBegin | kernel/agent_tool.c:1055-1063 | A service that is not itself waiting for a call starts receiving |
| ToolRpc.Runtime.Birth | kernel/proc.c:111-152 | A new process is alive and not killed |
| ToolRpc.Runtime.Reply | kernel/agent_tool.c:1084-1104 | Answers the first slot with that id and service; the right one exactly when it is the slot of the request meant, which distinct ids guarantee |
| ToolRpc.Runtime.Exit | kernel/agent_tool.c:1146-1168 | The tools of the process go, every caller still waiting for it is answered, and nobody sleeps on an answered slot |
| ToolRpc.Runtime.Kill | kernel/proc.c:677-695 | The victim no longer sleeps |
| Workflow.CountedJoin | kernel/agent.c:104-120 | A join keeps every record's count exact, and never meets the member limit |
| Workflow.CountedCreate | kernel/agent.c:73-101 | A new record counts its one member |
| Workflow.CountedLeave | kernel/agent.c:141-163 | A leave keeps every count exact and drops the record with its last member |
| Workflow.ScansAfter | kernel/agent.c:192-222 | A change of one process that a scan allows loses nothing any scan has established |
| Workflow.LeaderIdentified | kernel/agent.c:639-650 | A process that becomes a leader owns its key already or nobody has ever carried it |
| Workflow.Closed | kernel/agent.c:123-138 | Marking a record TERMINATING closes that workflow and no other |
| Workflow.Kernel.constructor | kernel/agent.c:40-45 | No process, no record, no cascade |
| Workflow.Kernel.Find | kernel/agent.c:61-70 | Finds the record of a key exactly when there is one |
| Workflow.Kernel.ForkBegin | kernel/proc.c:111-152 | A blank slot is taken and stays locked |
| Workflow.Kernel.ForkJoin | kernel/agent.c:458-506 | The child takes its parent's key; it is a member exactly when that workflow is open, and otherwise born killed |
| Workflow.Kernel.ForkFail | kernel/proc.c:295-299 | A fork that gives up leaves the slot blank |
| Workflow.Kernel.ForkEnd | kernel/proc.c:320-326 | The slot's lock is dropped |
| Workflow.Kernel.Start | kernel/proc.c:326-355 | The child becomes runnable |
| Workflow.Kernel.Leave | kernel/agent.c:141-163 | The member leaves; its record disappears exactly with its last member, and every other workflow, and its own for those who stay, is open or closed as before |
| Workflow.Kernel.MarkPrimary | kernel/agent.c:636-650 | The process leads its own workflow, registered unless that is closed or the table is full; only its own recordless workflow can be reopened, and no other workflow changes |
| Workflow.Kernel.MarkWorker | kernel/agent.c:651-674 | The process joins the workflow it carries, or gets one of its own; no other workflow changes |
| Workflow.Kernel.BeginCascade | kernel/agent.c:166-186 | Errors in their order, or the workflow is closed and a scan begins |
| Workflow.Kernel.ScanStep | kernel/agent.c:192-222 | One turn of the scan kills the process in the next slot if it belongs to the workflow |
| Workflow.Kernel.CascadeCloses | kernel/agent.c:166-224 | Once a scan is through and until the workflow is reopened, every process of it but a spared caller is killed, whenever it was forked |
| Workflow.Kernel.OpenUnlessCascaded | kernel/agent.c:60-163 | In every reachable state a workflow is open exactly when it has a member and every cascade of it has been reopened, so nothing but a cascade closes it |
| Workflow.Kernel.Exit | kernel/proc.c:416-433 | A process that has left its workflow becomes a zombie |
| Workflow.Kernel.Free | kernel/proc.c:158-175 | A zombie is no member, so its slot can be cleared |
| Workflow.Kernel.Kill | kernel/proc.c:677-695 | The killed flag only |
| Scheduler.AgentScoreBound | kernel/agent_loop.c:536-576 | An agent scores at most 185 - vruntime / 4 and an ordinary process at least 50, so an agent that has run 544 times loses |
| Scheduler.BoundReachedIff | kernel/agent_loop.c:536-576 | Some agent with this vruntime can reach an ordinary process's least score exactly when it is below 544 |
| Scheduler.CpuScheduler.WeightOf | kernel/agent_loop.c:519-533 | Pending events count as much as the weightiest of them |
| Scheduler.UrgentFirst | kernel/agent_loop.c:519-533 | A message outweighs the loss of a parent, that a file, that a heartbeat, whatever else is pending |
| Scheduler.PickBounded | kernel/proc.c:517-541 | A pick while an ordinary process waits keeps every agent within its bound |
| Scheduler.CpuScheduler.ScoreOf | kernel/agent_loop.c:536-576 | Computes the score and records only the waiting start and the penalty count |
| Scheduler.CpuScheduler.Pick | kernel/proc.c:513-541 | Picks the first process of maximal score, none exactly when none is runnable |
| Scheduler.CpuScheduler.Return | kernel/proc.c:543-558 | The accounting after a run |
| Scheduler.CpuScheduler.Touch | kernel/agent_loop.c:148-157 | Signals, wakeups and settings that keep the ranges keep every bound |
| Scheduler.CpuScheduler.Renew | kernel/proc.c:111-175 | Ordinary processes may come and go |
| Scheduler.CpuScheduler.Bypass | kernel/proc.c:503-560 | Over any run in which an ordinary process waits at every pick, no agent is picked more than 544 times |
| QueryIndex.IndexedPush | kernel/agent_fs.c:278-289 | One posting more keeps every chain the list of its bucket's entries, last first, with links to lower slots only |
| QueryIndex.WalkIsHits | kernel/agent_fs.c:600-612 | Walking the first condition's chain meets the matching entries from the last to the first |
| QueryIndex.HitsIffOnce | kernel/agent_fs.c:600-623 | The index counts at least what the scan counts, and the same exactly when no matching file carries the first condition twice |
| QueryIndex.IndexAgreesWithScanIff | kernel/agent_fs.c:600-623 | Then, and only then, the index lists the scan's files in reverse |
| QueryIndex.DistinctKeysOnce | kernel/agent_fs.c:264-270 | Distinct keys in every file are enough for that |
| QueryIndex.CountedTwice | kernel/agent_fs.c:600-623 | A file with the same attribute twice, which the scan counts once and the index twice |
| QueryIndex.ScanAndIndexAgree | kernel/agent_fs.c:577-644 | With distinct keys, forcing a scan changes neither the count nor the files found |
| QueryIndex.AnswerIsWanted | kernel/agent_fs.c:577-624 | Every file shown is wanted, at most three are, and the count is the number of files wanted exactly when a scan is made or no matching file carries the first condition twice |
| QueryIndex.ScanIsWanted | kernel/agent_fs.c:614-623 | The scan lists the files wanted, each once |
| QueryIndex.FileMetaMatches | kernel/agent_fs.c:410-415 | The loop over the conditions and the keyword test decide whether a file is wanted |
| QueryIndex.FileAttrMatch | kernel/agent_fs.c:264-270 | Finds an attribute of equal key and value exactly when there is one |
| QueryIndex.StrContains | kernel/agent_fs.c:225-231 | True exactly when the needle occurs somewhere |
| QueryIndex.SetAttr | kernel/agent_fs.c:524-529 | Keys stay distinct and at most four; the key reads the new value and every other key what it did |
| QueryIndex.DelAttr | kernel/agent_fs.c:565-572 | The key is gone, every other key reads what it did |
| QueryIndex.FileIndex.AddPosting | kernel/agent_fs.c:278-289 | There is always a free posting, and it is the next one |
| QueryIndex.FileIndex.Rebuild | kernel/agent_fs.c:316-324 | The postings are every attribute of every file, each bucket chained |
| QueryIndex.FileIndex.ContentChanged | kernel/agent_fs.c:507-512 | The index describes the new files and every cached answer of the old version is dead |
| QueryIndex.FileIndex.Lookup | kernel/agent_fs.c:456-476 | Hits exactly when some entry of the current version answers this query and may be seen; the answer is what a fresh run over the current files would give |
| QueryIndex.FileIndex.Store | kernel/agent_fs.c:478-493 | The answer takes the first slot of the same query, else the first free one, else slot 0 |
| QueryIndex.FileIndex.WalkIndex | kernel/agent_fs.c:600-612 | The chain walk finds the hits of the first condition's bucket and visits exactly its entries |
| QueryIndex.FileIndex.ScanAll | kernel/agent_fs.c:613-623 | The scan finds the matching files in order |
| QueryIndex.FileIndex.Evaluate | kernel/agent_fs.c:599-623 | The loops compute the specified answer, by index when there is a condition and no scan is asked for |
| QueryIndex.FileIndex.QueryFile | kernel/agent_fs.c:577-644 | From cache, index or scan, the answer is that of a fresh run over the current files; with distinct keys it counts exactly the files for which every condition has an attribute of equal key and value and the keyword occurs in the summary, and it shows such files only; it is a hit exactly when a usable entry was there |
| Grep.WordFirst | user/grep.c:85-96 | A word of a pattern starts with a piece for its first item |
| Grep.HereFirst | user/grep.c:85-96 | A pattern matches here by spending characters on its first item and matching the rest with the others |
| Grep.MatchHere | user/grep.c:85-96 | True exactly when a prefix of the text, the whole for a final $, is in the pattern's language |
| Grep.MatchStar | user/grep.c:99-106 | True exactly when the text splits into a run of the starred character and a match of the rest |
| Grep.Match | user/grep.c:73-82 | True exactly when some suffix, the whole text for a leading ^, matches here |
| Grep.HandledAllIff | user/grep.c:18-34 | No complete line is left behind exactly when every complete line fits the buffer and has no NUL |
| Grep.StopsAtUnreadable | user/grep.c:21-29 | Every line behind one that does not fit the buffer or has a NUL is lost, though selected |
| Grep.LostLine | user/grep.c:21-29 | An input of two lines of which grep with an empty pattern prints neither |
| Grep.SelectedAppend | user/grep.c:22-29 | Filtering is compatible with cutting the input at line ends |
| Grep.ScanLines | user/grep.c:21-29 | The inner loop prints the matching lines of the buffer up to a line strchr cannot get through, and restores the newlines of those it prints |
| Grep.Filter | user/grep.c:12-35 | However reads are split, exactly the matching lines before the first that does not fit the buffer or has a NUL are printed, and a last line without newline is not |
| Allocator.LinkFree | user/umalloc.c:36-37 | Linking the freed block after its predecessor keeps the list circular, sorted and merged up to that one link |
| Allocator.MergeNext | user/umalloc.c:33-35 | Joining the freed block to the block after it does too |
| Allocator.LinkPrev | user/umalloc.c:41-42 | Linking the block before to the freed one completes the list |
| Allocator.MergePrev | user/umalloc.c:38-40 | Joining it to the block before completes the list |
| Allocator.TakeWhole | user/umalloc.c:76-77 | Unlinking an exact fit keeps the list |
| Allocator.TakeTail | user/umalloc.c:78-82 | Cutting the tail off a larger block keeps the list |
| Allocator.Absorb | user/umalloc.c:33-40 | When a block swallows its neighbour every unit still has exactly one owner |
| Allocator.Split | user/umalloc.c:78-82 | When a tail is cut off every unit still has exactly one owner |
| Allocator.Extend | user/umalloc.c:54-59 | Fresh memory above everything else becomes one block |
| Allocator.Disjoint | user/umalloc.c:25-90 | Blocks, live or free, never overlap |
| Allocator.SearchTurn | user/umalloc.c:30-32 | At every position free's loop stops exactly at the gap the block belongs in |
| Allocator.UnitsSuffice | user/umalloc.c:69 | The block holds the bytes asked for with less than one header to spare |
| Allocator.SbrkEnoughIff | user/umalloc.c:52-54 | sbrk's int argument covers the chunk exactly below 2^27 units |
| Allocator.BeyondBreak | user/umalloc.c:46-61 | A request of 0x7fff_ffe1 bytes or more gets a block that the memory of the process does not back |
| Allocator.Heap.Search | user/umalloc.c:30-32 | free's loop terminates at the block's place in the list |
| Allocator.Heap.Free | user/umalloc.c:25-44 | The block is live no more, every other live block keeps its size, no unit is lost, and the list stays circular, sorted and merged |
| Allocator.Heap.LinkNext | user/umalloc.c:33-37 | First half of free |
| Allocator.Heap.LinkBack | user/umalloc.c:38-43 | Second half of free |
| Allocator.Heap.Morecore | user/umalloc.c:47-61 | A fitting free block exists afterwards; the new memory is really there exactly below 2^27 units |
| Allocator.Heap.GrownElsewhere | kernel/sysproc.c:39-49 | Memory taken by other callers of sbrk moves the end of the process and nothing of the heap, so the next chunk need not be adjacent |
| Allocator.Heap.Malloc | user/umalloc.c:64-90 | A block of the right size that overlaps no other; memory is asked for only when nothing fits; null only when the system refuses; the search terminates, also after growing |
| Allocator.Heap.Take | user/umalloc.c:75-84 | Hands out the whole block or its tail |
| PageTable.PathOfAddress | kernel/riscv.h:355-357 | The three indices of an address are those of its page |
| PageTable.PathInjective | kernel/vm.c:91-108 | Distinct pages below MAXVA get distinct leaf slots |
| PageTable.GrowMid | kernel/vm.c:97-106 | A new second-level table changes no translation |
| PageTable.GrowLeaf | kernel/vm.c:97-106 | A new leaf table changes no translation |
| PageTable.PutEntry | kernel/vm.c:163-170 | Writing one leaf entry changes one translation |
| PageTable.ForestAfter | kernel/vm.c:91-108 | A change confined to one page table leaves all others well formed and unchanged |
| PageTable.StoredMore | kernel/vm.c:371-386 | With frames of their own, writing one more page overwrites no earlier one |
| PageTable.ReadsBack | kernel/vm.c:365-414 | Bytes stored by copyout are the bytes copyin fetches |
| PageTable.Memory.constructor | kernel/vm.c:57-62 | No table yet, all pages free |
| PageTable.Memory.Walk | kernel/vm.c:91-108 | Finds the leaf slot; allocating changes no existing translation of any table and fails only without memory |
| PageTable.Memory.Descend | kernel/vm.c:97-106 | One level of walk |
| PageTable.Memory.SetPte | kernel/vm.c:170 | One translation changes |
| PageTable.Memory.MapPages | kernel/vm.c:149-177 | Exactly the requested pages become mapped to consecutive frames, or a prefix of them when memory runs out |
| PageTable.Memory.UnmapPages | kernel/vm.c:183-205 | Exactly the mapped pages of the range are unmapped, their frames freed if asked |
| PageTable.Memory.Create | kernel/vm.c:210-218 | A new table that maps nothing and shares no page |
| PageTable.Memory.Kalloc | kernel/kalloc.c:69-82 | Takes the first free page, in use nowhere; none exactly when none is left |
| PageTable.Memory.Kfree | kernel/kalloc.c:47-63 | The frame is free again and first in line |
| PageTable.Memory.UvmCopy | kernel/vm.c:319-346 | The child gets equal contents and flags in fresh frames of its own and nothing else changes; on failure everything is given back but the copies of entries with no flag beyond the valid bit, which no program has |
| PageTable.FramesLeft | kernel/vm.c:343-345 | The frames still in use after a failed copy are those of the entries uvmunmap passes over |
| PageTable.Memory.CopyOne | kernel/vm.c:327-340 | One turn of uvmcopy |
| PageTable.Memory.CopyOut | kernel/vm.c:365-389 | The bytes reach the frames behind the range and nothing else changes; it fails at the first page not writable by the user |
| PageTable.Memory.CopyIn | kernel/vm.c:395-414 | Returns the bytes behind the range; it fails at the first page not readable by the user |
| PageTable.Memory.RoundTrip | kernel/vm.c:365-414 | What copyout wrote copyin reads back, across page boundaries, exactly when every page is writable |
| UserMemory.UsersLeaf | kernel/vm.c:239-262 | Every entry below a program's size is one uvmunmap takes away, over a frame no other page of any program has |
| UserMemory.UsersGrow | kernel/vm.c:246-261 | One more readable page over a new frame keeps that |
| UserMemory.UsersShrink | kernel/vm.c:269-280 | Taking the last pages away with their frames takes no frame of anybody else |
| UserMemory.UsersForked | kernel/vm.c:319-345 | A complete copy makes the child a program of the same size with frames of its own |
| UserMemory.UsersBelow | kernel/vm.c:473-490 | What is mapped above the programs does not concern them |
| UserMemory.UsersClear | kernel/vm.c:351-359 | Nor does taking a page out of the program's reach |
| UserMemory.NewSpace | kernel/vm.c:209-218 | A new address space is one without a program |
| UserMemory.UvmAlloc | kernel/vm.c:238-262 | The program grows by exactly the pages asked for, zeroed, over new frames, readable by the user and writable exactly when asked; when memory runs out every frame taken is given back and no translation differs |
| UserMemory.UserBits | kernel/vm.c:255 | PTE_R and PTE_U are set and PTE_W is the caller's, whatever the caller asks for |
| UserMemory.UsersCopy | kernel/vm.c:366-414 | Any range of a program can be handed to copyin and copyout: user frames, all different |
| UserMemory.GrowAndUse | kernel/vm.c:238-414 | Bytes copied out to memory a program has just got are stored exactly when it asked for writable memory, and are read back |
| UserMemory.AllocOne | kernel/vm.c:247-258 | One turn of uvmalloc; a frame that cannot be mapped is freed |
| UserMemory.GiveBack | kernel/vm.c:249-257 | uvmdealloc of what was mapped so far undoes it: translations and frames are those before the call |
| UserMemory.UvmDealloc | kernel/vm.c:268-280 | Exactly the pages above the new size go, with exactly their frames |
| UserMemory.UvmClear | kernel/vm.c:350-359 | One page is out of the program's reach and stays mapped |
| UserMemory.ForkCopy | kernel/proc.c:294-299 | As fork calls it uvmcopy copies the whole program or gives back every frame it took |

## Left out

- Spinlocks, sleeplocks, interrupts and the memory model: a critical section is one step. A kill takes
  only the victim's own lock, so `ToolRpc` lets one fall between the look at the killed flag and the sleep.
- Readers that run while a commit is writing: `Log.Log.EndOp` is one step for them, though every disk
  write inside it is a possible crash point.
- 64-bit and tick counters (sequence numbers of messages, generations, versions, vruntime, ticks,
  identities, pids) do not wrap; the context sequence number and the digest hash do.
- Disk addresses of inodes and their on-disk encoding: `FileSystem` keeps inodes as values, and logging
  one is logging the block that holds it.
- FileSystem.Fs.Iupdate: logs the inode's block, whose bytes are not represented; `FileCrash` takes them
  to be any function of the inodes in that block.
- FreeMap.Store.Write: the flat array stands for what `Log` proves the log layer to show; the calls of
  `Log.Log` behind it are not repeated, and `FileCrash` meets it at the blocks each transaction logs.
- FileSystem.Fs.Evict: buffers with unlogged contents are recycled between calls, not inside one.
- FileSystem.Fs.Filewrite: no other call touches the file between two of its transactions.
- FileCrash.CrashLeavesOperations: operations that share a transaction come one after another rather than
  block by block, and those beside the call leave its file alone and nothing unlogged behind.
- Directories, path lookup, inode allocation and reference counts, pipes, devices, exec and mmap.
- Text of requests, records and results, capability and role checks, leases, metrics and audit lines:
  records are byte strings, and a check settled by one branch is a parameter.
- TimerWheel.Wheel.Tick: takes the bucket and serves it in one step, and leaves budgets and leases to
  others; `heartbeat_min_deadline` is only ever written and is not represented.
- Workflow.Kernel.ScanStep: of what the cascade does to a process only the killed flag is kept here; the
  rest is in `AgentWait.Agent.Cascade` and `TimerWheel.Wheel.Finish`.
- Workflow.Kernel.MarkPrimary: the process has left its old workflow in a step of its own before.
- Scheduler.CpuScheduler.Pick: the scan of one processor is one step; another processor's changes come
  before or after it. An agent is neither created nor reset during the runs it speaks about.
- QueryIndex.FileIndex.ContentChanged: the directory walk that finds the files is a parameter, and
  rebuilding and the version bump are one step; so is a whole query.
- QueryIndex.FileIndex.QueryFile: parsing the query text is a parameter, the answer is its data rather
  than its text, and memory is never short.
- ContextPath.Context.Push: the text of the record is given; a process without a region is not represented.
- Allocator.Heap.Malloc: memory obtained by other callers of `sbrk` may lie between chunks but is not
  taken back; the process's size is a multiple of 16 bytes; block contents are the caller's.
- PageTable.Memory.Walk: an address from MAXVA on, where the code panics, is excluded; the code's other
  panics (unaligned or empty ranges, remapping, copying a page that is not present) are conditions of
  the methods concerned.
- The TLB, hardware access bits and the pages behind kernel mappings.
- UserMemory.UvmAlloc: a size beyond VMA_START, which exceeds the memory of the machine, is excluded.
- `uvmfirst`, `uvmfree`, `freewalk`, `copyinstr` and `mmap_handler`: short compositions of the operations
  modelled. What `mmap_handler` and the trap frame map lies above the program (`UserMemory.UsersBelow`).
- The contents of `baseline-xv6/`, the shell, the metric and test programs and the model bridge.
