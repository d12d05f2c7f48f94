/**
  A crash in the middle of filewrite. Each of its chunks is an operation of its own, and end_op commits
  whole operations, several at once when others are under way. So what recovery finds is the file with a
  whole number of chunks, however far the machine got and however often it went down while recovering.
*/
module FileCrash {
  import opened Blocks
  import opened LogRecovery
  import opened FreeMap
  import opened Ownership
  import opened FileSystem
  import Log

  /** Does block b hold inodes? */
  ghost predicate HoldsInodes(inodes: nat, inodestart: nat, b: nat) {
    exists i :: 0 <= i < inodes && i / IPB + inodestart == b
  }

  /** The bytes of inode blocks, which the file-system model leaves open: they depend on the inodes of that
    * block and on nothing else. */
  ghost predicate Images(image: (seq<Inode>, nat) -> Block, inodestart: nat) {
    forall n0, n1, b | |n0| == |n1| && SameInodes(n0, n1, inodestart, b) :: image(n0, b) == image(n1, b)
  }

  ghost predicate SameInodes(n0: seq<Inode>, n1: seq<Inode>, inodestart: nat, b: nat)
    requires |n0| == |n1|
  {
    forall i :: 0 <= i < |n0| && i / IPB + inodestart == b ==> n0[i] == n1[i]
  }

  /** The disk contents after a stage. */
  ghost predicate Shows(f: Disk, s: Stage, image: (seq<Inode>, nat) -> Block, inodestart: nat) {
    && |f| == |s.block|
    && forall b :: 0 <= b < |f| ==>
         f[b] == if HoldsInodes(|s.inode|, inodestart, b) then image(s.inode, b) else Durable(s)[b]
  }

  /** The operations from one stage to the next write to disk only blocks that they or those before them in
    * the same transaction have logged. */
  ghost predicate Logs(s: Stage, s': Stage, pinned: set<nat>, inodestart: nat) {
    && |s'.block| == |s.block| && |s'.inode| == |s.inode|
    && (forall b :: 0 <= b < |s.block| && Durable(s')[b] != Durable(s)[b] ==> b in s'.logged + pinned)
    && (forall i :: 0 <= i < |s.inode| && s'.inode[i] != s.inode[i] ==> i / IPB + inodestart in s'.logged + pinned)
  }

  /** The blocks logged after stage a up to stage c. */
  function LoggedIn(stages: seq<Stage>, a: nat, c: nat): set<nat>
    requires c < |stages|
  {
    if c <= a then {} else LoggedIn(stages, a, c - 1) + stages[c].logged
  }

  ghost predicate Names(lh: seq<nat>, logged: set<nat>) {
    forall b :: b in lh <==> b in logged
  }

  /** The transaction end_op commits: the blocks its operations logged, as the cache holds them. */
  ghost predicate Commits(l: Layout, f: Disk, logged: set<nat>, t: Txn) {
    && TxnOk(l, |f|, t) && Names(t.lh, logged)
    && t.data == Log.DataOf(f, t.lh)
  }

  /**
    The file system goes from stage to stage, one operation each, fs[k] what the disk holds once the first k
    are committed. Transaction i commits the operations after stage cuts[i] up to stage cuts[i + 1].
   */
  ghost predicate Course(l: Layout, fs: seq<Disk>, ts: seq<Txn>, cuts: seq<nat>, stages: seq<Stage>,
                         image: (seq<Inode>, nat) -> Block, inodestart: nat)
  {
    && |fs| == |stages| > 0 && Cuts(cuts, |ts|, |stages|) && Images(image, inodestart)
    && (forall k :: 0 <= k < |stages| ==> Shows(fs[k], stages[k], image, inodestart))
    && (forall i :: 0 <= i < |ts| ==> Commits(l, fs[cuts[i + 1]], LoggedIn(stages, cuts[i], cuts[i + 1]), ts[i]))
  }

  ghost predicate Cuts(cuts: seq<nat>, n: nat, m: nat) {
    && |cuts| == n + 1 && cuts[0] == 0
    && forall i, j | 0 <= i <= j <= n :: cuts[i] <= cuts[j] < m
  }

  /** Every operation logs what it changes on disk, or finds it logged. */
  ghost predicate AllLogged(stages: seq<Stage>, cuts: seq<nat>, inodestart: nat) {
    && (forall i :: 0 <= i < |cuts| ==> cuts[i] < |stages|)
    && forall i, k | 0 < i < |cuts| && cuts[i - 1] < k <= cuts[i] ::
         Logs(stages[k - 1], stages[k], LoggedIn(stages, cuts[i - 1], k - 1), inodestart)
  }

  ghost predicate GroupLogs(stages: seq<Stage>, a: nat, c: nat, inodestart: nat)
    requires c < |stages|
  {
    forall k :: a < k <= c ==> Logs(stages[k - 1], stages[k], LoggedIn(stages, a, k - 1), inodestart)
  }

  /** One operation changes nothing on disk but what is logged by then. */
  lemma OperationLands(f: Disk, f': Disk, s: Stage, s': Stage, pinned: set<nat>, image: (seq<Inode>, nat) -> Block,
                       inodestart: nat, b: nat)
    requires Images(image, inodestart) && Shows(f, s, image, inodestart) && Shows(f', s', image, inodestart)
    requires Logs(s, s', pinned, inodestart) && b !in s'.logged + pinned
    ensures |f'| == |f| && (b < |f| ==> f'[b] == f[b])
  {
    hide Durable;
    if b < |f| && HoldsInodes(|s.inode|, inodestart, b) {
      assert SameInodes(s.inode, s'.inode, inodestart, b);
    }
  }

  lemma {:induction false} GroupLands(fs: seq<Disk>, stages: seq<Stage>, image: (seq<Inode>, nat) -> Block,
                                      inodestart: nat, a: nat, c: nat, k: nat, b: nat)
    requires |fs| == |stages| && a <= k <= c < |stages| && Images(image, inodestart)
    requires forall k :: 0 <= k < |stages| ==> Shows(fs[k], stages[k], image, inodestart)
    requires GroupLogs(stages, a, c, inodestart) && b !in LoggedIn(stages, a, k)
    ensures |fs[k]| == |fs[a]| && (b < |fs[a]| ==> fs[k][b] == fs[a][b])
  {
    hide Shows, Images, Logs;
    if k > a {
      GroupLands(fs, stages, image, inodestart, a, c, k - 1, b);
      OperationLands(fs[k - 1], fs[k], stages[k - 1], stages[k], LoggedIn(stages, a, k - 1), image, inodestart, b);
    }
  }

  /** Committing a group takes the disk contents before its operations to those after all of them. */
  lemma GroupCommits(l: Layout, fs: seq<Disk>, t: Txn, stages: seq<Stage>, image: (seq<Inode>, nat) -> Block,
                     inodestart: nat, a: nat, c: nat)
    requires |fs| == |stages| && a <= c < |stages| && Images(image, inodestart)
    requires forall k :: 0 <= k < |stages| ==> Shows(fs[k], stages[k], image, inodestart)
    requires GroupLogs(stages, a, c, inodestart) && Commits(l, fs[c], LoggedIn(stages, a, c), t)
    ensures |t.data| == |t.lh| && Update(Homes(l, fs[a]), t) == Homes(l, fs[c])
  {
    hide Shows, Images, Logs, LoggedIn, Loggable;
    GroupSize(fs, stages, image, inodestart, a, c);
    forall b | 0 <= b < |fs[a]| && b !in t.lh
      ensures fs[c][b] == fs[a][b]
    {
      GroupLands(fs, stages, image, inodestart, a, c, c, b);
    }
    LandsAll(l, fs[a], fs[c], t);
  }

  lemma {:induction false} GroupSize(fs: seq<Disk>, stages: seq<Stage>, image: (seq<Inode>, nat) -> Block,
                                     inodestart: nat, a: nat, c: nat)
    requires |fs| == |stages| && a <= c < |stages| && GroupLogs(stages, a, c, inodestart)
    requires forall k :: 0 <= k < |stages| ==> Shows(fs[k], stages[k], image, inodestart)
    ensures |fs[c]| == |fs[a]|
  {
    if c > a {
      GroupSize(fs, stages, image, inodestart, a, c - 1);
      assert Shows(fs[c - 1], stages[c - 1], image, inodestart) && Shows(fs[c], stages[c], image, inodestart);
    }
  }

  lemma LandsAll(l: Layout, f: Disk, f': Disk, t: Txn)
    requires |f'| == |f| && TxnOk(l, |f|, t) && t.data == Log.DataOf(f', t.lh)
    requires forall b :: 0 <= b < |f| && b !in t.lh ==> f'[b] == f[b]
    ensures Update(Homes(l, f), t) == Homes(l, f')
  {
  }

  /** The first k transactions leave the disk at the k-th cut. */
  lemma {:induction false} CourseSoFar(l: Layout, fs: seq<Disk>, ts: seq<Txn>, cuts: seq<nat>, stages: seq<Stage>,
                                       image: (seq<Inode>, nat) -> Block, inodestart: nat, k: nat)
    requires Course(l, fs, ts, cuts, stages, image, inodestart) && AllLogged(stages, cuts, inodestart) && k <= |ts|
    ensures forall t :: t in ts[..k] ==> |t.data| == |t.lh|
    ensures UpdateAll(Homes(l, fs[0]), ts[..k]) == Homes(l, fs[cuts[k]])
  {
    hide Shows, Commits, Logs, Homes, Update, Images;
    if k > 0 {
      CourseSoFar(l, fs, ts, cuts, stages, image, inodestart, k - 1);
      assert ts[..k][..k - 1] == ts[..k - 1] && ts[..k] == ts[..k - 1] + [ts[k - 1]];
      assert Commits(l, fs[cuts[k - 1 + 1]], LoggedIn(stages, cuts[k - 1], cuts[k - 1 + 1]), ts[k - 1]);
      GroupCommits(l, fs, ts[k - 1], stages, image, inodestart, cuts[k - 1], cuts[k]);
    }
  }

  // ---------------------------------------------------------------- what the file holds

  /** An operation as the file sees it: a chunk of the call, of which so many bytes are counted and so many are
    * kept on disk, or an operation of somebody else. */
  datatype Op = Chunk(counted: nat, kept: nat) | Other

  function CountedBy(ops: seq<Op>, k: nat): nat
    requires k <= |ops|
  {
    if k == 0 then 0 else CountedBy(ops, k - 1) + if ops[k - 1].Chunk? then ops[k - 1].counted else 0
  }

  function KeptBy(ops: seq<Op>, k: nat): nat
    requires k <= |ops|
  {
    if k == 0 then 0 else KeptBy(ops, k - 1) + if ops[k - 1].Chunk? then ops[k - 1].kept else 0
  }

  /** What the disk holds of the file at a stage: some bytes of src from off on, and otherwise what was there. */
  ghost predicate Holds(first: Stage, s: Stage, inum: nat, src: seq<byte>, off: nat, counted: nat, kept: nat) {
    && inum < |s.inode| == |first.inode| && kept <= |src|
    && s.inode[inum].size == Max(first.inode[inum].size, if counted == 0 then 0 else off + counted)
    && forall x :: 0 <= x < s.inode[inum].size ==>
         FileByte(s, inum, x) == if off <= x < off + kept then src[x - off] else FileByte(first, inum, x)
  }

  /** Byte x of a file, as the disk holds it. */
  ghost function FileByte(s: Stage, inum: nat, x: nat): byte {
    ByteAt(Durable(s), s.inode, inum, x)
  }

  /** A chunk as WriteStage performs it, after i bytes of the call. */
  ghost predicate WritesChunk(s: Stage, s': Stage, op: Op, inum: nat, src: seq<byte>, off: nat, i: nat)
    requires op.Chunk?
  {
    && s.stray == map[] && op.counted <= op.kept && i + op.kept <= |src|
    && (op.kept > 0 ==> inum < |s.inode| && off + i <= s.inode[inum].size)
    && OnlyInode(s.inode, s'.inode, inum, if op.counted == 0 then 0 else off + i + op.counted)
    && Overwritten(s.block, s.inode, Durable(s'), s'.inode, inum, src[i..i + op.kept], off + i, op.kept)
  }

  /** An operation that leaves this file's bytes on disk alone. */
  ghost predicate LeavesFile(s: Stage, s': Stage, inum: nat) {
    && inum < |s.inode| == |s'.inode| && s'.inode[inum].size == s.inode[inum].size
    && forall x :: 0 <= x < s.inode[inum].size ==> FileByte(s', inum, x) == FileByte(s, inum, x)
  }

  /** The chunks of one call, in order, with operations of others anywhere between them. A chunk cut short is
    * the last one. */
  ghost predicate Call(stages: seq<Stage>, ops: seq<Op>, inum: nat, src: seq<byte>, off: nat) {
    && |stages| == |ops| + 1 && inum < |stages[0].inode|
    && forall k :: 0 <= k < |ops| ==> Turn(stages[k], stages[k + 1], ops, k, inum, src, off)
  }

  ghost predicate Turn(s: Stage, s': Stage, ops: seq<Op>, k: nat, inum: nat, src: seq<byte>, off: nat)
    requires k < |ops|
  {
    match ops[k]
    case Other => LeavesFile(s, s', inum)
    case Chunk(_, _) =>
      KeptBy(ops, k) == CountedBy(ops, k) && WritesChunk(s, s', ops[k], inum, src, off, CountedBy(ops, k))
  }

  lemma {:induction false} CallHolds(stages: seq<Stage>, ops: seq<Op>, inum: nat, src: seq<byte>, off: nat, k: nat)
    requires Call(stages, ops, inum, src, off) && k <= |ops|
    ensures Holds(stages[0], stages[k], inum, src, off, CountedBy(ops, k), KeptBy(ops, k))
    ensures CountedBy(ops, k) <= KeptBy(ops, k)
  {
    hide Turn, Holds;
    if k == 0 {
      HoldsNothing(stages[0], inum, src, off);
    } else {
      CallHolds(stages, ops, inum, src, off, k - 1);
      assert Turn(stages[k - 1], stages[k - 1 + 1], ops, k - 1, inum, src, off);
      TurnHolds(stages[0], stages[k - 1], stages[k], ops, k - 1, inum, src, off);
    }
  }

  lemma HoldsNothing(s: Stage, inum: nat, src: seq<byte>, off: nat)
    requires inum < |s.inode|
    ensures Holds(s, s, inum, src, off, 0, 0)
  {
  }

  lemma TurnHolds(first: Stage, s: Stage, s': Stage, ops: seq<Op>, k: nat, inum: nat, src: seq<byte>, off: nat)
    requires k < |ops| && Turn(s, s', ops, k, inum, src, off)
    requires Holds(first, s, inum, src, off, CountedBy(ops, k), KeptBy(ops, k)) && CountedBy(ops, k) <= KeptBy(ops, k)
    ensures Holds(first, s', inum, src, off, CountedBy(ops, k + 1), KeptBy(ops, k + 1))
    ensures CountedBy(ops, k + 1) <= KeptBy(ops, k + 1)
  {
    if ops[k].Chunk? {
      ChunkHolds(first, s, s', ops[k], inum, src, off, CountedBy(ops, k));
    }
  }

  /** A chunk takes the file that holds i bytes of the call to one that holds so many more. */
  lemma ChunkHolds(first: Stage, s: Stage, s': Stage, op: Op, inum: nat, src: seq<byte>, off: nat, i: nat)
    requires op.Chunk? && WritesChunk(s, s', op, inum, src, off, i) && Holds(first, s, inum, src, off, i, i)
    ensures Holds(first, s', inum, src, off, i + op.counted, i + op.kept)
  {
    hide ByteAt;
    DurableIsSeen(s);
    var part := src[i..i + op.kept];
    forall x | 0 <= x < s'.inode[inum].size
      ensures FileByte(s', inum, x) ==
              if off <= x < off + i + op.kept then src[x - off] else FileByte(first, inum, x)
    {
      assert FileByte(s', inum, x) == if off + i <= x < off + i + op.kept then part[x - (off + i)] else
                                      FileByte(s, inum, x);
    }
  }

  // ---------------------------------------------------------------- crashes

  /**
    However a run of commits, crashes and recoveries goes in which the transactions that reach the disk are
    those of the file system's operations, as far as it got: the disk recovers to what some whole number of
    operations left, and there the file holds the bytes of exactly the chunks among them.
   */
  lemma CrashLeavesOperations(l: Layout, ms: seq<Machine>, es: seq<Event>, fs: seq<Disk>, ts: seq<Txn>,
                              cuts: seq<nat>, stages: seq<Stage>, ops: seq<Op>, image: (seq<Inode>, nat) -> Block,
                              inodestart: nat, inum: nat, src: seq<byte>, off: nat)
    requires IsRun(l, ms, es) && Booted(l, ms[0]) && Course(l, fs, ts, cuts, stages, image, inodestart)
    requires AllLogged(stages, cuts, inodestart) && View(l, ms[0].d) == Homes(l, fs[0]) && Committed(es) <= ts
    requires Call(stages, ops, inum, src, off)
    ensures var c := cuts[|Committed(es)|];
            && View(l, ms[|es|].d) == Homes(l, fs[c])
            && (ms[|es|].up ==> Homes(l, ms[|es|].d) == Homes(l, fs[c]))
            && Holds(stages[0], stages[c], inum, src, off, CountedBy(ops, c), KeptBy(ops, c))
  {
    hide IsRun, View, Homes, Course, Holds, Turn;
    CrashLeavesCut(l, ms, es, fs, ts, cuts, stages, image, inodestart);
    CallHolds(stages, ops, inum, src, off, cuts[|Committed(es)|]);
  }

  lemma CrashLeavesCut(l: Layout, ms: seq<Machine>, es: seq<Event>, fs: seq<Disk>, ts: seq<Txn>, cuts: seq<nat>,
                       stages: seq<Stage>, image: (seq<Inode>, nat) -> Block, inodestart: nat)
    requires IsRun(l, ms, es) && Booted(l, ms[0]) && Course(l, fs, ts, cuts, stages, image, inodestart)
    requires AllLogged(stages, cuts, inodestart) && View(l, ms[0].d) == Homes(l, fs[0]) && Committed(es) <= ts
    ensures |Committed(es)| < |cuts| && cuts[|Committed(es)|] < |stages| == |fs|
    ensures var c := cuts[|Committed(es)|];
            && View(l, ms[|es|].d) == Homes(l, fs[c])
            && (ms[|es|].up ==> Homes(l, ms[|es|].d) == Homes(l, fs[c]))
  {
    hide IsRun, View, Homes, Course;
    var j := |Committed(es)|;
    RunIsAtomic(l, ms, es);
    CourseShape(l, fs, ts, cuts, stages, image, inodestart);
    CourseSoFar(l, fs, ts, cuts, stages, image, inodestart, j);
    assert Committed(es) == ts[..j];
  }

  lemma CourseShape(l: Layout, fs: seq<Disk>, ts: seq<Txn>, cuts: seq<nat>, stages: seq<Stage>,
                    image: (seq<Inode>, nat) -> Block, inodestart: nat)
    requires Course(l, fs, ts, cuts, stages, image, inodestart)
    ensures |fs| == |stages| > 0 && Cuts(cuts, |ts|, |stages|)
  {
  }

  // ---------------------------------------------------------------- operations of filewrite

  /** A chunk that WriteStage has written is such an operation, whoever shares its transaction. */
  lemma StageIsChunk(s: Stage, s': Stage, pinned: set<nat>, inum: nat, inodestart: nat, src: seq<byte>, off: nat,
                     i: nat, r: int, kept: nat)
    requires Durably(s, Sharing(s', pinned), inum, inum / IPB + inodestart) && s.stray == map[]
    requires inum < |s.inode| && Max(r, 0) <= kept && i + kept <= |src|
    requires if r < 0 then kept == 0 else off + i <= s.inode[inum].size
    requires OnlyInode(s.inode, s'.inode, inum, if r < 0 then 0 else off + i + r)
    requires Overwritten(s.block, s.inode, Durable(s'), s'.inode, inum, src[i..i + kept], off + i, kept)
    ensures Logs(s, s', pinned, inodestart)
    ensures WritesChunk(s, s', Chunk(Max(r, 0), kept), inum, src, off, i)
  {
    hide Overwritten;
    assert Durable(Sharing(s', pinned)) == Durable(s');
  }

  /** One chunk, in a transaction that other operations may share. */
  method WriteChunkOf(fs: Fs, inum: nat, src: seq<byte>, off: nat, i: nat, n: nat, ghost committed: bool)
    returns (r: int, ghost stage: Stage, ghost kept: nat)
    requires fs.Valid() && inum < |fs.inode| && i <= |src| <= n && i < n && off + i < WORD_LIMIT
    modifies fs, fs.store`block, fs.store`logged, fs.store`stray, fs.store`pinned
    ensures fs.Valid() && stage == Stage(fs.store.block, fs.inode, fs.store.stray, fs.store.logged)
    ensures fs.store.pinned == if committed then {} else old(fs.store.pinned + fs.store.logged)
    ensures Max(r, 0) <= kept < Max(r, 0) + BSIZE && (committed || r == Min(n - i, MAXWRITE) ==> kept == Max(r, 0))
    ensures old(fs.store.stray) == map[] ==>
              && Logs(old(fs.Now()), stage, fs.store.pinned, fs.inodestart)
              && WritesChunk(old(fs.Now()), stage, Chunk(Max(r, 0), kept), inum, src, off, i)
  {
    hide Fs.Valid, Overwritten, Durably, Durable, TailLogs, Logs, WritesChunk, OnlyInode;
    ghost var was := fs.Now();
    ghost var t;
    r, t, stage := fs.WriteStage(inum, src, i, off + i, n, committed);
    kept := if committed || stage.stray != map[] then Max(r, 0) else t;
    if was.stray == map[] {
      StageIsChunk(was, stage, fs.store.pinned, inum, fs.inodestart, src, off, i, r, kept);
    }
  }

  /** To every other file it is an operation of somebody else. */
  lemma ChunkLeaves(s: Stage, s': Stage, op: Op, inum: nat, src: seq<byte>, off: nat, i: nat, j: nat)
    requires op.Chunk? && WritesChunk(s, s', op, inum, src, off, i) && j < |s.inode| && j != inum
    ensures LeavesFile(s, s', j)
  {
    hide ByteAt;
    DurableIsSeen(s);
  }

  /** Truncation too, in a transaction that other operations may share. On disk the file's blocks become free
    * together with the inode that referred to them, or not at all. */
  method TruncateOf(fs: Fs, inum: nat, ghost committed: bool) returns (ok: bool, ghost stage: Stage)
    requires fs.Valid() && inum < |fs.inode|
    modifies fs, fs.store`block, fs.store`logged, fs.store`stray, fs.store`pinned
    ensures ok && fs.Valid() && stage == Stage(fs.store.block, fs.inode, fs.store.stray, fs.store.logged)
    ensures fs.store.pinned == if committed then {} else old(fs.store.pinned + fs.store.logged)
    ensures Logs(old(fs.Now()), stage, fs.store.pinned, fs.inodestart)
    ensures forall j :: 0 <= j < |fs.inode| && j != inum ==> LeavesFile(old(fs.Now()), stage, j)
    ensures stage.inode[inum] == Inode(0, seq(NDIRECT + 1, i => 0))
    ensures forall b :: b in fs.owner <==> b in old(fs.owner) && old(fs.owner)[b].inum != inum
  {
    hide Owned, InUse, Dense, Durably, Durable, Logs, LeavesFile, LogsChanges;
    ghost var was, owner := fs.Now(), fs.owner;
    ok, stage := fs.TruncStage(inum, committed);
    SharedLogs(was, stage, fs.store.pinned, fs.inodestart, inum);
    forall j | 0 <= j < |fs.inode| && j != inum
      ensures LeavesFile(was, stage, j)
    {
      TruncLeaves(fs.store.sb, was, stage, owner, j);
    }
  }

  lemma SharedLogs(s: Stage, s': Stage, pinned: set<nat>, inodestart: nat, inum: nat)
    requires Durably(s, Sharing(s', pinned), inum, inum / IPB + inodestart)
    ensures Logs(s, s', pinned, inodestart)
  {
    assert Durable(Sharing(s', pinned)) == Durable(s');
  }

  lemma TruncLeaves(sb: Super, s: Stage, s': Stage, owner: map<nat, Slot>, j: nat)
    requires Owned(sb, s.block, s.inode, owner, NO_CUT) && Astray(sb, s.stray, owner)
    requires |s'.inode| == |s.inode| && |s'.block| == |s.block| && j < |s.inode| && s'.inode[j] == s.inode[j]
    requires forall b :: sb.datastart <= b < |s.block| ==> Durable(s')[b] == Durable(s)[b]
    ensures LeavesFile(s, s', j)
  {
    forall x | 0 <= x < s.inode[j].size
      ensures FileByte(s', j, x) == FileByte(s, j, x)
    {
      var slot := FileSlot(j, x / BSIZE);
      DurableVal(sb, s, owner, slot);
      SameVal(sb, s, s', owner, slot);
      hide Owned, Val, Durable, Astray;
      if Val(s.block, s.inode, NO_CUT, slot) != 0 {
        ValInData(sb, s.block, s.inode, owner, slot);
      }
    }
  }

  /** No indirect block is stray, so on disk every slot refers to what readers see it refer to. */
  lemma DurableVal(sb: Super, s: Stage, owner: map<nat, Slot>, slot: Slot)
    requires Owned(sb, s.block, s.inode, owner, NO_CUT) && Astray(sb, s.stray, owner)
    ensures Val(Durable(s), s.inode, NO_CUT, slot) == Val(s.block, s.inode, NO_CUT, slot)
  {
    if slot.Entry? && SlotOk(s.inode, slot) {
      var ind := s.inode[slot.inum].addrs[NDIRECT];
      if ind != 0 {
        IndirectOwned(sb, s.block, s.inode, owner, slot.inum);
      }
    }
  }

  lemma IndirectOwned(sb: Super, block: seq<Block>, inode: seq<Inode>, owner: map<nat, Slot>, inum: nat)
    requires Owned(sb, block, inode, owner, NO_CUT) && inum < |inode| && inode[inum].addrs[NDIRECT] != 0
    ensures var ind := inode[inum].addrs[NDIRECT];
            && sb.datastart <= ind < |block| && ind in owner && owner[ind].Indirect?
  {
    assert Val(block, inode, NO_CUT, Indirect(inum)) == inode[inum].addrs[NDIRECT];
    assert Owns(owner, Val(block, inode, NO_CUT, Indirect(inum)), Indirect(inum));
  }

  lemma SameVal(sb: Super, s: Stage, s': Stage, owner: map<nat, Slot>, slot: Slot)
    requires Owned(sb, s.block, s.inode, owner, NO_CUT)
    requires |s'.inode| == |s.inode| && |s'.block| == |s.block|
    requires slot.inum < |s.inode| && s'.inode[slot.inum] == s.inode[slot.inum]
    requires forall b :: sb.datastart <= b < |s.block| ==> Durable(s')[b] == Durable(s)[b]
    ensures Val(Durable(s'), s'.inode, NO_CUT, slot) == Val(Durable(s), s.inode, NO_CUT, slot)
  {
    if slot.Entry? && SlotOk(s.inode, slot) && s.inode[slot.inum].addrs[NDIRECT] != 0 {
      IndirectOwned(sb, s.block, s.inode, owner, slot.inum);
    }
  }

  /** Each chunk a transaction of its own. */
  function Every(n: nat): (cuts: seq<nat>)
    ensures |cuts| == n + 1 && forall i :: 0 <= i <= n ==> cuts[i] == i
  {
    seq(n + 1, i requires 0 <= i => i)
  }

  /** What filewrite promises of its stages is all a commit of each needs. */
  lemma ChunksLogged(first: Stage, stages: seq<Stage>, inodestart: nat, inum: nat)
    requires forall k :: 0 <= k < |stages| ==>
               Durably(Before(first, stages, k), stages[k], inum, inum / IPB + inodestart)
    ensures AllLogged([first] + stages, Every(|stages|), inodestart)
  {
    hide Durably, Logs, LoggedIn;
    var all, cuts := [first] + stages, Every(|stages|);
    forall i, k | 0 < i < |cuts| && cuts[i - 1] < k <= cuts[i]
      ensures Logs(all[k - 1], all[k], LoggedIn(all, cuts[i - 1], k - 1), inodestart)
    {
      assert Durably(Before(first, stages, k - 1), stages[k - 1], inum, inum / IPB + inodestart);
      DurablyLogs(all[k - 1], all[k], LoggedIn(all, cuts[i - 1], k - 1), inodestart, inum);
    }
  }

  lemma DurablyLogs(s: Stage, s': Stage, pinned: set<nat>, inodestart: nat, inum: nat)
    requires Durably(s, s', inum, inum / IPB + inodestart)
    ensures Logs(s, s', pinned, inodestart)
  {
    hide Durable;
  }

  /**
    A call of filewrite with no other operation beside it: the durable contents are those after some number
    of its chunks, and the file then holds the bytes of exactly those chunks, as many as were counted.
   */
  lemma CrashLeavesChunks(l: Layout, ms: seq<Machine>, es: seq<Event>, fs: seq<Disk>, ts: seq<Txn>, first: Stage,
                          stages: seq<Stage>, image: (seq<Inode>, nat) -> Block, inodestart: nat, inum: nat,
                          src: seq<byte>, off: nat, pos: nat)
    requires IsRun(l, ms, es) && Booted(l, ms[0])
    requires Course(l, fs, ts, Every(|stages|), [first] + stages, image, inodestart)
    requires View(l, ms[0].d) == Homes(l, fs[0]) && Committed(es) <= ts
    requires DurableSoFar(first, stages, inum, inum / IPB + inodestart, src, off, pos)
    ensures var j := |Committed(es)|;
            && View(l, ms[|es|].d) == Homes(l, fs[j])
            && (ms[|es|].up ==> Homes(l, ms[|es|].d) == Homes(l, fs[j]))
            && (first.stray == map[] && j > 0 ==>
                  DurableBytes(first, stages[j - 1], inum, src, off, Reached(stages, j - 1, off, pos)))
  {
    hide IsRun, View, Homes, Course, Durably, DurableBytes, Reached, AllLogged;
    ChunksLogged(first, stages, inodestart, inum);
    CourseShape(l, fs, ts, Every(|stages|), [first] + stages, image, inodestart);
    CrashLeavesCut(l, ms, es, fs, ts, Every(|stages|), [first] + stages, image, inodestart);
  }

  // ---------------------------------------------------------------- every one of them happens

  /** What the disk holds of block b at a stage. */
  ghost function Drawn(s: Stage, image: (seq<Inode>, nat) -> Block, inodestart: nat, b: nat): Block
    requires b < |s.block|
  {
    if HoldsInodes(|s.inode|, inodestart, b) then image(s.inode, b) else Durable(s)[b]
  }

  ghost function Picture(s: Stage, image: (seq<Inode>, nat) -> Block, inodestart: nat): (f: Disk)
    ensures Shows(f, s, image, inodestart)
  {
    seq<Block>(|s.block|, b requires 0 <= b < |s.block| => Drawn(s, image, inodestart, b))
  }

  /** Whatever the stages, if the blocks of each group fit the log, there are disk contents and transactions
    * that go with them. */
  lemma CourseExists(l: Layout, cuts: seq<nat>, lists: seq<seq<nat>>, stages: seq<Stage>,
                     image: (seq<Inode>, nat) -> Block, inodestart: nat) returns (fs: seq<Disk>, ts: seq<Txn>)
    requires Cuts(cuts, |lists|, |stages|) && Images(image, inodestart)
    requires forall i :: 0 <= i < |lists| ==>
               && Loggable(l, |stages[cuts[i + 1]].block|, lists[i])
               && Names(lists[i], LoggedIn(stages, cuts[i], cuts[i + 1]))
    ensures Course(l, fs, ts, cuts, stages, image, inodestart)
  {
    hide Images;
    fs := seq(|stages|, k requires 0 <= k < |stages| => Picture(stages[k], image, inodestart));
    ts := seq(|lists|, i requires 0 <= i < |lists| => Gathered(fs[cuts[i + 1]], lists[i]));
    forall i | 0 <= i < |lists|
      ensures Commits(l, fs[cuts[i + 1]], LoggedIn(stages, cuts[i], cuts[i + 1]), ts[i])
    {
      assert Shows(fs[cuts[i + 1]], stages[cuts[i + 1]], image, inodestart);
      GatheredCommits(l, fs[cuts[i + 1]], lists[i], LoggedIn(stages, cuts[i], cuts[i + 1]));
    }
  }

  /** The transaction of these blocks. */
  ghost function Gathered(f: Disk, lh: seq<nat>): (t: Txn)
    ensures t.lh == lh && ((forall i :: 0 <= i < |lh| ==> lh[i] < |f|) ==> t.data == Log.DataOf(f, lh))
  {
    if forall i :: 0 <= i < |lh| ==> lh[i] < |f| then Txn(lh, Log.DataOf(f, lh)) else Txn(lh, [])
  }

  lemma GatheredCommits(l: Layout, f: Disk, lh: seq<nat>, logged: set<nat>)
    requires Loggable(l, |f|, lh) && Names(lh, logged)
    ensures Commits(l, f, logged, Gathered(f, lh))
  {
  }

  /** And any number of the transactions may be what has reached the disk when the machine goes down. */
  lemma {:induction false} RunExists(l: Layout, d: Disk, ts: seq<Txn>, j: nat)
    returns (ms: seq<Machine>, es: seq<Event>)
    requires WellFormed(l, d) && Head(l, d) == [] && j <= |ts| && forall t :: t in ts ==> TxnOk(l, |d|, t)
    ensures IsRun(l, ms, es) && ms[0] == Machine(d, true) && Committed(es) == ts[..j] && |ms[|es|].d| == |d|
    ensures ms[|es|].up && Head(l, ms[|es|].d) == []
  {
    hide WellFormed, Head, TxnOk, Next, Committed;
    if j == 0 {
      ms, es := [Machine(d, true)], [];
      NothingCommitted();
    } else {
      ms, es := RunExists(l, d, ts, j - 1);
      var e := Commit(ts[j - 1]);
      CommitNext(l, ms[|es|], ts[j - 1]);
      RunExtends(l, ms, es, e);
      CommitsOne(es, ts[j - 1]);
      assert ts[..j] == ts[..j - 1] + [ts[j - 1]];
      ms, es := ms + [Next(l, ms[|es|], e)], es + [e];
    }
  }

  lemma NothingCommitted()
    ensures Committed([]) == []
  {
  }

  lemma CommitsOne(es: seq<Event>, t: Txn)
    ensures Committed(es + [Commit(t)]) == Committed(es) + [t]
  {
    assert (es + [Commit(t)])[..|es|] == es;
  }

  lemma CommitNext(l: Layout, m: Machine, t: Txn)
    requires WellFormed(l, m.d) && m.up && Head(l, m.d) == [] && TxnOk(l, |m.d|, t)
    ensures Booted(l, m) && Enabled(l, m, Commit(t))
    ensures var m' := Next(l, m, Commit(t));
            && m'.up && |m'.d| == |m.d| && Head(l, m'.d) == []
  {
    hide WellFormed, Head, TxnOk;
    NextKeeps(l, m, Commit(t));
  }

  /** A disk of six blocks with a log of three, inodes in block 4, and a file of one byte in block 5. */
  function OneByteFile(x: byte, logged: set<nat>): Stage {
    Stage([Zero(), Zero(), Zero(), Zero(), Zero(), Zero()[0 := x]],
          [Inode(1, seq(NDIRECT + 1, i => if i == 0 then 5 else 0))], map[], logged)
  }

  lemma OneByteDurable(y: byte, x: byte)
    ensures DurableSoFar(OneByteFile(y, {}), [OneByteFile(x, {4, 5})], 0, 0 / IPB + 4, [x], 0, 1)
  {
    var s0, s1 := OneByteFile(y, {}), OneByteFile(x, {4, 5});
    DurableIsSeen(s0);
    DurableIsSeen(s1);
    assert forall x :: 0 <= x < 1 ==> BlockOf(s1.block, s1.inode, 0, x / BSIZE) == 5;
  }

  /** The byte is written over, and the machine goes down when one transaction is through: a call with a run of
    * the kind CrashLeavesChunks is about, and the new byte on disk. */
  lemma OneByteSurvives(y: byte, x: byte, image: (seq<Inode>, nat) -> Block)
    returns (l: Layout, ms: seq<Machine>, es: seq<Event>, fs: seq<Disk>, ts: seq<Txn>)
    requires Images(image, 4)
    ensures IsRun(l, ms, es) && Booted(l, ms[0])
    ensures Course(l, fs, ts, Every(1), [OneByteFile(y, {}), OneByteFile(x, {4, 5})], image, 4)
    ensures View(l, ms[0].d) == Homes(l, fs[0]) && Committed(es) == ts && |ts| == 1
    ensures DurableSoFar(OneByteFile(y, {}), [OneByteFile(x, {4, 5})], 0, 0 / IPB + 4, [x], 0, 1)
    ensures 5 in View(l, ms[|es|].d) && View(l, ms[|es|].d)[5] == Zero()[0 := x]
  {
    hide DurableSoFar, View, Homes, Committed, IsRun, Images, Course, OneByteFile, LoggedIn, Names, Loggable,
      WellFormed, Head, TxnOk, DurableBytes, Reached, Every, UpdateAll, Zero;
    var s0, s1 := OneByteFile(y, {}), OneByteFile(x, {4, 5});
    l := Layout(1, 3);
    OneByteListed(y, x);
    fs, ts := CourseExists(l, Every(1), [[4, 5]], [s0, s1], image, 4);
    OneByteDrawn(l, fs, ts, y, x, image);
    ms, es := RunExists(l, fs[0], ts, 1);
    assert ts[..1] == ts;
    EmptyLogView(l, fs[0]);
    OneByteDurable(y, x);
    assert [s0] + [s1] == [s0, s1];
    CrashLeavesChunks(l, ms, es, fs, ts, s0, [s1], image, 4, 0, [x], 0, 1);
  }

  lemma OneByteListed(y: byte, x: byte)
    ensures Names([4, 5], LoggedIn([OneByteFile(y, {}), OneByteFile(x, {4, 5})], 0, 1))
    ensures Loggable(Layout(1, 3), |OneByteFile(x, {4, 5}).block|, [4, 5])
  {
  }

  lemma OneByteDrawn(l: Layout, fs: seq<Disk>, ts: seq<Txn>, y: byte, x: byte, image: (seq<Inode>, nat) -> Block)
    requires Course(l, fs, ts, Every(1), [OneByteFile(y, {}), OneByteFile(x, {4, 5})], image, 4) && l == Layout(1, 3)
    ensures |ts| == 1 && |fs| == 2 && |fs[0]| == 6 && WellFormed(l, fs[0]) && Head(l, fs[0]) == []
    ensures TxnOk(l, 6, ts[0]) && 5 in Homes(l, fs[1]) && Homes(l, fs[1])[5] == Zero()[0 := x]
  {
    hide Images, OneByteFile, WellFormed, Head, TxnOk, LoggedIn, Shows;
    var stages := [OneByteFile(y, {}), OneByteFile(x, {4, 5})];
    assert Shows(fs[0], stages[0], image, 4) && Shows(fs[1], stages[1], image, 4);
    OneByteShown(fs[0], y, {}, image);
    OneByteShown(fs[1], x, {4, 5}, image);
    EmptyHeader(fs[0]);
    assert Commits(l, fs[Every(1)[0 + 1]], LoggedIn(stages, Every(1)[0], Every(1)[0 + 1]), ts[0]);
  }

  lemma OneByteShown(f: Disk, x: byte, logged: set<nat>, image: (seq<Inode>, nat) -> Block)
    requires Shows(f, OneByteFile(x, logged), image, 4)
    ensures |f| == 6 && f[1] == Zero() && f[5] == Zero()[0 := x]
  {
    DurableIsSeen(OneByteFile(x, logged));
  }

  lemma EmptyHeader(d: Disk)
    requires |d| == 6 && d[1] == Zero()
    ensures WellFormed(Layout(1, 3), d) && Head(Layout(1, 3), d) == []
  {
    hide Word;
    ZeroWords(0);
    assert HeadList(d[1]) == [];
  }
}
