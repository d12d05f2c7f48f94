/**
  What the redo log leaves on disk. Every function here is about the sequence of block writes that
  commit() and recover_from_log() issue; power may be lost between any two of them.
*/
module LogRecovery {
  import opened Blocks

  const MAXOPBLOCKS: nat := 10
  const LOGSIZE: nat := MAXOPBLOCKS * 3

  type Disk = seq<Block>
  datatype Write = Write(blockno: nat, data: Block)

  /** log.start and log.size: a header block followed by size - 1 log blocks. */
  datatype Layout = Layout(start: nat, size: nat)

  /** The blocks one commit carries: lh.block[..n] and the cached contents of those blocks. */
  datatype Txn = Txn(lh: seq<nat>, data: seq<Block>)

  predicate Home(l: Layout, b: nat) {
    b < l.start || l.start + l.size <= b
  }

  /** lh.n and lh.block as read_head finds them in a header block. */
  function HeadList(hd: Block): seq<nat> {
    seq(Word(hd, 0), i requires 0 <= i => if i + 1 < WORDS then Word(hd, i + 1) else 0)
  }

  function PutEntries(hd: Block, lh: seq<nat>, i: nat): (r: Block)
    requires i <= |lh| <= LOGSIZE
    requires forall j :: 0 <= j < |lh| ==> lh[j] < WORD_LIMIT
    ensures Word(r, 0) == Word(hd, 0)
    ensures forall k :: 1 <= k <= i ==> Word(r, k) == Word(hd, k)
    ensures forall k :: i < k <= |lh| ==> Word(r, k) == lh[k - 1]
    decreases |lh| - i
  {
    if i == |lh| then hd else PutEntries(PutWord(hd, i + 1, lh[i]), lh, i + 1)
  }

  /** The header block after write_head: words beyond the n entries keep what was there before. */
  function EncodeHead(hd: Block, lh: seq<nat>): (r: Block)
    requires |lh| <= LOGSIZE
    requires forall j :: 0 <= j < |lh| ==> lh[j] < WORD_LIMIT
    ensures HeadList(r) == lh
  {
    var r := PutEntries(PutWord(hd, 0, |lh|), lh, 0);
    assert HeadList(r) == lh;
    r
  }

  /** The list names distinct blocks on the disk outside the log, and fits in the log area. */
  predicate Loggable(l: Layout, size: nat, lh: seq<nat>) {
    && |lh| <= LOGSIZE
    && |lh| + 1 <= l.size
    && Distinct(lh)
    && forall i :: 0 <= i < |lh| ==> lh[i] < size && lh[i] < WORD_LIMIT && Home(l, lh[i])
  }

  predicate WellFormed(l: Layout, d: Disk) {
    && 1 <= l.size
    && l.start + l.size <= |d|
    && Loggable(l, |d|, HeadList(d[l.start]))
  }

  predicate TxnOk(l: Layout, size: nat, t: Txn) {
    Loggable(l, size, t.lh) && |t.data| == |t.lh|
  }

  function Head(l: Layout, d: Disk): seq<nat>
    requires l.start < |d|
  {
    HeadList(d[l.start])
  }

  /** Block b, which held `was`, after the first `done` of a transaction's blocks have been copied home. */
  function Installed(t: Txn, done: int, b: nat, was: Block): Block
    requires |t.data| == |t.lh|
  {
    var i := IndexOf(t.lh, b);
    if i < |t.lh| && i < done then t.data[i] else was
  }

  /** The transaction the on-disk log holds. */
  function Logged(l: Layout, d: Disk): (t: Txn)
    requires WellFormed(l, d)
    ensures |t.data| == |t.lh|
  {
    Txn(Head(l, d), d[l.start + 1..l.start + 1 + |Head(l, d)|])
  }

  /** The durable contents of the disk: the home blocks recovery would produce. */
  function View(l: Layout, d: Disk): map<nat, Block>
    requires WellFormed(l, d)
  {
    Update(Homes(l, d), Logged(l, d))
  }

  /** The home blocks exactly as they lie on disk. */
  function Homes(l: Layout, d: Disk): map<nat, Block> {
    map b | 0 <= b < |d| && Home(l, b) :: d[b]
  }

  /** One atomic update of the home blocks named by a transaction. */
  function Update(v: map<nat, Block>, t: Txn): map<nat, Block>
    requires |t.data| == |t.lh|
  {
    map b | b in v :: Installed(t, |t.lh|, b, v[b])
  }

  function UpdateAll(v: map<nat, Block>, ts: seq<Txn>): map<nat, Block>
    requires forall t :: t in ts ==> |t.data| == |t.lh|
  {
    if ts == [] then v else Update(UpdateAll(v, ts[..|ts| - 1]), ts[|ts| - 1])
  }

  predicate InDisk(ws: seq<Write>, size: nat) {
    forall i :: 0 <= i < |ws| ==> ws[i].blockno < size
  }

  function Apply(d: Disk, ws: seq<Write>): (r: Disk)
    requires InDisk(ws, |d|)
    ensures |r| == |d|
  {
    if ws == [] then d
    else Apply(d, ws[..|ws| - 1])[ws[|ws| - 1].blockno := ws[|ws| - 1].data]
  }

  lemma ApplyOne(d: Disk, ws: seq<Write>, w: Write)
    requires InDisk(ws, |d|)
    requires w.blockno < |d|
    ensures Apply(d, ws + [w]) == Apply(d, ws)[w.blockno := w.data]
  {
    assert (ws + [w])[..|ws|] == ws;
  }

  lemma {:induction false} ApplyConcat(d: Disk, a: seq<Write>, b: seq<Write>)
    requires InDisk(a, |d|)
    requires InDisk(b, |d|)
    ensures Apply(d, a + b) == Apply(Apply(d, a), b)
  {
    if b == [] {
      assert a + b == a;
    } else {
      ApplyConcat(d, a, b[..|b| - 1]);
      assert (a + b)[..|a + b| - 1] == a + b[..|b| - 1];
    }
  }

  lemma {:induction false} ApplyAgree(d: Disk, f: Disk, ws: seq<Write>, b: nat)
    requires |d| == |f| && b < |d| && InDisk(ws, |d|)
    requires d[b] == f[b]
    ensures Apply(d, ws)[b] == Apply(f, ws)[b]
  {
    if ws != [] {
      ApplyAgree(d, f, ws[..|ws| - 1], b);
    }
  }

  lemma EmptyLogView(l: Layout, d: Disk)
    requires WellFormed(l, d) && Head(l, d) == []
    ensures View(l, d) == Homes(l, d)
  {
  }

  // ---------------------------------------------------------------- commit

  /** The header block write_head issues for a transaction, and the one that erases it again. */
  function FullHead(l: Layout, d: Disk, t: Txn): Block
    requires WellFormed(l, d) && TxnOk(l, |d|, t)
  {
    EncodeHead(d[l.start], t.lh)
  }

  function ClearedHead(l: Layout, d: Disk, t: Txn): Block
    requires WellFormed(l, d) && TxnOk(l, |d|, t)
  {
    EncodeHead(FullHead(l, d, t), [])
  }

  /** The k-th disk write of commit(): n log blocks, the header, n home blocks, the empty header. */
  function CommitWrite(l: Layout, d: Disk, t: Txn, k: nat): Write
    requires WellFormed(l, d) && TxnOk(l, |d|, t)
    requires k < 2 * |t.lh| + 2
  {
    var n := |t.lh|;
    if k < n then Write(l.start + 1 + k, t.data[k])
    else if k == n then Write(l.start, FullHead(l, d, t))
    else if k < 2 * n + 1 then Write(t.lh[k - n - 1], t.data[k - n - 1])
    else Write(l.start, ClearedHead(l, d, t))
  }

  function CommitLength(t: Txn): nat {
    if t.lh == [] then 0 else 2 * |t.lh| + 2
  }

  function CommitWrites(l: Layout, d: Disk, t: Txn): (ws: seq<Write>)
    requires WellFormed(l, d) && TxnOk(l, |d|, t)
    ensures |ws| == CommitLength(t)
    ensures InDisk(ws, |d|)
  {
    seq(CommitLength(t), k requires 0 <= k < CommitLength(t) => CommitWrite(l, d, t, k))
  }

  function PhaseHead(l: Layout, d0: Disk, t: Txn, k: nat): Block
    requires WellFormed(l, d0) && TxnOk(l, |d0|, t)
  {
    if k <= |t.lh| then d0[l.start] else if k <= 2 * |t.lh| + 1 then FullHead(l, d0, t) else ClearedHead(l, d0, t)
  }

  /** The disk d after the first k writes of committing t on the disk d0. */
  predicate CommitPhase(l: Layout, d0: Disk, t: Txn, k: nat, d: Disk)
    requires WellFormed(l, d0) && TxnOk(l, |d0|, t)
    requires k <= 2 * |t.lh| + 2
  {
    var n := |t.lh|;
    && |d| == |d0|
    && (forall i :: 0 <= i < n && i < k ==> d[l.start + 1 + i] == t.data[i])
    && d[l.start] == PhaseHead(l, d0, t, k)
    && (forall b :: 0 <= b < |d| && Home(l, b) ==> d[b] == Installed(t, k - n - 1, b, d0[b]))
  }

  /** The three stretches of commit()'s writes, as the three loops of log.c produce them. */
  function LogCopies(l: Layout, size: nat, t: Txn): (ws: seq<Write>)
    requires l.start + l.size <= size && |t.lh| + 1 <= l.size && |t.data| == |t.lh|
    ensures |ws| == |t.lh| && InDisk(ws, size)
  {
    seq(|t.lh|, k requires 0 <= k < |t.lh| => Write(l.start + 1 + k, t.data[k]))
  }

  function Installs(l: Layout, size: nat, t: Txn): (ws: seq<Write>)
    requires |t.data| == |t.lh| && forall i :: 0 <= i < |t.lh| ==> t.lh[i] < size
    ensures |ws| == |t.lh| && InDisk(ws, size)
  {
    seq(|t.lh|, k requires 0 <= k < |t.lh| => Write(t.lh[k], t.data[k]))
  }

  lemma CommitPieces(l: Layout, d: Disk, t: Txn, k: nat)
    requires WellFormed(l, d) && TxnOk(l, |d|, t) && t.lh != [] && k <= |t.lh|
    ensures var n, ws := |t.lh|, CommitWrites(l, d, t);
            && ws[..k] == LogCopies(l, |d|, t)[..k]
            && ws[..n + 1] == ws[..n] + [Write(l.start, FullHead(l, d, t))]
            && ws[..n + 1 + k] == ws[..n + 1] + Installs(l, |d|, t)[..k]
            && ws == ws[..2 * n + 1] + [Write(l.start, ClearedHead(l, d, t))]
  {
    hide WellFormed, FullHead, ClearedHead;
  }

  lemma CommitPhaseStep(l: Layout, d0: Disk, t: Txn, k: nat, d: Disk)
    requires WellFormed(l, d0) && TxnOk(l, |d0|, t)
    requires k < 2 * |t.lh| + 2
    requires CommitPhase(l, d0, t, k, d)
    ensures var w := CommitWrite(l, d0, t, k);
            CommitPhase(l, d0, t, k + 1, d[w.blockno := w.data])
  {
    hide EncodeHead, HeadList, PutEntries, PutWord, Word;
    var n := |t.lh|;
    var w := CommitWrite(l, d0, t, k);
    if n < k < 2 * n + 1 {
      var j := k - n - 1;
      IndexOfAt(t.lh, j);
      forall b | 0 <= b < |d| && Home(l, b) && b != t.lh[j]
        ensures IndexOf(t.lh, b) != j
      {
      }
    }
  }

  lemma IndexOfAt(s: seq<nat>, j: nat)
    requires Distinct(s) && j < |s|
    ensures IndexOf(s, s[j]) == j
  {
    assert s[IndexOf(s, s[j])] == s[j];
  }

  /** Before the header is on disk the transaction has not happened; from then on it has, entirely. */
  lemma CommitPhaseView(l: Layout, d0: Disk, t: Txn, k: nat, d: Disk)
    requires WellFormed(l, d0) && TxnOk(l, |d0|, t)
    requires Head(l, d0) == []
    requires k <= 2 * |t.lh| + 2
    requires CommitPhase(l, d0, t, k, d)
    ensures WellFormed(l, d)
    ensures View(l, d) == if k <= |t.lh| then View(l, d0) else Update(View(l, d0), t)
    ensures k == 2 * |t.lh| + 2 ==> Head(l, d) == []
  {
    hide EncodeHead, HeadList, PutEntries, PutWord, Word, IndexOf, Distinct, View, Update;
    var n := |t.lh|;
    assert HeadList(PhaseHead(l, d0, t, k)) == if n < k <= 2 * n + 1 then t.lh else [];
    EmptyLogView(l, d0);
    if n < k <= 2 * n + 1 {
      assert Logged(l, d) == t by {
        assert Logged(l, d).data == t.data;
      }
      InstalledTwice(l, d0, t, k - n - 1, d);
    } else {
      EmptyLogView(l, d);
      CommitPhaseHomes(l, d0, t, k, d);
    }
  }

  /** Redoing a transaction over homes that already hold some of its blocks gives the same result. */
  lemma InstalledTwice(l: Layout, d0: Disk, t: Txn, done: int, d: Disk)
    requires |d| == |d0| && |t.data| == |t.lh|
    requires WellFormed(l, d) && Logged(l, d) == t
    requires forall b :: 0 <= b < |d| && Home(l, b) ==> d[b] == Installed(t, done, b, d0[b])
    ensures View(l, d) == Update(Homes(l, d0), t)
  {
    hide HeadList, IndexOf, WellFormed;
  }

  lemma CommitPhaseHomes(l: Layout, d0: Disk, t: Txn, k: nat, d: Disk)
    requires WellFormed(l, d0) && TxnOk(l, |d0|, t)
    requires k <= |t.lh| || k == 2 * |t.lh| + 2
    requires CommitPhase(l, d0, t, k, d)
    ensures Homes(l, d) == if k <= |t.lh| then Homes(l, d0) else Update(Homes(l, d0), t)
  {
    hide HeadList, IndexOf, WellFormed, PhaseHead;
  }

  lemma {:induction false} CommitPrefix(l: Layout, d0: Disk, t: Txn, k: nat)
    requires WellFormed(l, d0) && TxnOk(l, |d0|, t)
    requires k <= CommitLength(t)
    ensures CommitPhase(l, d0, t, k, Apply(d0, CommitWrites(l, d0, t)[..k]))
  {
    hide WellFormed, TxnOk, CommitPhase, CommitWrite, EncodeHead;
    var ws := CommitWrites(l, d0, t);
    if k == 0 {
      assert ws[..0] == [];
      CommitPhaseStart(l, d0, t);
    } else {
      CommitPrefix(l, d0, t, k - 1);
      assert ws[..k] == ws[..k - 1] + [ws[k - 1]];
      ApplyOne(d0, ws[..k - 1], ws[k - 1]);
      CommitPhaseStep(l, d0, t, k - 1, Apply(d0, ws[..k - 1]));
    }
  }

  lemma CommitPhaseStart(l: Layout, d0: Disk, t: Txn)
    requires WellFormed(l, d0) && TxnOk(l, |d0|, t)
    ensures CommitPhase(l, d0, t, 0, d0)
  {
    hide HeadList, IndexOf, EncodeHead;
  }

  /** Losing power after any k disk writes of commit() loses the whole transaction or none of it. */
  lemma CommitAtomic(l: Layout, d0: Disk, t: Txn, k: nat)
    requires WellFormed(l, d0) && TxnOk(l, |d0|, t) && Head(l, d0) == []
    requires k <= CommitLength(t)
    ensures var d := Apply(d0, CommitWrites(l, d0, t)[..k]);
            && WellFormed(l, d)
            && View(l, d) == (if k <= |t.lh| then View(l, d0) else Update(View(l, d0), t))
            && (k == CommitLength(t) ==> Head(l, d) == [])
  {
    hide WellFormed, TxnOk, CommitPhase, CommitWrite, View, Update, HeadList, EncodeHead;
    CommitPrefix(l, d0, t, k);
    CommitPhaseView(l, d0, t, k, Apply(d0, CommitWrites(l, d0, t)[..k]));
    if t.lh == [] {
      assert CommitWrites(l, d0, t)[..k] == [];
    }
  }

  // ---------------------------------------------------------------- recovery

  /** The k-th disk write of recover_from_log(): n home blocks copied from the log, the empty header. */
  function RecoverWrite(l: Layout, d: Disk, k: nat): Write
    requires WellFormed(l, d)
    requires k < |Head(l, d)| + 1
  {
    if k < |Head(l, d)| then Write(Head(l, d)[k], d[l.start + 1 + k])
    else Write(l.start, EncodeHead(d[l.start], []))
  }

  function RecoverWrites(l: Layout, d: Disk): (ws: seq<Write>)
    requires WellFormed(l, d)
    ensures |ws| == |Head(l, d)| + 1
    ensures InDisk(ws, |d|)
  {
    seq(|Head(l, d)| + 1, k requires 0 <= k < |Head(l, d)| + 1 => RecoverWrite(l, d, k))
  }

  lemma RecoverPieces(l: Layout, d: Disk, k: nat)
    requires WellFormed(l, d) && k <= |Head(l, d)|
    ensures var n, ws := |Head(l, d)|, RecoverWrites(l, d);
            && ws[..k] == Installs(l, |d|, Logged(l, d))[..k]
            && ws == ws[..n] + [Write(l.start, EncodeHead(d[l.start], []))]
  {
    hide EncodeHead, HeadList;
  }

  predicate RecoverPhase(l: Layout, d0: Disk, k: nat, d: Disk)
    requires WellFormed(l, d0)
    requires k <= |Head(l, d0)| + 1
  {
    var lh := Head(l, d0);
    && |d| == |d0|
    && (forall b :: l.start < b < l.start + l.size ==> d[b] == d0[b])
    && d[l.start] == (if k <= |lh| then d0[l.start] else EncodeHead(d0[l.start], []))
    && (forall b :: 0 <= b < |d| && Home(l, b) ==> d[b] == Installed(Logged(l, d0), k, b, d0[b]))
  }

  lemma RecoverPhaseStep(l: Layout, d0: Disk, k: nat, d: Disk)
    requires WellFormed(l, d0)
    requires k < |Head(l, d0)| + 1
    requires RecoverPhase(l, d0, k, d)
    ensures var w := RecoverWrite(l, d0, k);
            RecoverPhase(l, d0, k + 1, d[w.blockno := w.data])
  {
    hide EncodeHead, HeadList, PutEntries, PutWord, Word, Installed, IndexOf;
    var t, w := Logged(l, d0), RecoverWrite(l, d0, k);
    forall b | 0 <= b < |d| && Home(l, b)
      ensures d[w.blockno := w.data][b] == Installed(t, k + 1, b, d0[b])
    {
      InstalledStep(t, k, b, d0[b]);
    }
  }

  /** One more block has been copied home. */
  lemma InstalledStep(t: Txn, k: nat, b: nat, was: Block)
    requires |t.data| == |t.lh| && Distinct(t.lh)
    ensures Installed(t, k + 1, b, was) == if k < |t.lh| && b == t.lh[k] then t.data[k] else Installed(t, k, b, was)
  {
    if k < |t.lh| {
      IndexOfAt(t.lh, k);
    }
  }

  lemma RecoverPhaseView(l: Layout, d0: Disk, k: nat, d: Disk)
    requires WellFormed(l, d0)
    requires k <= |Head(l, d0)| + 1
    requires RecoverPhase(l, d0, k, d)
    ensures WellFormed(l, d)
    ensures View(l, d) == View(l, d0)
    ensures k == |Head(l, d0)| + 1 ==> Head(l, d) == [] && Homes(l, d) == View(l, d0)
  {
    hide EncodeHead, HeadList, PutEntries, PutWord, Word, IndexOf;
    if k <= |Head(l, d0)| {
      assert Logged(l, d) == Logged(l, d0) by {
        assert Logged(l, d).data == Logged(l, d0).data;
      }
    } else {
      assert View(l, d) == Homes(l, d);
    }
  }

  lemma {:induction false} RecoverPrefix(l: Layout, d0: Disk, k: nat)
    requires WellFormed(l, d0)
    requires k <= |Head(l, d0)| + 1
    ensures RecoverPhase(l, d0, k, Apply(d0, RecoverWrites(l, d0)[..k]))
  {
    hide WellFormed, RecoverPhase, RecoverWrite, RecoverWrites, EncodeHead, Head, Apply;
    var ws := RecoverWrites(l, d0);
    if k == 0 {
      ApplyFirst(d0, ws);
      RecoverPhaseStart(l, d0);
    } else {
      RecoverPrefix(l, d0, k - 1);
      ApplyPrefix(d0, ws, k);
      RecoverWriteAt(l, d0, k - 1);
      RecoverPhaseStep(l, d0, k - 1, Apply(d0, ws[..k - 1]));
    }
  }

  lemma RecoverWriteAt(l: Layout, d: Disk, k: nat)
    requires WellFormed(l, d) && k < |Head(l, d)| + 1
    ensures RecoverWrites(l, d)[k] == RecoverWrite(l, d, k)
  {
  }

  lemma ApplyFirst(d: Disk, ws: seq<Write>)
    requires InDisk(ws, |d|)
    ensures Apply(d, ws[..0]) == d
  {
  }

  lemma ApplyPrefix(d: Disk, ws: seq<Write>, k: nat)
    requires InDisk(ws, |d|) && 0 < k <= |ws|
    ensures Apply(d, ws[..k]) == Apply(d, ws[..k - 1])[ws[k - 1].blockno := ws[k - 1].data]
  {
    assert ws[..k] == ws[..k - 1] + [ws[k - 1]];
    ApplyOne(d, ws[..k - 1], ws[k - 1]);
  }

  lemma RecoverPhaseStart(l: Layout, d0: Disk)
    requires WellFormed(l, d0)
    ensures RecoverPhase(l, d0, 0, d0)
  {
    hide HeadList, IndexOf, EncodeHead;
  }

  /** Losing power after any k writes of recovery changes nothing durable; finishing it installs the view. */
  lemma RecoverIdempotent(l: Layout, d0: Disk, k: nat)
    requires WellFormed(l, d0)
    requires k <= |Head(l, d0)| + 1
    ensures var d := Apply(d0, RecoverWrites(l, d0)[..k]);
            && WellFormed(l, d)
            && View(l, d) == View(l, d0)
            && (k == |Head(l, d0)| + 1 ==> Head(l, d) == [] && Homes(l, d) == View(l, d0))
  {
    RecoverPrefix(l, d0, k);
    RecoverPhaseView(l, d0, k, Apply(d0, RecoverWrites(l, d0)[..k]));
  }

  // ---------------------------------------------------------------- whole runs

  /** The life of a disk: commits and recoveries, each completed or cut off after `done` disk writes. */
  datatype Event =
    | Commit(t: Txn)
    | CrashInCommit(t: Txn, done: nat)
    | Recover
    | CrashInRecover(done: nat)

  /** A disk together with whether the machine that uses it is up (has finished recovery). */
  datatype Machine = Machine(d: Disk, up: bool)

  predicate Enabled(l: Layout, m: Machine, e: Event)
    requires WellFormed(l, m.d)
  {
    match e
    case Commit(t) => m.up && TxnOk(l, |m.d|, t)
    case CrashInCommit(t, done) => m.up && TxnOk(l, |m.d|, t) && done <= CommitLength(t)
    case Recover => !m.up
    case CrashInRecover(done) => !m.up && done <= |Head(l, m.d)| + 1
  }

  function Next(l: Layout, m: Machine, e: Event): Machine
    requires WellFormed(l, m.d)
    requires Enabled(l, m, e)
  {
    match e
    case Commit(t) => Machine(Apply(m.d, CommitWrites(l, m.d, t)), true)
    case CrashInCommit(t, done) => Machine(Apply(m.d, CommitWrites(l, m.d, t)[..done]), false)
    case Recover => Machine(Apply(m.d, RecoverWrites(l, m.d)), true)
    case CrashInRecover(done) => Machine(Apply(m.d, RecoverWrites(l, m.d)[..done]), false)
  }

  /** The transactions that must survive: commits that completed or got their header onto the disk. */
  function Committed(es: seq<Event>): (ts: seq<Txn>) {
    if es == [] then []
    else
      var ts := Committed(es[..|es| - 1]);
      match es[|es| - 1]
      case Commit(t) => ts + [t]
      case CrashInCommit(t, done) => if done > |t.lh| then ts + [t] else ts
      case _ => ts
  }

  /** A run is a sequence of machines linked by enabled events. */
  predicate IsRun(l: Layout, ms: seq<Machine>, es: seq<Event>) {
    && |ms| == |es| + 1
    && (forall i :: 0 <= i < |ms| ==> WellFormed(l, ms[i].d))
    && (forall i :: 0 <= i < |es| ==> Enabled(l, ms[i], es[i]) && ms[i + 1] == Next(l, ms[i], es[i]))
  }

  predicate Booted(l: Layout, m: Machine)
    requires WellFormed(l, m.d)
  {
    m.up ==> Head(l, m.d) == []
  }

  /** A machine that is down can always recover and is up then, and one that is up can commit any transaction;
    * power may go after any number of the writes of either. */
  lemma AnythingMayHappen(l: Layout, m: Machine, t: Txn)
    requires WellFormed(l, m.d)
    ensures !m.up ==>
              && Enabled(l, m, Recover) && Next(l, m, Recover).up
              && forall done :: 0 <= done <= |RecoverWrites(l, m.d)| ==>
                   Enabled(l, m, CrashInRecover(done)) && !Next(l, m, CrashInRecover(done)).up
    ensures m.up && TxnOk(l, |m.d|, t) ==>
              && Enabled(l, m, Commit(t)) && Next(l, m, Commit(t)).up
              && forall done :: 0 <= done <= |CommitWrites(l, m.d, t)| ==>
                   Enabled(l, m, CrashInCommit(t, done)) && !Next(l, m, CrashInCommit(t, done)).up
  {
    hide WellFormed, TxnOk, Apply, HeadList;
  }

  lemma NextKeeps(l: Layout, m: Machine, e: Event)
    requires WellFormed(l, m.d) && Booted(l, m) && Enabled(l, m, e)
    ensures var m' := Next(l, m, e);
            && WellFormed(l, m'.d)
            && Booted(l, m')
            && View(l, m'.d) == (match e
                 case Commit(t) => Update(View(l, m.d), t)
                 case CrashInCommit(t, done) => if done > |t.lh| then Update(View(l, m.d), t) else View(l, m.d)
                 case _ => View(l, m.d))
  {
    match e
    case Commit(t) =>
      var ws := CommitWrites(l, m.d, t);
      assert ws[..|ws|] == ws;
      CommitAtomic(l, m.d, t, |ws|);
      if t.lh == [] {
        assert Update(View(l, m.d), t) == View(l, m.d);
      }
    case CrashInCommit(t, done) => CommitAtomic(l, m.d, t, done);
    case Recover =>
      var ws := RecoverWrites(l, m.d);
      assert ws[..|ws|] == ws;
      RecoverIdempotent(l, m.d, |ws|);
    case CrashInRecover(done) => RecoverIdempotent(l, m.d, done);
  }

  /** An enabled event never leaves the well-formed disks, so a run can go on from any state it reaches. */
  lemma RunExtends(l: Layout, ms: seq<Machine>, es: seq<Event>, e: Event)
    requires IsRun(l, ms, es) && Booted(l, ms[0]) && Booted(l, ms[|es|])
    requires Enabled(l, ms[|es|], e)
    ensures IsRun(l, ms + [Next(l, ms[|es|], e)], es + [e])
  {
    hide EncodeHead, HeadList, PutEntries, PutWord, Word;
    NextKeeps(l, ms[|es|], e);
  }

  lemma {:induction false} CommittedOk(l: Layout, ms: seq<Machine>, es: seq<Event>)
    requires IsRun(l, ms, es)
    ensures forall t :: t in Committed(es) ==> |t.data| == |t.lh|
  {
    if es != [] {
      var k := |es| - 1;
      CommittedOk(l, ms[..k + 1], es[..k]);
      assert Enabled(l, ms[k], es[k]);
    }
  }

  /**
    Crash atomicity over whole runs: however commits, crashes inside commits, recoveries and crashes
    inside recoveries follow one another, the durable contents are those of the transactions whose
    header reached the disk, applied whole and in order; and once the machine is up again they lie
    in the home blocks themselves.
   */
  lemma {:induction false} RunIsAtomic(l: Layout, ms: seq<Machine>, es: seq<Event>)
    requires IsRun(l, ms, es) && Booted(l, ms[0])
    ensures Booted(l, ms[|es|])
    ensures forall t :: t in Committed(es) ==> |t.data| == |t.lh|
    ensures View(l, ms[|es|].d) == UpdateAll(View(l, ms[0].d), Committed(es))
    ensures ms[|es|].up ==> Homes(l, ms[|es|].d) == UpdateAll(View(l, ms[0].d), Committed(es))
  {
    hide HeadList, WellFormed, View, Update, Next, Homes, Enabled;
    CommittedOk(l, ms, es);
    if es != [] {
      var k := |es| - 1;
      RunIsAtomic(l, ms[..k + 1], es[..k]);
      NextKeeps(l, ms[k], es[k]);
      assert ms[k + 1] == Next(l, ms[k], es[k]);
      var ts := Committed(es[..k]);
      if Committed(es) != ts {
        assert Committed(es)[..|ts|] == ts;
      }
    }
    if ms[|es|].up {
      EmptyLogView(l, ms[|es|].d);
    }
  }
}
