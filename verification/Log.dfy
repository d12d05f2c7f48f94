/**
  The logging layer over the buffer cache: what file-system calls see is one flat array of blocks,
  and what survives a crash is that array as it stood at the last commit.
*/
module Log {
  import opened Blocks
  import opened LogRecovery
  import opened BufferCache
  import LogSpace

  class Log {
    const cache: Cache
    const start: nat
    const size: nat
    var outstanding: nat
    var committing: bool
    var n: nat
    var block: seq<nat>

    ghost var ops: seq<set<nat>>   // for each operation between begin_op and end_op, the blocks it logged
    ghost var dirty: set<nat>      // blocks changed by their holder and not logged yet

    ghost function L(): Layout {
      Layout(start, size)
    }

    ghost function Listed(): seq<nat>
      reads this
    {
      if n <= |block| then block[..n] else []
    }

    ghost predicate Shape()
      reads this, cache
    {
      && cache.Valid()
      && |cache.flat| == |cache.disk| && |cache.refs| == |cache.disk|
      && start + size <= |cache.disk| <= WORD_LIMIT && size > 0
      && |block| == LOGSIZE && n <= LOGSIZE
      && Tidy(L(), cache.loose, Listed())
    }

    /** What the caller of initlog hands over: a disk with an on-disk log at the superblock's place. */
    ghost predicate OnDisk()
      reads this, cache
    {
      Shape() && WellFormed(L(), cache.disk)
    }

    /** The state between critical sections of the logging layer, no commit in progress. */
    ghost predicate Valid()
      reads this, cache
    {
      && OnDisk()
      && Head(L(), cache.disk) == []
      && !committing
      && Loggable(L(), |cache.disk|, Listed())
      && outstanding == |ops|
      && LogSpace.Reserved(LogSpace.Space(Listed(), ops))
      && (dirty != {} ==> outstanding > 0)
      && Balanced(L(), cache.disk, cache.flat, cache.refs, Listed(), dirty)
    }

    /** References held by file-system calls rather than by the log. */
    ghost function Users(b: nat): int
      reads this, cache
    {
      if b < |cache.refs| then cache.refs[b] - Pins(Listed(), b) else 0
    }

    /** The transaction a commit starting now would write: the listed blocks as the cache holds them. */
    ghost function Pending(): Txn
      requires n <= |block| && (forall i :: 0 <= i < n ==> block[i] < |cache.flat|)
      reads this, cache
    {
      Txn(Listed(), DataOf(cache.flat, Listed()))
    }

    /** Exactly the writes ws have been issued since the disk was d0 and the flat contents f0. */
    ghost predicate Issued(d0: Disk, f0: Disk, w0: seq<Write>, ws: seq<Write>)
      reads this, cache
    {
      IssuedAs(d0, f0, w0, ws, cache.disk, cache.flat, cache.writes)
    }

    constructor (cache: Cache, start: nat, size: nat)
      requires cache.Valid() && WellFormed(Layout(start, size), cache.disk) && |cache.disk| <= WORD_LIMIT
      requires cache.loose == map[]
      ensures this.cache == cache && this.start == start && this.size == size
      ensures OnDisk()
      ensures outstanding == 0 && !committing && ops == [] && dirty == {}
    {
      this.cache, this.start, this.size := cache, start, size;
      outstanding, committing, n, block := 0, false, 0, seq(LOGSIZE, i => 0);
      ops, dirty := [], {};
    }

    // -------------------------------------------------------------- one block at a time

    /** The body of write_log's loop: copy one cached block to its log block. False is a panic in bget. */
    method WriteLogOne(tail: nat) returns (ok: bool)
      requires Shape() && tail < n && tail + 1 < size
      requires block[tail] < |cache.disk| && Home(L(), block[tail]) && cache.refs[block[tail]] > 0
      modifies cache
      ensures Shape() && Fewer(cache.loose, old(cache.loose))
      ensures cache.refs == old(cache.refs)
      ensures ok <==> !old(cache.Full(start + 1 + tail))
      ensures !ok ==> unchanged(cache)
      ensures ok ==>
                var to, data := start + 1 + tail, old(cache.flat)[block[tail]];
                && cache.disk == old(cache.disk)[to := data]
                && cache.flat == old(cache.flat)[to := data]
                && cache.writes == old(cache.writes) + [Write(to, data)]
    {
      hide Coherent, Lru, WellFormed, Loggable, HeadList, Referenced;
      var to := cache.Bread(ROOTDEV, start + tail + 1);
      if to == HEAD {
        return false;
      }
      var from := cache.Bread(ROOTDEV, block[tail]);
      assert from != HEAD && from != to;
      CopyToLog(from, to);
      assert cache.refs == old(cache.refs);
      return true;
    }

    /** memmove(to->data, from->data), bwrite and both releases. */
    method CopyToLog(from: nat, to: nat)
      requires cache.Held(from) && cache.Held(to) && cache.buf[from].blockno != cache.buf[to].blockno
      requires cache.refs[cache.buf[from].blockno] > 1 && cache.buf[to].blockno !in cache.loose
      modifies cache
      ensures cache.Valid() && Fewer(cache.loose, old(cache.loose))
      ensures var x, y, data := old(cache.buf)[from].blockno, old(cache.buf)[to].blockno, old(cache.buf)[from].data;
              && cache.disk == old(cache.disk)[y := data]
              && cache.flat == old(cache.flat)[y := data]
              && cache.refs == old(cache.refs)[x := old(cache.refs)[x] - 1][y := old(cache.refs)[y] - 1]
              && cache.writes == old(cache.writes) + [Write(y, data)]
    {
      hide Coherent, Lru, Referenced;
      cache.Store(to, cache.buf[from].data);
      cache.Bwrite(to);
      cache.Brelse(from);
      cache.Brelse(to);
    }

    /** The body of install_trans's loop: copy one log block to its home and unpin it unless recovering. */
    method InstallOne(tail: nat, recovering: bool) returns (ok: bool)
      requires Shape() && tail < n && tail + 1 < size
      requires block[tail] < |cache.disk| && Home(L(), block[tail])
      requires cache.flat[start + 1 + tail] == cache.disk[start + 1 + tail]
      requires !recovering ==> cache.refs[block[tail]] > 0
      requires recovering ==> Unreferenced(cache.refs)
      modifies cache
      ensures Shape() && Fewer(cache.loose, old(cache.loose))
      ensures ok <==> !old(cache.Full(start + 1 + tail))
      ensures recovering ==> ok
      ensures !ok ==> unchanged(cache)
      ensures ok ==>
                var to, data := block[tail], old(cache.flat)[start + 1 + tail];
                && cache.disk == old(cache.disk)[to := data]
                && cache.flat == old(cache.flat)[to := data]
                && cache.refs == (if recovering then old(cache.refs)
                                  else old(cache.refs)[to := old(cache.refs)[to] - 1])
                && cache.writes == old(cache.writes) + [Write(to, data)]
    {
      hide Coherent, Lru, WellFormed, Loggable, HeadList, Referenced;
      if recovering {
        NoneReferenced(cache.refs);
      }
      var lbuf := cache.Bread(ROOTDEV, start + tail + 1);
      if lbuf == HEAD {
        return false;
      }
      if recovering {
        OneReferenced(cache.refs, start + tail + 1);
      }
      var dbuf := cache.Bread(ROOTDEV, block[tail]);
      assert dbuf != HEAD && dbuf != lbuf;
      CopyHome(lbuf, dbuf, recovering);
      return true;
    }

    /** memmove(dbuf->data, lbuf->data), bwrite, bunpin, and both releases. */
    method CopyHome(lbuf: nat, dbuf: nat, recovering: bool)
      requires cache.Held(lbuf) && cache.Held(dbuf) && cache.buf[lbuf].blockno != cache.buf[dbuf].blockno
      requires cache.buf[lbuf].data == cache.flat[cache.buf[lbuf].blockno] == cache.disk[cache.buf[lbuf].blockno]
      requires !recovering ==> cache.refs[cache.buf[dbuf].blockno] > 1
      requires cache.buf[lbuf].blockno !in cache.loose
      modifies cache
      ensures cache.Valid() && Fewer(cache.loose, old(cache.loose))
      ensures var from, to, data := old(cache.buf)[lbuf].blockno, old(cache.buf)[dbuf].blockno,
        old(cache.buf)[lbuf].data;
              && cache.disk == old(cache.disk)[to := data]
              && cache.flat == old(cache.flat)[to := data]
              && cache.refs == old(cache.refs)[from := old(cache.refs)[from] - 1]
                                              [to := old(cache.refs)[to] - (if recovering then 1 else 2)]
              && cache.writes == old(cache.writes) + [Write(to, data)]
    {
      hide Coherent, Lru, Referenced;
      assert lbuf != dbuf;
      cache.Store(dbuf, cache.buf[lbuf].data);
      cache.Bwrite(dbuf);
      if !recovering {
        cache.Bunpin(dbuf);
      }
      cache.Brelse(lbuf);
      cache.Brelse(dbuf);
    }

    /** Write the in-memory header over the on-disk one; words beyond the list stay as they were. */
    method WriteHead() returns (ok: bool)
      requires Shape() && cache.flat[start] == cache.disk[start]
      requires forall i :: 0 <= i < n ==> block[i] < WORD_LIMIT
      modifies cache
      ensures Shape() && Fewer(cache.loose, old(cache.loose))
      ensures cache.refs == old(cache.refs)
      ensures ok <==> !old(cache.Full(start))
      ensures !ok ==> unchanged(cache)
      ensures ok ==>
                var hd := EncodeHead(old(cache.disk)[start], Listed());
                && cache.disk == old(cache.disk)[start := hd]
                && cache.flat == old(cache.flat)[start := hd]
                && cache.writes == old(cache.writes) + [Write(start, hd)]
    {
      hide Coherent, Lru, WellFormed, HeadList, Referenced, Word, PutWord;
      var buf := cache.Bread(ROOTDEV, start);
      if buf == HEAD {
        return false;
      }
      ghost var was := cache.disk[start];
      var hb := PutWord(cache.buf[buf].data, 0, n);
      for i := 0 to n
        invariant PutEntries(hb, Listed(), i) == EncodeHead(was, Listed())
      {
        hb := PutWord(hb, i + 1, block[i]);
      }
      cache.Store(buf, hb);
      cache.Bwrite(buf);
      cache.Brelse(buf);
      assert cache.refs == old(cache.refs);
      return true;
    }

    /** One more write on top of those issued so far. */
    lemma IssuedOne(d0: Disk, f0: Disk, w0: seq<Write>, ws: seq<Write>, w: Write)
      requires |d0| == |f0| && InDisk(ws, |d0|) && w.blockno < |d0|
      requires cache.disk == Apply(d0, ws)[w.blockno := w.data]
      requires cache.flat == Apply(f0, ws)[w.blockno := w.data]
      requires cache.writes == w0 + ws + [w]
      ensures Issued(d0, f0, w0, ws + [w])
    {
      ApplyOne(d0, ws, w);
      ApplyOne(f0, ws, w);
    }

    // -------------------------------------------------------------- the loops

    /** k of the pending blocks have been copied to the log since disk, flat contents and references were d0, f0, r0. */
    ghost predicate Writing(d0: Disk, f0: Disk, w0: seq<Write>, r0: seq<nat>, t: Txn, k: nat)
      reads this, cache
    {
      && Shape() && |d0| == |f0| == |cache.disk| && Loggable(L(), |d0|, t.lh) && t.lh == Listed()
      && |t.data| == n && k <= n && cache.refs == r0 && Pinned(r0, t.lh)
      && Issued(d0, f0, w0, LogCopies(L(), |d0|, t)[..k])
      && HomesAs(L(), f0, cache.flat) && Holds(f0, t)
    }

    /** One turn of write_log's loop. */
    method WriteLogNext(tail: nat, ghost d0: Disk, ghost f0: Disk, ghost w0: seq<Write>, ghost r0: seq<nat>,
                        ghost t: Txn)
      returns (ok: bool)
      requires Writing(d0, f0, w0, r0, t, tail) && tail < n
      modifies cache
      ensures Writing(d0, f0, w0, r0, t, if ok then tail + 1 else tail)
      ensures ok <==> CanRead(r0, start + 1 + tail, start + 2 + tail)
      ensures Fewer(cache.loose, old(cache.loose))
    {
      hide Coherent, Lru, HeadList, Referenced, Cache.Valid, LogCopies, Loggable, Pinned, Home, HomesAs, Holds,
        IssuedAs;
      LoggableAt(L(), |d0|, t.lh, tail);
      PinnedAt(r0, t.lh, tail);
      HeldAt(L(), f0, cache.flat, t, tail);
      CopiesAt(L(), |d0|, t, tail);
      ghost var d1, f1, w1 := cache.disk, cache.flat, cache.writes;
      CanReadOne(r0, start + 1 + tail);
      ok := WriteLogOne(tail);
      if ok {
        IssuedNext(d0, f0, w0, LogCopies(L(), |d0|, t)[..tail], Write(start + 1 + tail, t.data[tail]), d1, f1, w1);
        HomesKept(L(), f0, f1, start + 1 + tail, t.data[tail]);
      }
    }

    method WriteLog() returns (ok: bool, ghost done: nat)
      requires Shape() && Loggable(L(), |cache.disk|, Listed())
      requires forall i :: 0 <= i < n ==> cache.refs[block[i]] > 0
      modifies cache
      ensures Writing(old(cache.disk), old(cache.flat), old(cache.writes), old(cache.refs), old(Pending()), done)
      ensures ok ==> done == n
      ensures ok <==> CanRead(old(cache.refs), start + 1, start + 1 + n)
      ensures Fewer(cache.loose, old(cache.loose))
    {
      ghost var d0, f0, w0, r0, t := cache.disk, cache.flat, cache.writes, cache.refs, Pending();
      done := 0;
      assert Writing(d0, f0, w0, r0, t, 0) by {
        hide Coherent, Lru, HeadList, Referenced, Cache.Valid, LogCopies;
        assert LogCopies(L(), |d0|, t)[..0] == [];
      }
      hide *;
      for tail := 0 to n
        invariant done == tail && Writing(d0, f0, w0, r0, t, tail)
        invariant CanRead(r0, start + 1, start + 1 + tail)
        invariant Fewer(cache.loose, old(cache.loose))
      {
        CanReadNext(r0, start + 1, start + 1 + tail, start + 1 + n);
        ghost var l1 := cache.loose;
        var more := WriteLogNext(tail, d0, f0, w0, r0, t);
        FewerYet(cache.loose, l1, old(cache.loose));
        if !more {
          return false, done;
        }
        done := done + 1;
      }
      return true, done;
    }

    /** k of the listed blocks have been installed since disk, flat contents and references were d0, f0, r0. */
    ghost predicate Installing(d0: Disk, f0: Disk, w0: seq<Write>, r0: seq<nat>, t: Txn, recovering: bool, k: nat)
      reads this, cache
    {
      && Shape() && |d0| == |cache.disk| && Loggable(L(), |d0|, t.lh) && t.lh == Listed()
      && t == LogTxn(L(), d0, t.lh) && |t.data| == n && k <= n
      && Issued(d0, f0, w0, Installs(L(), |d0|, t)[..k])
      && SameLog(L(), d0, cache.disk) && SameLog(L(), d0, cache.flat)
      && Unpinned(r0, cache.refs, t.lh, if recovering then 0 else k)
      && (if recovering then Unreferenced(r0) else Pinned(r0, t.lh))
    }

    /** One turn of install_trans's loop. */
    method InstallNext(tail: nat, recovering: bool, ghost d0: Disk, ghost f0: Disk, ghost w0: seq<Write>,
                       ghost r0: seq<nat>, ghost t: Txn)
      returns (ok: bool)
      requires Installing(d0, f0, w0, r0, t, recovering, tail) && tail < n
      modifies cache
      ensures Installing(d0, f0, w0, r0, t, recovering, if ok then tail + 1 else tail)
      ensures recovering || CanRead(r0, start + 1 + tail, start + 2 + tail) ==> ok
      ensures Fewer(cache.loose, old(cache.loose))
    {
      hide Coherent, Lru, HeadList, Referenced, Cache.Valid, Installs, Loggable, SameLog, Unpinned, Pinned,
        Unreferenced, Home, IssuedAs, CanRead, Fewer, WellFormed, LogTxn, Tidy, Apply, InDisk, Word;
      LoggableAt(L(), |d0|, t.lh, tail);
      LogTxnAt(L(), d0, t.lh, tail);
      SameLogAt(L(), d0, cache.disk, start + 1 + tail);
      SameLogAt(L(), d0, cache.flat, start + 1 + tail);
      UnpinnedFewer(r0, cache.refs, t.lh, if recovering then 0 else tail);
      UnpinnedNext(r0, cache.refs, t.lh, tail);
      if !recovering {
        PinnedAt(r0, t.lh, tail);
        if CanRead(r0, start + 1 + tail, start + 2 + tail) {
          CanStillRead(L(), |d0|, r0, cache.refs, t.lh, tail, start + 1 + tail);
          CanReadOne(cache.refs, start + 1 + tail);
        }
      }
      ghost var d1, f1, w1 := cache.disk, cache.flat, cache.writes;
      ok := InstallOne(tail, recovering);
      if ok {
        InstallsAt(L(), |d0|, t, tail);
        IssuedNext(d0, f0, w0, Installs(L(), |d0|, t)[..tail], Write(t.lh[tail], t.data[tail]), d1, f1, w1);
        SameLogKept(L(), d0, d1, t.lh[tail], t.data[tail]);
        SameLogKept(L(), d0, f1, t.lh[tail], t.data[tail]);
      } else {
        FewerReferenced(cache.refs, r0);
      }
    }

    method InstallTrans(recovering: bool) returns (ok: bool, ghost done: nat)
      requires Shape() && Loggable(L(), |cache.disk|, Listed()) && SameLog(L(), cache.disk, cache.flat)
      requires if recovering then Unreferenced(cache.refs) else Pinned(cache.refs, Listed())
      modifies cache
      ensures Installing(old(cache.disk), old(cache.flat), old(cache.writes), old(cache.refs),
                         LogTxn(L(), old(cache.disk), Listed()), recovering, done)
      ensures ok ==> done == n
      ensures recovering || CanRead(old(cache.refs), start + 1, start + 1 + n) ==> ok
      ensures Fewer(cache.loose, old(cache.loose))
    {
      ghost var d0, f0, w0, r0 := cache.disk, cache.flat, cache.writes, cache.refs;
      ghost var t := LogTxn(L(), d0, Listed());
      done := 0;
      assert Installing(d0, f0, w0, r0, t, recovering, 0) by {
        hide Coherent, Lru, HeadList, Referenced, Cache.Valid, Installs, Unreferenced, Pinned;
        assert Installs(L(), |d0|, t)[..0] == [];
      }
      hide *;
      for tail := 0 to n
        invariant done == tail && Installing(d0, f0, w0, r0, t, recovering, tail)
        invariant Fewer(cache.loose, old(cache.loose))
      {
        CanReadNext(r0, start + 1, start + 1 + tail, start + 1 + n);
        ghost var l1 := cache.loose;
        var more := InstallNext(tail, recovering, d0, f0, w0, r0, t);
        FewerYet(cache.loose, l1, old(cache.loose));
        if !more {
          return false, done;
        }
        done := done + 1;
      }
      return true, done;
    }

    // -------------------------------------------------------------- commit and recovery

    /** Nothing but the listed blocks differs from the disk, and the cache keeps those. */
    ghost predicate CommitReady()
      reads this, cache
    {
      && OnDisk() && Head(L(), cache.disk) == []
      && Loggable(L(), |cache.disk|, Listed())
      && Balanced(L(), cache.disk, cache.flat, cache.refs, Listed(), {})
    }

    /** k of the disk writes of committing t have been issued since the disk was d0 and the flat contents f0. */
    ghost predicate Committing(d0: Disk, f0: Disk, w0: seq<Write>, t: Txn, k: nat)
      reads this, cache
    {
      && Shape() && CommitFrom(L(), d0, f0, t) && t.lh == Listed() && k <= CommitLength(t)
      && Issued(d0, f0, w0, CommitWrites(L(), d0, t)[..k])
    }

    method FlushHead(ghost d0: Disk, ghost f0: Disk, ghost w0: seq<Write>, ghost t: Txn) returns (ok: bool)
      requires n > 0 && Committing(d0, f0, w0, t, n)
      modifies cache
      ensures Committing(d0, f0, w0, t, if ok then n + 1 else n)
      ensures cache.refs == old(cache.refs)
      ensures ok <==> CanRead(cache.refs, start, start + 1)
      ensures Fewer(cache.loose, old(cache.loose))
    {
      hide Coherent, Lru, HeadList, Referenced, Cache.Valid, EncodeHead, CommitWrites, Apply, CommitFrom;
      CommitFromFacts(L(), d0, f0, t);
      CommitProgress(L(), d0, f0, t, n);
      SameLogAt(L(), cache.disk, cache.flat, start);
      CanReadOne(cache.refs, start);
      ok := WriteHead();
      if ok {
        CommitPieces(L(), d0, t, 0);
        IssuedOne(d0, f0, w0, CommitWrites(L(), d0, t)[..n], Write(start, FullHead(L(), d0, t)));
      }
    }

    /** install_trans(0), then the header with no entries. */
    method InstallAndClear(ghost d0: Disk, ghost f0: Disk, ghost w0: seq<Write>, ghost t: Txn)
      returns (ok: bool, ghost done: nat)
      requires n > 0 && Committing(d0, f0, w0, t, n + 1)
      requires Pinned(cache.refs, t.lh)
      requires CanRead(cache.refs, start, start + 1) && CanRead(cache.refs, start + 1, start + 1 + n)
      modifies this`n, cache
      ensures Shape() && done <= CommitLength(t) && Issued(d0, f0, w0, CommitWrites(L(), d0, t)[..done])
      ensures ok && done == CommitLength(t) && n == 0
      ensures Unpinned(old(cache.refs), cache.refs, t.lh, |t.lh|)
      ensures Fewer(cache.loose, old(cache.loose))
    {
      hide Coherent, Lru, HeadList, Referenced, Cache.Valid, EncodeHead, CommitWrites, Apply, CommitFrom, Unpinned,
        Loggable, SameLog, Pinned, PhaseHead, CanRead;
      ghost var m := n;
      ok, done := InstallAll(d0, f0, w0, t);
      CommitFromFacts(L(), d0, f0, t);
      CanStillRead(L(), |d0|, old(cache.refs), cache.refs, t.lh, m, start);
      n := 0;
      ok := ClearHead(d0, f0, w0, t);
      done := done + 1;
    }

    method InstallAll(ghost d0: Disk, ghost f0: Disk, ghost w0: seq<Write>, ghost t: Txn)
      returns (ok: bool, ghost done: nat)
      requires n > 0 && Committing(d0, f0, w0, t, n + 1)
      requires Pinned(cache.refs, t.lh) && CanRead(cache.refs, start + 1, start + 1 + n)
      modifies cache
      ensures Shape() && ok && done == 2 * n + 1 && Committing(d0, f0, w0, t, done)
      ensures Unpinned(old(cache.refs), cache.refs, t.lh, |t.lh|)
      ensures Fewer(cache.loose, old(cache.loose))
    {
      hide Coherent, Lru, HeadList, Referenced, Cache.Valid, EncodeHead, CommitWrites, Apply, CommitFrom, Unpinned,
        Loggable, SameLog, Pinned, PhaseHead, Installs, Home, CommitWrite, LogTxn, CanRead;
      CommitFromFacts(L(), d0, f0, t);
      CommitLogTxn(L(), d0, f0, t);
      ok, done := InstallTrans(false);
      CommitPieces(L(), d0, t, done);
      IssuedConcat(d0, f0, CommitWrites(L(), d0, t)[..n + 1], Installs(L(), |d0|, t)[..done]);
      done := n + 1 + done;
    }

    method ClearHead(ghost d0: Disk, ghost f0: Disk, ghost w0: seq<Write>, ghost t: Txn) returns (ok: bool)
      requires n == 0 && Shape() && CommitFrom(L(), d0, f0, t)
      requires Issued(d0, f0, w0, CommitWrites(L(), d0, t)[..2 * |t.lh| + 1])
      modifies cache
      ensures Shape() && cache.refs == old(cache.refs)
      ensures Issued(d0, f0, w0, CommitWrites(L(), d0, t)[..2 * |t.lh| + if ok then 2 else 1])
      ensures ok <==> CanRead(cache.refs, start, start + 1)
      ensures Fewer(cache.loose, old(cache.loose))
    {
      hide Coherent, Lru, HeadList, Referenced, Cache.Valid, EncodeHead, CommitWrites, Apply, CommitFrom, Loggable,
        SameLog;
      CommitFromFacts(L(), d0, f0, t);
      CommitProgress(L(), d0, f0, t, 2 * |t.lh| + 1);
      ghost var ws := CommitWrites(L(), d0, t);
      assert Listed() == [];
      SameLogAt(L(), cache.disk, cache.flat, start);
      CanReadOne(cache.refs, start);
      ok := WriteHead();
      if ok {
        CommitPieces(L(), d0, t, 0);
        IssuedOne(d0, f0, w0, ws[..2 * |t.lh| + 1], Write(start, ClearedHead(L(), d0, t)));
        assert ws[..2 * |t.lh| + 2] == ws;
      }
    }

    /**
      commit(): its disk writes are a prefix of CommitWrites, all of them unless bget panics: exactly
      when there is something to commit, NBUF blocks are referenced, and one of the log blocks the
      commit needs is not among them.
     */
    method Commit() returns (ok: bool, ghost done: nat)
      requires CommitReady()
      modifies this`n, cache
      ensures Shape()
      ensures done <= CommitLength(old(Pending()))
      ensures Issued(old(cache.disk), old(cache.flat), old(cache.writes),
                     CommitWrites(L(), old(cache.disk), old(Pending()))[..done])
      ensures ok ==> done == CommitLength(old(Pending())) && n == 0
      ensures ok ==> Unpinned(old(cache.refs), cache.refs, old(Listed()), |old(Listed())|)
      ensures ok <==> old(n) == 0 || CanRead(old(cache.refs), start, start + 1 + old(n))
      ensures Fewer(cache.loose, old(cache.loose))
    {
      hide Coherent, Lru, HeadList, Referenced, Cache.Valid, EncodeHead, Apply, CanRead;
      CanReadNext(cache.refs, start, start + 1, start + 1 + n);
      ghost var d0, f0, w0, t := cache.disk, cache.flat, cache.writes, Pending();
      ok, done := true, 0;
      if n > 0 {
        ok, done := WriteLog();
        assert Issued(d0, f0, w0, LogCopies(L(), |d0|, t)[..done]);
        CommitPieces(L(), d0, t, done);
        if !ok {
          return;
        }
        assert Committing(d0, f0, w0, t, n);
        ok := FlushHead(d0, f0, w0, t);
        if !ok {
          return;
        }
        ok, done := InstallAndClear(d0, f0, w0, t);
      } else {
        assert Listed() == [];
        ApplyNone(d0);
        ApplyNone(f0);
        assert CommitWrites(L(), d0, t)[..0] == [];
      }
    }

    method ReadHead()
      requires OnDisk() && cache.flat == cache.disk && cache.loose == map[] && Unreferenced(cache.refs)
      modifies this`n, this`block, cache
      ensures OnDisk() && Listed() == Head(L(), cache.disk)
      ensures unchanged(cache`disk, cache`flat, cache`writes) && cache.refs == old(cache.refs)
    {
      hide Coherent, Lru, Referenced, Word, WellFormed, HeadList;
      NoneReferenced(cache.refs);
      HeadFits(L(), cache.disk);
      var buf := cache.Bread(ROOTDEV, start);
      ghost var lh := cache.buf[buf].data;
      n := Word(cache.buf[buf].data, 0);
      for i := 0 to n
        modifies this`block
        invariant |block| == LOGSIZE
        invariant forall j :: 0 <= j < i ==> block[j] == Word(lh, j + 1)
      {
        block := block[i := Word(cache.buf[buf].data, i + 1)];
      }
      cache.Brelse(buf);
      assert cache.refs == old(cache.refs);
      HeadListIs(lh, Listed());
    }

    /** recover_from_log(), run at boot with an empty cache: its disk writes are RecoverWrites, and it cannot panic. */
    method RecoverFromLog()
      requires OnDisk() && outstanding == 0 && !committing && ops == [] && dirty == {}
      requires cache.flat == cache.disk && cache.loose == map[] && Unreferenced(cache.refs)
      modifies this`n, this`block, cache
      ensures Valid() && Listed() == [] && cache.flat == cache.disk && Unreferenced(cache.refs)
      ensures Issued(old(cache.disk), old(cache.disk), old(cache.writes), RecoverWrites(L(), old(cache.disk)))
      ensures Homes(L(), cache.disk) == View(L(), old(cache.disk))
    {
      hide Coherent, Lru, HeadList, Referenced, Cache.Valid, EncodeHead, Apply, RecoverWrites, View, Installs, Word;
      ghost var d0, w0 := cache.disk, cache.writes;
      ghost var ws := RecoverWrites(L(), d0);
      RecoverInstall();
      RecoverClear(d0, w0);
      assert ws[..|ws|] == ws;
      RecoverIdempotent(L(), d0, |ws|);
    }

    /** read_head and install_trans: the logged blocks are home, and nothing is referenced. */
    method RecoverInstall()
      requires OnDisk() && cache.flat == cache.disk && cache.loose == map[] && Unreferenced(cache.refs)
      modifies this`n, this`block, cache
      ensures Shape() && WellFormed(L(), old(cache.disk)) && n == |Head(L(), old(cache.disk))|
      ensures Issued(old(cache.disk), old(cache.disk), old(cache.writes), RecoverWrites(L(), old(cache.disk))[..n])
      ensures cache.flat == cache.disk && Unreferenced(cache.refs)
      ensures start < |cache.disk| && cache.disk[start] == old(cache.disk)[start]
    {
      hide Coherent, Lru, HeadList, Referenced, Cache.Valid, EncodeHead, Apply, RecoverWrites, View, Installs, Word;
      ghost var d0 := cache.disk;
      ReadHead();
      var ok, done := InstallTrans(true);
      assert ok;
      RecoverPieces(L(), d0, n);
      assert Txn(Listed(), d0[start + 1..start + 1 + n]) == Logged(L(), d0);
      assert Unreferenced(cache.refs);
    }

    /** The second write_head of recovery. */
    method RecoverClear(ghost d0: Disk, ghost w0: seq<Write>)
      requires Shape() && WellFormed(L(), d0) && n == |Head(L(), d0)|
      requires Issued(d0, d0, w0, RecoverWrites(L(), d0)[..n]) && cache.flat == cache.disk && Unreferenced(cache.refs)
      requires start < |cache.disk| && start < |d0| && cache.disk[start] == d0[start]
      modifies this`n, cache
      ensures Shape() && n == 0 && Issued(d0, d0, w0, RecoverWrites(L(), d0)) && cache.flat == cache.disk
      ensures cache.refs == old(cache.refs)
    {
      hide Coherent, Lru, HeadList, Referenced, Cache.Valid, EncodeHead, RecoverWrites, Word, WellFormed, IssuedAs;
      ghost var m, d1, w1 := n, cache.disk, cache.writes;
      NoneReferenced(cache.refs);
      n := 0;
      assert Listed() == [];
      var ok := WriteHead();
      assert ok;
      RecoverPieces(L(), d0, m);
      IssuedNext(d0, d0, w0, RecoverWrites(L(), d0)[..m], Write(start, EncodeHead(d0[start], [])), d1, d1, w1);
    }

    // -------------------------------------------------------------- what file-system calls do

    /** begin_op, up to its return; false means it has to sleep and try again. */
    method BeginOp() returns (ok: bool)
      requires Valid()
      modifies this`outstanding, this`ops
      ensures Valid()
      ensures ok <==> LogSpace.Admits(n, old(outstanding))
      ensures ops == if ok then old(ops) + [{}] else old(ops)
    {
      if committing {
        return false;
      } else if n + (outstanding + 1) * MAXOPBLOCKS > LOGSIZE {
        return false;
      } else {
        LogSpace.StepKeepsReserved(LogSpace.Space(Listed(), ops), LogSpace.Begin);
        outstanding := outstanding + 1;
        ops := ops + [{}];
        return true;
      }
    }

    /** bread by a file-system call: it gets the last contents any call stored in the block, unless those
      * were never logged and have been recycled. A panic exactly when bget can recycle no buffer. */
    method Read(blockno: nat) returns (b: nat)
      requires Valid() && blockno < |cache.disk|
      modifies cache
      ensures Valid() && unchanged(cache`flat, cache`disk, cache`writes)
      ensures b == HEAD <==> old(cache.Full(blockno))
      ensures b == HEAD ==> unchanged(cache)
      ensures b != HEAD ==> cache.Held(b) && cache.buf[b].blockno == blockno
      ensures b != HEAD ==> cache.buf[b].data == old(cache.Contents(blockno)) == cache.Contents(blockno)
      ensures Fewer(cache.loose, old(cache.loose))
      ensures b != HEAD ==> Users(blockno) == old(Users(blockno)) + 1
      ensures forall x :: 0 <= x < |cache.disk| && x != blockno ==> Users(x) == old(Users(x))
    {
      hide Coherent, Lru, HeadList, Referenced, Cache.Valid, Loggable, LogSpace.Reserved, WellFormed, Balanced;
      BalancedRead(L(), cache.disk, cache.flat, cache.refs, Listed(), dirty, blockno);
      b := cache.Bread(ROOTDEV, blockno);
    }

    /** The holder of a buffer changes its data; from here on every reader sees the new contents. */
    method Modify(b: nat, data: Block)
      requires Valid() && cache.Held(b) && outstanding > 0
      requires Home(L(), cache.buf[b].blockno) && Users(cache.buf[b].blockno) > 0
      modifies cache, this`dirty
      ensures Valid() && cache.Held(b) && cache.buf[b].blockno == old(cache.buf)[b].blockno
      ensures cache.flat == old(cache.flat)[cache.buf[b].blockno := data]
      ensures cache.loose == old(cache.loose) - {cache.buf[b].blockno}
      ensures unchanged(cache`disk, cache`writes, cache`refs)
      ensures dirty == old(dirty) + {cache.buf[b].blockno}
    {
      hide Coherent, Lru, HeadList, Referenced, Loggable, LogSpace.Reserved, WellFormed, Balanced;
      BalancedModify(L(), cache.disk, cache.flat, cache.refs, Listed(), dirty, cache.buf[b].blockno, data);
      cache.Store(b, data);
      dirty := dirty + {cache.buf[b].blockno};
    }

    /** log_write; false is the panic "too big a transaction". */
    method LogWrite(b: nat, ghost op: nat) returns (ok: bool)
      requires Valid() && cache.Held(b) && outstanding > 0
      requires Home(L(), cache.buf[b].blockno) && Users(cache.buf[b].blockno) > 0
      requires op < |ops| && |ops[op] + {cache.buf[b].blockno}| <= MAXOPBLOCKS
      modifies this`n, this`block, this`ops, this`dirty, cache
      ensures Valid()
      ensures ok <==> !LogSpace.TooBig(old(n), size)
      ensures !ok ==> unchanged(this, cache)
      ensures ok ==>
                var x := old(cache.buf)[b].blockno;
                && Listed() == LogSpace.Absorb(old(Listed()), x)
                && ops == old(ops)[op := old(ops)[op] + {x}]
                && dirty == old(dirty) - {x}
                && cache.flat == old(cache.flat)[x := old(cache.Contents(x))]
                && cache.loose == old(cache.loose) - {x}
      ensures forall x :: 0 <= x < |cache.disk| ==> Users(x) == old(Users(x))
      ensures unchanged(cache`disk, cache`writes)
      ensures ok ==> cache.Held(b) && cache.buf[b].blockno == old(cache.buf)[b].blockno
    {
      hide Coherent, Lru, HeadList, Referenced, LogSpace.Reserved, WellFormed, Balanced, Loggable, Cache.Valid,
        Home, LogSpace.Unused, Cache.LastDirty, Cache.Full, Fewer, CanRead, LogSpace.Next, LogSpace.Enabled,
        LogSpace.Absorb;
      if n >= LOGSIZE || n >= size - 1 {
        return false;
      }
      var blockno := cache.buf[b].blockno;
      LogWriteKeeps(L(), cache.disk, cache.flat, cache.refs, cache.loose, Listed(), dirty, ops, op, blockno,
                    cache.Contents(blockno));
      cache.Adopt(b);
      Enlist(b);
      ops := ops[op := ops[op] + {blockno}];
      dirty := dirty - {blockno};
      return true;
    }

    /** Find the buffer's block in the list, or append and pin it. */
    method Enlist(b: nat)
      requires Shape() && cache.Held(b) && n < LOGSIZE && cache.buf[b].blockno !in cache.loose
      modifies this`n, this`block, cache`buf, cache`refs
      ensures Shape() && cache.Held(b) && cache.buf[b].blockno == old(cache.buf)[b].blockno
      ensures Listed() == LogSpace.Absorb(old(Listed()), cache.buf[b].blockno)
      ensures var x := cache.buf[b].blockno;
              cache.refs == if x in old(Listed()) then old(cache.refs) else old(cache.refs)[x := old(cache.refs)[x] + 1]
    {
      hide Coherent, Ring;
      var blockno := cache.buf[b].blockno;
      var i := 0;
      while i < n && block[i] != blockno
        invariant 0 <= i <= n
        invariant forall j :: 0 <= j < i ==> block[j] != blockno
        decreases n - i
      {
        i := i + 1;
      }
      block := block[i := blockno];
      if i == n {
        assert blockno !in old(Listed());
        cache.Bpin(b);
        n := n + 1;
      }
    }

    /** brelse by a file-system call. What it changed and never logged stays visible until the buffer
      * is recycled, and no commit will write it unless the block is logged after all. */
    method Release(b: nat)
      requires Valid() && cache.Held(b)
      requires Users(cache.buf[b].blockno) > 0
      modifies cache, this`dirty
      ensures Valid() && unchanged(cache`disk, cache`writes)
      ensures var x := old(cache.buf)[b].blockno;
              && dirty == old(dirty) - {x}
              && (if x in old(dirty) && x !in Listed() then
                    && cache.flat == old(cache.flat)[x := cache.disk[x]]
                    && cache.loose == old(cache.loose)[x := old(cache.buf)[b].data]
                  else cache.flat == old(cache.flat) && cache.loose == old(cache.loose))
      ensures forall x :: 0 <= x < |cache.flat| ==> cache.Contents(x) == old(cache.Contents(x))
      ensures Users(old(cache.buf)[b].blockno) == old(Users(cache.buf[b].blockno)) - 1
      ensures forall x :: 0 <= x < |cache.disk| && x != old(cache.buf)[b].blockno ==> Users(x) == old(Users(x))
    {
      hide Coherent, Lru, HeadList, Referenced, Loggable, LogSpace.Reserved, WellFormed, Balanced;
      ghost var x := cache.buf[b].blockno;
      if x in dirty {
        if x !in Listed() {
          cache.Loosen(b);
        }
        BalancedGiveUp(L(), cache.disk, old(cache.flat), cache.flat, cache.refs, Listed(), dirty, x);
        dirty := dirty - {x};
      }
      BalancedRelease(L(), cache.disk, cache.flat, cache.refs, Listed(), dirty, x);
      cache.Brelse(b);
    }

    /**
      end_op of operation number op. The last one out commits: whatever write the machine dies after,
      recovery yields the contents before the operations or after all of them; no reader of a home
      block notices. False is a panic in bget: exactly when it is the last one out of a transaction with
      blocks to commit, NBUF blocks are referenced and one of the log blocks it needs is not.
     */
    method EndOp(ghost op: nat) returns (ok: bool)
      requires Valid() && op < |ops|
      requires |ops| == 1 ==> dirty == {}
      modifies this`outstanding, this`committing, this`ops, this`n, cache
      ensures ok ==> Valid() && ops == old(ops)[..op] + old(ops)[op + 1..]
      ensures ok <==> |old(ops)| > 1 || old(n) == 0 || CanRead(old(cache.refs), start, start + 1 + old(n))
      ensures Fewer(cache.loose, old(cache.loose))
      ensures |old(ops)| > 1 ==> ok && n == old(n) && unchanged(cache)
      ensures ok ==> Homes(L(), cache.flat) == old(Homes(L(), cache.flat))
      ensures ok && |old(ops)| == 1 ==> Listed() == [] && Recovers(L(), cache.disk, old(Homes(L(), cache.flat)))
      ensures ok ==> forall x :: 0 <= x < |cache.disk| ==> Users(x) == old(Users(x))
      ensures old(cache.writes) <= cache.writes
      ensures BeforeOrAfter(L(), old(cache.disk), old(cache.flat), cache.writes[|old(cache.writes)|..])
    {
      hide Coherent, Lru, HeadList, Referenced, Cache.Valid, LogSpace.Reserved, View, Homes, WellFormed, BeforeOrAfter,
        Loggable, LogSpace.Unused, Balanced, Unpinned;
      LogSpace.StepKeepsReserved(LogSpace.Space(Listed(), ops), LogSpace.End(op));
      outstanding := outstanding - 1;
      ops := ops[..op] + ops[op + 1..];
      if outstanding == 0 {
        committing := true;
        ok := CommitAll();
        committing := false;
        BalancedClean(L(), cache.disk, cache.refs);
        if ok {
          UnpinnedAll(old(cache.refs), cache.refs, old(Listed()));
        }
      } else {
        NothingWritten(L(), cache.disk, cache.flat);
        assert cache.writes[|old(cache.writes)|..] == [];
        ok := true;
      }
    }

    /** commit() with what it achieves: cache and disk agree, and the disk now recovers to what readers see. */
    method CommitAll() returns (ok: bool)
      requires CommitReady()
      modifies this`n, cache
      ensures Shape()
      ensures ok ==> Listed() == [] && OnDisk() && Head(L(), cache.disk) == [] && cache.flat == cache.disk
      ensures ok ==> Homes(L(), cache.flat) == old(Homes(L(), cache.flat))
      ensures ok ==> Recovers(L(), cache.disk, old(Homes(L(), cache.flat)))
      ensures ok ==> Unpinned(old(cache.refs), cache.refs, old(Listed()), |old(Listed())|)
      ensures ok <==> old(n) == 0 || CanRead(old(cache.refs), start, start + 1 + old(n))
      ensures Fewer(cache.loose, old(cache.loose))
      ensures old(cache.writes) <= cache.writes
      ensures BeforeOrAfter(L(), old(cache.disk), old(cache.flat), cache.writes[|old(cache.writes)|..])
    {
      hide Coherent, Lru, HeadList, Referenced, Cache.Valid, View, Homes, Apply, CommitWrites, BeforeOrAfter,
        WellFormed, Loggable, Unpinned, Recovers;
      ghost var d0, f0, w0, lh := cache.disk, cache.flat, cache.writes, Listed();
      assert forall i :: 0 <= i < n ==> lh[i] in lh && block[i] == lh[i];
      ghost var t := Pending();
      ghost var done;
      ok, done := Commit();
      ghost var ws := CommitWrites(L(), d0, t)[..done];
      assert cache.writes[|w0|..] == ws;
      CommitBeforeOrAfter(L(), d0, f0, t, done);
      if ok {
        assert ws == CommitWrites(L(), d0, t);
        CommitReaches(L(), d0, f0, t);
        CommitAgrees(L(), d0, f0, t);
      }
    }
  }

  /** After a full commit the disk holds exactly what the cache shows, and that is what it showed before. */
  lemma CommitAgrees(l: Layout, d0: Disk, f0: Disk, t: Txn)
    requires WellFormed(l, d0) && TxnOk(l, |d0|, t) && Head(l, d0) == []
    requires |f0| == |d0| && t.data == DataOf(f0, t.lh)
    requires forall b :: 0 <= b < |d0| && b !in t.lh ==> f0[b] == d0[b]
    ensures var ws := CommitWrites(l, d0, t);
            Apply(f0, ws) == Apply(d0, ws) && Homes(l, Apply(f0, ws)) == Homes(l, f0)
  {
    hide HeadList, EncodeHead, CommitWrites, Apply;
    var ws := CommitWrites(l, d0, t);
    assert ws[..|ws|] == ws;
    if t.lh == [] {
      assert ws == [];
      ApplyNone(d0);
      ApplyNone(f0);
      assert f0 == d0;
    } else {
      var d, f := Apply(d0, ws), Apply(f0, ws);
      CommitProgress(l, d0, f0, t, |ws|);
      CommitReaches(l, d0, f0, t);
      EmptyLogView(l, d);
      forall b | 0 <= b < |d|
        ensures f[b] == d[b]
      {
        if Home(l, b) {
          assert Homes(l, d)[b] == Homes(l, f0)[b];
        }
      }
    }
  }

  /** After any number of these writes the disk is well formed and recovers to d0's contents or to all of f0. */
  ghost predicate BeforeOrAfter(l: Layout, d0: Disk, f0: Disk, ws: seq<Write>) {
    && WellFormed(l, d0) && InDisk(ws, |d0|)
    && forall k :: 0 <= k <= |ws| ==>
         var d := Apply(d0, ws[..k]);
         Recovers(l, d, View(l, d0)) || Recovers(l, d, Homes(l, f0))
  }

  /** The disk is well formed and recovery turns its home blocks into v. */
  ghost predicate Recovers(l: Layout, d: Disk, v: map<nat, Block>) {
    WellFormed(l, d) && View(l, d) == v
  }

  lemma NothingWritten(l: Layout, d0: Disk, f0: Disk)
    requires WellFormed(l, d0)
    ensures BeforeOrAfter(l, d0, f0, [])
  {
    ApplyNone(d0);
  }

  lemma CommitBeforeOrAfter(l: Layout, d0: Disk, f0: Disk, t: Txn, done: nat)
    requires WellFormed(l, d0) && TxnOk(l, |d0|, t) && Head(l, d0) == []
    requires |f0| == |d0| && t.data == DataOf(f0, t.lh) && done <= CommitLength(t)
    requires forall b :: 0 <= b < |d0| && b !in t.lh ==> f0[b] == d0[b]
    ensures BeforeOrAfter(l, d0, f0, CommitWrites(l, d0, t)[..done])
  {
    hide HeadList, WellFormed, TxnOk, Update, View, Homes, Apply, CommitWrites, Home;
    var all := CommitWrites(l, d0, t);
    var ws := all[..done];
    assert InDisk(ws, |d0|);
    forall k | 0 <= k <= |ws|
      ensures var d := Apply(d0, ws[..k]);
              Recovers(l, d, View(l, d0)) || Recovers(l, d, Homes(l, f0))
    {
      assert ws[..k] == all[..k];
      CommitAtomic(l, d0, t, k);
      UpdateToFlat(l, d0, f0, t);
    }
  }

  lemma CommitReaches(l: Layout, d0: Disk, f0: Disk, t: Txn)
    requires WellFormed(l, d0) && TxnOk(l, |d0|, t) && Head(l, d0) == []
    requires |f0| == |d0| && t.data == DataOf(f0, t.lh)
    requires forall b :: 0 <= b < |d0| && b !in t.lh ==> f0[b] == d0[b]
    ensures var d := Apply(d0, CommitWrites(l, d0, t));
            WellFormed(l, d) && Head(l, d) == [] && Recovers(l, d, Homes(l, f0))
  {
    hide HeadList, WellFormed, TxnOk, Update, View, Homes, Apply, CommitWrites;
    var all := CommitWrites(l, d0, t);
    assert all == all[..|all|];
    CommitAtomic(l, d0, t, |all|);
    UpdateToFlat(l, d0, f0, t);
    if t.lh == [] {
      UpdateByNone(View(l, d0), t);
    }
  }

  lemma UpdateByNone(v: map<nat, Block>, t: Txn)
    requires t.lh == [] && |t.data| == |t.lh|
    ensures Update(v, t) == v
  {
  }

  lemma UpdateToFlat(l: Layout, d0: Disk, f0: Disk, t: Txn)
    requires WellFormed(l, d0) && TxnOk(l, |d0|, t) && Head(l, d0) == []
    requires |f0| == |d0| && t.data == DataOf(f0, t.lh)
    requires forall b :: 0 <= b < |d0| && b !in t.lh ==> f0[b] == d0[b]
    ensures Update(View(l, d0), t) == Homes(l, f0)
  {
    hide HeadList;
    EmptyLogView(l, d0);
    hide View;
  }

  lemma IssuedConcat(d0: Disk, f0: Disk, a: seq<Write>, b: seq<Write>)
    requires |d0| == |f0| && InDisk(a, |d0|) && InDisk(b, |d0|)
    ensures InDisk(a + b, |d0|)
    ensures Apply(d0, a + b) == Apply(Apply(d0, a), b)
    ensures Apply(f0, a + b) == Apply(Apply(f0, a), b)
  {
    hide Apply;
    ApplyConcat(d0, a, b);
    ApplyConcat(f0, a, b);
  }

  lemma ApplyNone(d: Disk)
    ensures Apply(d, []) == d
  {
  }

  /** A commit of t may start: the disk is d0, the cache shows f0, the log area is clean and its header empty. */
  ghost predicate CommitFrom(l: Layout, d0: Disk, f0: Disk, t: Txn) {
    && WellFormed(l, d0) && TxnOk(l, |d0|, t) && Head(l, d0) == [] && t.lh != []
    && |f0| == |d0| && t.data == DataOf(f0, t.lh) && SameLog(l, d0, f0)
  }

  lemma CommitFromFacts(l: Layout, d0: Disk, f0: Disk, t: Txn)
    requires CommitFrom(l, d0, f0, t)
    ensures WellFormed(l, d0) && TxnOk(l, |d0|, t) && Loggable(l, |d0|, t.lh) && |f0| == |d0|
    ensures |t.lh| <= LOGSIZE
    ensures forall i :: 0 <= i < |t.lh| ==> t.lh[i] < WORD_LIMIT && t.lh[i] < |d0| && Home(l, t.lh[i])
    ensures CommitLength(t) == 2 * |t.lh| + 2 && SameLog(l, d0, f0) && |t.data| == |t.lh|
  {
  }

  /** Where disk and cache stand after k writes of a commit. */
  lemma CommitProgress(l: Layout, d0: Disk, f0: Disk, t: Txn, k: nat)
    requires CommitFrom(l, d0, f0, t) && k <= CommitLength(t)
    ensures var ws := CommitWrites(l, d0, t)[..k];
            var d, f := Apply(d0, ws), Apply(f0, ws);
            && d[l.start] == PhaseHead(l, d0, t, k)
            && (forall i :: 0 <= i < |t.lh| && i < k ==> d[l.start + 1 + i] == t.data[i])
            && SameLog(l, d, f)
            && (forall b :: 0 <= b < |f| && Home(l, b) ==> f[b] == f0[b])
  {
    hide HeadList, EncodeHead, PhaseHead, Apply, CommitWrites, Installed;
    var ws := CommitWrites(l, d0, t)[..k];
    CommitPrefix(l, d0, t, k);
    forall b | l.start <= b < l.start + l.size
      ensures Apply(f0, ws)[b] == Apply(d0, ws)[b]
    {
      ApplyAgree(d0, f0, ws, b);
    }
    HomesUnseen(l, d0, f0, t, k);
  }

  /** Once the header is written the on-disk log holds exactly the transaction. */
  lemma CommitLogTxn(l: Layout, d0: Disk, f0: Disk, t: Txn)
    requires CommitFrom(l, d0, f0, t)
    ensures |t.lh| + 1 <= CommitLength(t)
    ensures var ws := CommitWrites(l, d0, t)[..|t.lh| + 1];
            var d, f := Apply(d0, ws), Apply(f0, ws);
            LogTxn(l, d, t.lh) == t && SameLog(l, d, f)
  {
    hide HeadList, EncodeHead, PhaseHead, Apply, CommitWrites, SameLog;
    CommitFromFacts(l, d0, f0, t);
    CommitProgress(l, d0, f0, t, |t.lh| + 1);
    var d := Apply(d0, CommitWrites(l, d0, t)[..|t.lh| + 1]);
    assert d[l.start + 1..l.start + 1 + |t.lh|] == t.data;
  }

  /** Writing to disk what the cache already shows does not change what the cache shows. */
  lemma HomesUnseen(l: Layout, d0: Disk, f0: Disk, t: Txn, k: nat)
    requires CommitFrom(l, d0, f0, t) && k <= CommitLength(t)
    ensures var f := Apply(f0, CommitWrites(l, d0, t)[..k]);
            forall b :: 0 <= b < |f| && Home(l, b) ==> f[b] == f0[b]
  {
    hide HeadList, EncodeHead, PhaseHead, Apply;
    assert f0[l.start] == d0[l.start];
    assert CommitWrites(l, f0, t) == CommitWrites(l, d0, t);
    CommitPrefix(l, f0, t, k);
  }

  lemma UnpinnedAll(r0: seq<nat>, r: seq<nat>, lh: seq<nat>)
    requires Unpinned(r0, r, lh, |lh|)
    ensures |r| == |r0| && forall x :: 0 <= x < |r| ==> r[x] == r0[x] - Pins(lh, x)
  {
  }

  lemma UnpinnedFewer(r0: seq<nat>, r: seq<nat>, lh: seq<nat>, k: nat)
    requires Unpinned(r0, r, lh, k)
    ensures |r| == |r0| && forall b :: 0 <= b < |r| ==> r[b] <= r0[b]
  {
  }

  /** Two disks agree on the log area. */
  ghost predicate SameLog(l: Layout, d: Disk, f: Disk) {
    && |f| == |d| && l.start + l.size <= |d|
    && forall b :: l.start <= b < l.start + l.size ==> f[b] == d[b]
  }

  lemma SameLogAt(l: Layout, d: Disk, f: Disk, b: nat)
    requires SameLog(l, d, f) && l.start <= b < l.start + l.size
    ensures b < |d| == |f| && f[b] == d[b]
  {
  }

  lemma SameLogKept(l: Layout, d: Disk, f: Disk, b: nat, data: Block)
    requires SameLog(l, d, f) && b < |d| && Home(l, b)
    ensures SameLog(l, d, f[b := data])
  {
  }

  /** The transaction found in the log blocks of d for the list lh. */
  ghost function LogTxn(l: Layout, d: Disk, lh: seq<nat>): Txn {
    Txn(lh, if l.start + 1 + |lh| <= |d| then d[l.start + 1..l.start + 1 + |lh|] else [])
  }

  lemma LogTxnAt(l: Layout, d: Disk, lh: seq<nat>, k: nat)
    requires l.start + 1 + |lh| <= |d| && k < |lh|
    ensures var t := LogTxn(l, d, lh); t.lh == lh && |t.data| == |lh| && t.data[k] == d[l.start + 1 + k]
  {
  }

  lemma LoggableAt(l: Layout, size: nat, lh: seq<nat>, k: nat)
    requires Loggable(l, size, lh) && k < |lh|
    ensures !Home(l, l.start + 1 + k)
    ensures lh[k] < size && Home(l, lh[k]) && Distinct(lh) && k + 1 < l.size && |lh| + 1 <= l.size
    ensures forall i :: 0 <= i < |lh| ==> lh[i] < size
  {
  }

  ghost predicate Pinned(refs: seq<nat>, lh: seq<nat>) {
    forall i :: 0 <= i < |lh| ==> lh[i] < |refs| && refs[lh[i]] > 0
  }

  lemma HeadFits(l: Layout, d: Disk)
    requires WellFormed(l, d)
    ensures l.start < |d| && Word(d[l.start], 0) <= LOGSIZE
  {
    hide Word;
  }

  lemma HeadListIs(hd: Block, lh: seq<nat>)
    requires |lh| == Word(hd, 0) <= LOGSIZE
    requires forall j :: 0 <= j < |lh| ==> lh[j] == Word(hd, j + 1)
    ensures lh == HeadList(hd)
  {
    hide Word;
  }

  lemma PinnedAt(refs: seq<nat>, lh: seq<nat>, k: nat)
    requires Pinned(refs, lh) && k < |lh|
    ensures lh[k] < |refs| && refs[lh[k]] > 0
  {
  }

  ghost predicate Unreferenced(refs: seq<nat>) {
    forall i :: 0 <= i < |refs| ==> refs[i] == 0
  }

  /** The first k listed blocks have lost one reference each. */
  ghost predicate Unpinned(r0: seq<nat>, r: seq<nat>, lh: seq<nat>, k: nat)
  {
    && k <= |lh| && |r| == |r0|
    && forall b :: 0 <= b < |r| ==> r[b] + (if IndexOf(lh, b) < k then 1 else 0) == r0[b]
  }

  lemma UnpinnedNext(r0: seq<nat>, r: seq<nat>, lh: seq<nat>, k: nat)
    requires k < |lh| && Distinct(lh) && lh[k] < |r0|
    ensures Unpinned(r0, r, lh, 0) ==> r == r0
    ensures Unpinned(r0, r, lh, k) ==> r[lh[k]] == r0[lh[k]]
    ensures Unpinned(r0, r, lh, k) && r0[lh[k]] > 0 ==> Unpinned(r0, r[lh[k] := r[lh[k]] - 1], lh, k + 1)
  {
    IndexOfAt(lh, k);
  }

  lemma InstallsAt(l: Layout, size: nat, t: Txn, k: nat)
    requires |t.data| == |t.lh| && forall i :: 0 <= i < |t.lh| ==> t.lh[i] < size
    requires k < |t.lh|
    ensures var ws := Installs(l, size, t);
            ws[k] == Write(t.lh[k], t.data[k]) && ws[..k + 1] == ws[..k] + [ws[k]]
  {
  }

  ghost predicate IssuedAs(d0: Disk, f0: Disk, w0: seq<Write>, ws: seq<Write>, disk: Disk, flat: Disk,
                           writes: seq<Write>) {
    && |d0| == |f0| && InDisk(ws, |d0|)
    && disk == Apply(d0, ws) && flat == Apply(f0, ws) && writes == w0 + ws
  }

  lemma IssuedNext(d0: Disk, f0: Disk, w0: seq<Write>, ws: seq<Write>, w: Write, disk: Disk, flat: Disk,
                   writes: seq<Write>)
    requires IssuedAs(d0, f0, w0, ws, disk, flat, writes) && w.blockno < |d0|
    ensures |disk| == |flat| == |d0|
    ensures IssuedAs(d0, f0, w0, ws + [w], disk[w.blockno := w.data], flat[w.blockno := w.data], writes + [w])
  {
    ApplyOne(d0, ws, w);
    ApplyOne(f0, ws, w);
  }

  lemma CopiesAt(l: Layout, size: nat, t: Txn, k: nat)
    requires l.start + l.size <= size && |t.lh| + 1 <= l.size && |t.data| == |t.lh| && k < |t.lh|
    ensures var ws := LogCopies(l, size, t);
            ws[k] == Write(l.start + 1 + k, t.data[k]) && ws[..k + 1] == ws[..k] + [ws[k]]
  {
  }

  /** f and g agree outside the log. */
  ghost predicate HomesAs(l: Layout, f: Disk, g: Disk) {
    |g| == |f| && forall b :: 0 <= b < |f| && Home(l, b) ==> g[b] == f[b]
  }

  lemma HomesKept(l: Layout, f: Disk, g: Disk, b: nat, data: Block)
    requires HomesAs(l, f, g) && b < |f| && !Home(l, b)
    ensures HomesAs(l, f, g[b := data])
  {
  }

  /** The transaction's data are the contents f. */
  ghost predicate Holds(f: Disk, t: Txn) {
    |t.data| == |t.lh| && forall i :: 0 <= i < |t.lh| ==> t.lh[i] < |f| && t.data[i] == f[t.lh[i]]
  }

  lemma HeldAt(l: Layout, f: Disk, g: Disk, t: Txn, k: nat)
    requires HomesAs(l, f, g) && Holds(f, t) && k < |t.lh| && Home(l, t.lh[k])
    ensures t.lh[k] < |g| && t.data[k] == g[t.lh[k]]
    ensures forall i: nat :: l.start <= i < l.start + l.size ==> !Home(l, i)
  {
  }

  /** Breads of these blocks find a buffer to recycle, or need none. */
  ghost predicate CanRead(refs: seq<nat>, from: nat, to: nat) {
    |Referenced(refs)| < NBUF || forall b :: from <= b < to ==> b in Referenced(refs)
  }

  lemma CanReadNext(refs: seq<nat>, from: nat, mid: nat, to: nat)
    requires from <= mid <= to
    ensures CanRead(refs, from, to) <==> (CanRead(refs, from, mid) && CanRead(refs, mid, to))
    ensures mid < to ==> (CanRead(refs, from, mid + 1) <==> (CanRead(refs, from, mid) && CanRead(refs, mid, mid + 1)))
    ensures mid < to && CanRead(refs, from, to) ==> CanRead(refs, from, mid + 1)
  {
  }

  lemma CanReadOne(refs: seq<nat>, b: nat)
    requires b < |refs|
    ensures CanRead(refs, b, b + 1) <==> (refs[b] > 0 || |Referenced(refs)| < NBUF)
  {
    assert b in Referenced(refs) <==> refs[b] > 0;
  }

  /** Unpinning home blocks takes no log block and no free buffer away. */
  lemma CanStillRead(l: Layout, size: nat, r0: seq<nat>, r: seq<nat>, lh: seq<nat>, k: nat, b: nat)
    requires Unpinned(r0, r, lh, k) && Loggable(l, size, lh) && !Home(l, b) && b < |r0|
    requires CanRead(r0, b, b + 1)
    ensures |r| == |r0| && CanRead(r, b, b + 1)
  {
    UnpinnedFewer(r0, r, lh, k);
    FewerReferenced(r, r0);
    CanReadOne(r0, b);
    CanReadOne(r, b);
    assert b !in lh;
    assert IndexOf(lh, b) == |lh|;
  }

  /** Loose blocks are home blocks no commit is going to write. */
  ghost predicate Tidy(l: Layout, loose: map<nat, Block>, lh: seq<nat>) {
    forall b :: b in loose ==> Home(l, b) && b !in lh
  }

  lemma FewerYet(a: map<nat, Block>, b: map<nat, Block>, c: map<nat, Block>)
    requires Fewer(a, b) && Fewer(b, c)
    ensures Fewer(a, c)
  {
  }

  lemma FewerReferenced(refs: seq<nat>, refs0: seq<nat>)
    requires |refs| == |refs0| && forall b :: 0 <= b < |refs| ==> refs[b] <= refs0[b]
    ensures |Referenced(refs)| <= |Referenced(refs0)|
  {
    SubsetSize(Referenced(refs), Referenced(refs0));
  }

  /** The reference log_write takes on a listed block. */
  ghost function Pins(lh: seq<nat>, b: nat): nat {
    if b in lh then 1 else 0
  }

  /** Every block that differs from the disk is listed, or still in the hands of a holder; all these are referenced. */
  ghost predicate Balanced(l: Layout, disk: Disk, flat: Disk, refs: seq<nat>, lh: seq<nat>, dirty: set<nat>) {
    && |flat| == |disk| && |refs| == |disk|
    && (forall b :: b in dirty ==> b < |disk| && Home(l, b) && refs[b] > Pins(lh, b))
    && (forall b :: b in lh ==> b < |disk| && refs[b] > 0)
    && (forall b :: 0 <= b < |disk| && b !in lh && b !in dirty ==> flat[b] == disk[b])
  }

  lemma BalancedRead(l: Layout, disk: Disk, flat: Disk, refs: seq<nat>, lh: seq<nat>, dirty: set<nat>, b: nat)
    requires Balanced(l, disk, flat, refs, lh, dirty) && b < |disk|
    ensures Balanced(l, disk, flat, refs[b := refs[b] + 1], lh, dirty)
  {
  }

  lemma BalancedModify(l: Layout, disk: Disk, flat: Disk, refs: seq<nat>, lh: seq<nat>, dirty: set<nat>, b: nat,
                       data: Block)
    requires Balanced(l, disk, flat, refs, lh, dirty) && b < |disk|
    requires Home(l, b) && refs[b] > Pins(lh, b)
    ensures Balanced(l, disk, flat[b := data], refs, lh, dirty + {b})
  {
  }

  lemma BalancedLogWrite(l: Layout, disk: Disk, flat: Disk, refs: seq<nat>, lh: seq<nat>, dirty: set<nat>, b: nat,
                         data: Block)
    requires Balanced(l, disk, flat, refs, lh, dirty) && b < |disk| && refs[b] > Pins(lh, b)
    ensures Balanced(l, disk, flat[b := data], if b in lh then refs else refs[b := refs[b] + 1], LogSpace.Absorb(lh, b),
                     dirty - {b})
  {
    assert forall x :: x != b ==> Pins(LogSpace.Absorb(lh, b), x) == Pins(lh, x);
  }

  /** All of this survives a log_write. */
  lemma LogWriteKeeps(l: Layout, disk: Disk, flat: Disk, refs: seq<nat>, loose: map<nat, Block>, lh: seq<nat>,
                      dirty: set<nat>, ops: seq<set<nat>>, op: nat, b: nat, data: Block)
    requires Balanced(l, disk, flat, refs, lh, dirty) && Loggable(l, |disk|, lh) && Tidy(l, loose, lh)
    requires LogSpace.Reserved(LogSpace.Space(lh, ops)) && !LogSpace.TooBig(|lh|, l.size)
    requires b < |disk| <= WORD_LIMIT && Home(l, b) && b < |refs| && refs[b] > Pins(lh, b)
    requires op < |ops| && |ops[op] + {b}| <= MAXOPBLOCKS
    ensures |refs| == |flat| == |disk|
    ensures var lh', refs' := LogSpace.Absorb(lh, b), if b in lh then refs else refs[b := refs[b] + 1];
            && Balanced(l, disk, flat[b := data], refs', lh', dirty - {b})
            && Loggable(l, |disk|, lh') && Tidy(l, loose - {b}, lh')
            && LogSpace.Reserved(LogSpace.Space(lh', ops[op := ops[op] + {b}]))
            && (forall x :: 0 <= x < |refs| ==> refs'[x] - Pins(lh', x) == refs[x] - Pins(lh, x))
  {
    hide LogSpace.Reserved;
    LogSpace.StepKeepsReserved(LogSpace.Space(lh, ops), LogSpace.LogWrite(op, b));
    BalancedLogWrite(l, disk, flat, refs, lh, dirty, b, data);
    LoggableAbsorb(l, |disk|, lh, b);
  }

  lemma BalancedClean(l: Layout, disk: Disk, refs: seq<nat>)
    ensures |refs| == |disk| ==> Balanced(l, disk, disk, refs, [], {})
    ensures l.size > 0 ==> Loggable(l, |disk|, [])
  {
  }

  lemma LoggableAbsorb(l: Layout, size: nat, lh: seq<nat>, b: nat)
    requires Loggable(l, size, lh) && b < size <= WORD_LIMIT && Home(l, b)
    requires !LogSpace.TooBig(|lh|, l.size)
    ensures Loggable(l, size, LogSpace.Absorb(lh, b))
  {
  }

  lemma BalancedRelease(l: Layout, disk: Disk, flat: Disk, refs: seq<nat>, lh: seq<nat>, dirty: set<nat>, b: nat)
    requires Balanced(l, disk, flat, refs, lh, dirty) && b < |disk|
    requires b !in dirty && refs[b] > Pins(lh, b)
    ensures refs[b] > 1 || flat[b] == disk[b]
    ensures Balanced(l, disk, flat, refs[b := refs[b] - 1], lh, dirty)
  {
  }

  lemma BalancedGiveUp(l: Layout, disk: Disk, flat: Disk, flat': Disk, refs: seq<nat>, lh: seq<nat>, dirty: set<nat>,
                       b: nat)
    requires Balanced(l, disk, flat, refs, lh, dirty) && b < |disk|
    requires flat' == if b in lh then flat else flat[b := disk[b]]
    ensures Balanced(l, disk, flat', refs, lh, dirty - {b})
    ensures b in dirty ==> Home(l, b)
  {
  }

  lemma NoneReferenced(refs: seq<nat>)
    requires forall i :: 0 <= i < |refs| ==> refs[i] == 0
    ensures |Referenced(refs)| == 0
  {
    assert Referenced(refs) == {};
  }

  lemma OneReferenced(refs: seq<nat>, b: nat)
    requires b < |refs| && forall i :: 0 <= i < |refs| && i != b ==> refs[i] == 0
    ensures |Referenced(refs)| <= 1
  {
    assert Referenced(refs) <= {b};
    SubsetSize(Referenced(refs), {b});
  }

  ghost function DataOf(flat: Disk, lh: seq<nat>): (data: seq<Block>)
    requires forall i :: 0 <= i < |lh| ==> lh[i] < |flat|
    ensures |data| == |lh|
    ensures forall i :: 0 <= i < |lh| ==> data[i] == flat[lh[i]]
  {
    seq(|lh|, i requires 0 <= i < |lh| => flat[lh[i]])
  }

  // ---------------------------------------------------------------- when a commit cannot be written

  function Elements(s: seq<nat>): set<nat> {
    set x | x in s
  }

  lemma {:induction false} DistinctSize(s: seq<nat>)
    requires Distinct(s)
    ensures |Elements(s)| == |s|
  {
    if s == [] {
      assert Elements(s) == {};
    } else {
      var k := |s| - 1;
      DistinctSize(s[..k]);
      assert s == s[..k] + [s[k]];
      assert Elements(s) == Elements(s[..k]) + {s[k]};
      assert s[k] !in s[..k];
    }
  }

  /** With no buffer in the hands of a call, the references are the pins: a log of fewer than NBUF blocks
    * can always be committed, a log of NBUF blocks never. */
  lemma LoneLogCommitsIff(l: Layout, refs: seq<nat>, lh: seq<nat>)
    requires Loggable(l, |refs|, lh) && l.start + l.size <= |refs|
    requires forall b :: 0 <= b < |refs| ==> refs[b] == Pins(lh, b)
    ensures |Referenced(refs)| == |lh|
    ensures lh == [] || CanRead(refs, l.start, l.start + 1 + |lh|) <==> |lh| < NBUF
    ensures l.size <= NBUF ==> lh == [] || CanRead(refs, l.start, l.start + 1 + |lh|)
  {
    assert Referenced(refs) == Elements(lh);
    DistinctSize(lh);
    assert !Home(l, l.start);
    CanReadNext(refs, l.start, l.start + 1, l.start + 1 + |lh|);
    CanReadOne(refs, l.start);
  }

  /** Three operations are in progress; the first k of the blocks have one reference each, the first m of
    * them because they are logged, the others because a reader holds them. */
  ghost predicate Filling(log: Log, home: seq<nat>, m: nat, k: nat)
    reads log, log.cache
  {
    && log.Valid() && log.dirty == {} && m <= LOGSIZE && m < log.size
    && |home| == NBUF && Distinct(home) && k <= NBUF
    && (forall i :: 0 <= i < NBUF ==> home[i] < |log.cache.disk| && Home(log.L(), home[i]))
    && log.Listed() == home[..if k < m then k else m]
    && |log.ops| == 3
    && (forall op :: 0 <= op < 3 ==> |log.ops[op]| <= LogSpace.Share(k, 10 * op))
    && OneEach(log.cache.refs, home[..k])
  }

  /** These blocks and no others are referenced, once each. */
  ghost predicate OneEach(refs: seq<nat>, s: seq<nat>) {
    forall b :: 0 <= b < |refs| ==> refs[b] == Pins(s, b)
  }

  lemma OneEachSize(refs: seq<nat>, s: seq<nat>)
    requires OneEach(refs, s) && Distinct(s) && forall i :: 0 <= i < |s| ==> s[i] < |refs|
    ensures |Referenced(refs)| == |s|
  {
    assert Referenced(refs) == Elements(s);
    DistinctSize(s);
  }

  lemma OneEachNext(refs: seq<nat>, refs': seq<nat>, home: seq<nat>, k: nat)
    requires k < |home| && Distinct(home) && home[k] < |refs| && OneEach(refs, home[..k])
    requires |refs'| == |refs| && refs'[home[k]] == 1
    requires forall b :: 0 <= b < |refs| && b != home[k] ==> refs'[b] == refs[b]
    ensures OneEach(refs', home[..k + 1])
    ensures refs[home[k]] == 0 && home[k] !in home[..k]
    ensures home[..k] + [home[k]] == home[..k + 1]
  {
    assert home[..k + 1] == home[..k] + [home[k]];
  }

  /** One operation reads, changes, logs and releases the next block, within its budget. */
  method LogOneMore(log: Log, home: seq<nat>, m: nat, k: nat)
    requires Filling(log, home, m, k) && k < m
    modifies log, log.cache
    ensures Filling(log, home, m, k + 1)
  {
    hide Coherent, Lru, HeadList, Referenced, Loggable, LogSpace.Reserved, WellFormed, Balanced, Cache.Valid, Tidy,
      Fewer, Home;
    ghost var r0 := log.cache.refs;
    OneEachSize(r0, home[..k]);
    OneEachNext(r0, r0[home[k] := 1], home, k);
    ZeroBlock(log, home[k], k / 10);
    forall x | 0 <= x < |r0| && x != home[k]
      ensures log.cache.refs[x] == r0[x]
    {
      assert log.Users(x) == old(log.Users(x));
      assert Pins(log.Listed(), x) == Pins(home[..k], x);
    }
    OneEachNext(r0, log.cache.refs, home, k);
  }

  /** bread, a change, log_write and brelse. */
  method ZeroBlock(log: Log, x: nat, op: nat)
    requires log.Valid() && log.outstanding > 0 && log.dirty == {}
    requires x < |log.cache.disk| && Home(log.L(), x) && x !in log.Listed() && log.Users(x) == 0 && !log.cache.Full(x)
    requires op < |log.ops| && |log.ops[op] + {x}| <= MAXOPBLOCKS && !LogSpace.TooBig(log.n, log.size)
    modifies log, log.cache
    ensures log.Valid() && log.dirty == {} && |log.cache.disk| == old(|log.cache.disk|)
    ensures log.Listed() == old(log.Listed()) + [x]
    ensures log.ops == old(log.ops)[op := old(log.ops)[op] + {x}]
    ensures forall y :: 0 <= y < |log.cache.disk| ==> log.Users(y) == old(log.Users(y))
  {
    hide Coherent, Lru, HeadList, Referenced, Loggable, LogSpace.Reserved, WellFormed, Balanced, Cache.Valid, Tidy,
      Fewer, Cache.Full;
    var b := log.Read(x);
    log.Modify(b, Zero());
    var ok := log.LogWrite(b, op);
    log.Release(b);
    assert log.Users(x) == old(log.Users(x));
  }

  /** A reader takes the next block and keeps it. */
  method HoldOneMore(log: Log, home: seq<nat>, m: nat, k: nat)
    requires Filling(log, home, m, k) && m <= k < NBUF
    modifies log.cache
    ensures Filling(log, home, m, k + 1)
  {
    hide Coherent, Lru, HeadList, Referenced, Loggable, LogSpace.Reserved, WellFormed, Balanced, Cache.Valid;
    ghost var r0 := log.cache.refs;
    OneEachSize(r0, home[..k]);
    OneEachNext(r0, r0[home[k] := 1], home, k);
    var b := log.Read(home[k]);
    forall x | 0 <= x < |r0|
      ensures log.cache.refs[x] == if x == home[k] then 1 else r0[x]
    {
      assert x != home[k] ==> log.Users(x) == old(log.Users(x));
    }
    OneEachNext(r0, log.cache.refs, home, k);
  }

  /**
    A commit that cannot be written. Three operations fill the log within their budgets, readers hold the
    buffers that are left, and the last end_op panics: its first log block needs a thirty-first buffer.
    With more than LOGSIZE log blocks no reader is needed; with the shipped LOGSIZE, one is.
   */
  method CommitFindsNoBuffer(disk: Disk, start: nat, size: nat, home: seq<nat>) returns (ok: bool, readers: nat)
    requires |disk| <= WORD_LIMIT && size > 1 && WellFormed(Layout(start, size), disk)
    requires |home| == NBUF && Distinct(home)
    requires forall i :: 0 <= i < NBUF ==> home[i] < |disk| && Home(Layout(start, size), home[i])
    ensures !ok && readers == if size > LOGSIZE then 0 else LOGSIZE + 1 - size
  {
    hide Filling;
    var log := Boot(disk, start, size, home);
    var m := if size > LOGSIZE then LOGSIZE else size - 1;
    Fill(log, home, m);
    ok := EndAll(log, home, m);
    readers := NBUF - m;
  }

  /** m blocks are logged, and readers take the others. */
  method Fill(log: Log, home: seq<nat>, m: nat)
    requires Filling(log, home, m, 0) && m <= NBUF
    modifies log, log.cache
    ensures Filling(log, home, m, NBUF)
  {
    hide *;
    for k := 0 to m
      invariant Filling(log, home, m, k)
    {
      LogOneMore(log, home, m, k);
    }
    for k := m to NBUF
      invariant Filling(log, home, m, k)
    {
      HoldOneMore(log, home, m, k);
    }
  }

  method EndAll(log: Log, home: seq<nat>, m: nat) returns (ok: bool)
    requires Filling(log, home, m, NBUF) && m > 0
    modifies log, log.cache
    ensures !ok
  {
    hide Coherent, Lru, HeadList, Referenced, Loggable, LogSpace.Reserved, WellFormed, Balanced, Cache.Valid, CanRead,
      Tidy, BeforeOrAfter, Recovers, Homes, Fewer;
    assert home[..NBUF] == home;
    OneEachSize(log.cache.refs, home);
    NoRoom(log.L(), log.cache.refs, home, log.n);
    ok := log.EndOp(2);
    ok := log.EndOp(1);
    ok := log.EndOp(0);
  }

  /** No buffer to recycle, and no log block among those referenced. */
  lemma NoRoom(l: Layout, refs: seq<nat>, home: seq<nat>, n: nat)
    requires OneEach(refs, home) && |Referenced(refs)| >= NBUF && l.size > 0 && l.start < |refs|
    requires forall i :: 0 <= i < |home| ==> Home(l, home[i])
    ensures !CanRead(refs, l.start, l.start + 1 + n)
  {
    assert l.start !in home;
    CanReadNext(refs, l.start, l.start + 1, l.start + 1 + n);
    CanReadOne(refs, l.start);
  }

  /** Recovery, and three operations begin. */
  method Boot(disk: Disk, start: nat, size: nat, home: seq<nat>) returns (log: Log)
    requires |disk| <= WORD_LIMIT && size > 1 && WellFormed(Layout(start, size), disk)
    requires |home| == NBUF && Distinct(home)
    requires forall i :: 0 <= i < NBUF ==> home[i] < |disk| && Home(Layout(start, size), home[i])
    ensures fresh(log) && fresh(log.cache) && log.start == start && log.size == size
    ensures forall m: nat :: m <= LOGSIZE && m < size ==> Filling(log, home, m, 0)
  {
    hide Coherent, Lru, HeadList, Referenced, Loggable, WellFormed, Balanced, Cache.Valid, Homes, View, Tidy, Apply,
      RecoverWrites, LogSpace.Unused, Head;
    var cache := new Cache(disk);
    log := new Log(cache, start, size);
    log.RecoverFromLog();
    assert log.Listed() == [];
    assert |cache.disk| == |disk|;
    BeginThree(log);
    assert home[..0] == [];
    assert log.Valid() && log.dirty == {};
    assert OneEach(log.cache.refs, home[..0]);
    assert forall op :: 0 <= op < 3 ==> log.ops[op] == {};
  }

  method BeginThree(log: Log)
    requires log.Valid() && log.Listed() == [] && log.ops == []
    modifies log`outstanding, log`ops
    ensures log.Valid() && log.ops == [{}, {}, {}]
  {
    hide Coherent, Lru, HeadList, Loggable, WellFormed, Balanced, Cache.Valid, Tidy, Head, LogSpace.Reserved;
    var ok := log.BeginOp();
    ok := log.BeginOp();
    ok := log.BeginOp();
  }
}
