/**
  Inode contents: bmap, itrunc, readi and writei over the free map and the ownership of blocks.
  A file is a sequence of bytes; readi and writei are that sequence's slice and overwrite.
*/
module FileSystem {
  import opened Blocks
  import opened FreeMap
  import opened Ownership
  import LogRecovery

  const IPB: nat := 4

  function Max(a: int, b: int): int {
    if a > b then a else b
  }

  function Min(a: int, b: int): int {
    if a < b then a else b
  }

  /** Byte x of file i, 0 where no block is mapped. */
  function ByteAt(block: seq<Block>, inode: seq<Inode>, i: nat, x: nat): byte {
    var a := BlockOf(block, inode, i, x / BSIZE);
    if a == 0 || a >= |block| then 0 else block[a][x % BSIZE]
  }

  /** Every block of file i that starts before byte `limit` is mapped. */
  ghost predicate Mapped(block: seq<Block>, inode: seq<Inode>, i: nat, limit: nat) {
    forall bn :: 0 <= bn < MAXFILE && bn * BSIZE < limit ==> BlockOf(block, inode, i, bn) != 0
  }

  /** No file has a mapped block after an unmapped one. */
  ghost predicate Gapless(block: seq<Block>, inode: seq<Inode>) {
    forall i, a, b | 0 <= i < |inode| && 0 <= a <= b < MAXFILE && BlockOf(block, inode, i, b) != 0 ::
      BlockOf(block, inode, i, a) != 0
  }

  ghost predicate Dense(block: seq<Block>, inode: seq<Inode>) {
    && (forall i :: 0 <= i < |inode| ==> inode[i].size <= MAXFILE * BSIZE && Mapped(block, inode, i, inode[i].size))
    && Gapless(block, inode)
  }

  /** Of all the slots that hold file contents at most this one has changed. */
  ghost predicate OnlySlot(b0: seq<Block>, n0: seq<Inode>, b1: seq<Block>, n1: seq<Inode>, s0: Slot) {
    forall s: Slot :: !s.Indirect? && s != s0 ==> Val(b1, n1, NO_CUT, s) == Val(b0, n0, NO_CUT, s)
  }

  lemma OnlySlotSelf(b: seq<Block>, n: seq<Inode>, s0: Slot)
    ensures OnlySlot(b, n, b, n, s0)
  {
  }

  lemma OnlyIndirect(b0: seq<Block>, n0: seq<Inode>, b1: seq<Block>, n1: seq<Inode>, inum: nat, s0: Slot)
    requires OnlySlot(b0, n0, b1, n1, Indirect(inum))
    ensures OnlySlot(b0, n0, b1, n1, s0)
  {
    hide Val;
  }

  lemma OnlySlotTrans(b0: seq<Block>, n0: seq<Inode>, b1: seq<Block>, n1: seq<Inode>, b2: seq<Block>, n2: seq<Inode>,
                      s0: Slot)
    requires OnlySlot(b0, n0, b1, n1, s0) && OnlySlot(b1, n1, b2, n2, s0)
    ensures OnlySlot(b0, n0, b2, n2, s0)
  {
    hide Val;
  }

  /** Mapping the block behind those mapped leaves no gap. */
  lemma GaplessGrows(b0: seq<Block>, n0: seq<Inode>, b1: seq<Block>, n1: seq<Inode>, inum: nat, bn: nat)
    requires Gapless(b0, n0) && Keeps(b0, n0, b1, n1) && OnlySlot(b0, n0, b1, n1, FileSlot(inum, bn))
    requires inum < |n0| && bn < MAXFILE && forall a :: 0 <= a < bn ==> BlockOf(b0, n0, inum, a) != 0
    ensures Gapless(b1, n1)
  {
    forall i, a, b | 0 <= i < |n1| && 0 <= a <= b < MAXFILE && BlockOf(b1, n1, i, b) != 0
      ensures BlockOf(b1, n1, i, a) != 0
    {
      hide BlockOf, OnlySlot, Keeps;
      if i != inum || b != bn {
        SlotUnchanged(b0, n0, b1, n1, inum, bn, i, b);
      }
      if a < b || i != inum || b != bn {
        StaysMapped(b0, n0, b1, n1, i, a);
      }
    }
  }

  lemma SlotUnchanged(b0: seq<Block>, n0: seq<Inode>, b1: seq<Block>, n1: seq<Inode>, inum: nat, bn: nat, i: nat,
                      b: nat)
    requires OnlySlot(b0, n0, b1, n1, FileSlot(inum, bn)) && (i != inum || b != bn)
    ensures BlockOf(b1, n1, i, b) == BlockOf(b0, n0, i, b)
  {
    assert FileSlot(i, b) != FileSlot(inum, bn);
    hide Val;
  }

  lemma StaysMapped(b0: seq<Block>, n0: seq<Inode>, b1: seq<Block>, n1: seq<Inode>, i: nat, a: nat)
    requires Keeps(b0, n0, b1, n1) && i < |n0| && a < MAXFILE && BlockOf(b0, n0, i, a) != 0
    ensures BlockOf(b1, n1, i, a) != 0
  {
    hide Val;
    assert Kept(b0, b1, Val(b0, n0, NO_CUT, FileSlot(i, a)), Val(b1, n1, NO_CUT, FileSlot(i, a)));
  }

  lemma GaplessSame(b0: seq<Block>, n0: seq<Inode>, b1: seq<Block>, n1: seq<Inode>)
    requires Gapless(b0, n0) && |n1| == |n0| && forall s :: Val(b1, n1, NO_CUT, s) == Val(b0, n0, NO_CUT, s)
    ensures Gapless(b1, n1)
  {
    hide Val;
    forall i, a, b | 0 <= i < |n1| && 0 <= a <= b < MAXFILE && BlockOf(b1, n1, i, b) != 0
      ensures BlockOf(b1, n1, i, a) != 0
    {
      assert BlockOf(b0, n0, i, b) != 0 && BlockOf(b0, n0, i, a) != 0;
    }
  }

  /** With the block in which a range ends everything before it is mapped. */
  lemma MappedUpTo(block: seq<Block>, inode: seq<Inode>, i: nat, x: nat, limit: nat)
    requires Gapless(block, inode) && i < |inode| && BlockOf(block, inode, i, x / BSIZE) != 0
    requires x < limit <= MAXFILE * BSIZE && x % BSIZE + (limit - x) <= BSIZE
    ensures Mapped(block, inode, i, limit)
  {
    forall bn | 0 <= bn < MAXFILE && bn * BSIZE < limit
      ensures BlockOf(block, inode, i, bn) != 0
    {
      BlockStart(x, MAXFILE);
      assert bn <= x / BSIZE;
    }
  }

  /** No file slot in use has moved and no block it refers to has changed. */
  ghost predicate Keeps(b0: seq<Block>, n0: seq<Inode>, b1: seq<Block>, n1: seq<Inode>) {
    && |n1| == |n0| && |b1| == |b0|
    && (forall i :: 0 <= i < |n0| ==> n1[i].size == n0[i].size)
    && (forall s: Slot :: !s.Indirect? && Val(b0, n0, NO_CUT, s) != 0 ==>
          Kept(b0, b1, Val(b0, n0, NO_CUT, s), Val(b1, n1, NO_CUT, s)))
  }

  ghost predicate Kept(b0: seq<Block>, b1: seq<Block>, a: nat, a': nat) {
    a' == a && a < |b0| == |b1| && b1[a] == b0[a]
  }

  /** Every block that changed has been logged. */
  ghost predicate LogsChanges(b0: seq<Block>, b1: seq<Block>, logged0: set<nat>, logged1: set<nat>) {
    && |b1| == |b0| && logged0 <= logged1
    && forall b :: 0 <= b < |b0| && b1[b] != b0[b] ==> b in logged1
  }

  /** Contents that may be lost are contents of files, never of an indirect block or of metadata. */
  ghost predicate Astray(sb: Super, stray: map<nat, Block>, owner: map<nat, Slot>) {
    forall b :: b in stray ==> sb.datastart <= b && (b in owner ==> !owner[b].Indirect?)
  }

  ghost predicate InodesInMeta(sb: Super, inodestart: nat, inodes: nat) {
    forall i :: 0 <= i < inodes ==> i / IPB + inodestart < sb.datastart
  }

  ghost predicate Tracks(l0: set<nat>, s0: map<nat, Block>, o0: map<nat, Slot>, l1: set<nat>, s1: map<nat, Block>,
                         o1: map<nat, Slot>)
  {
    && l0 <= l1 && s1 == Without(s0, l1)
    && (forall b :: b in o0 ==> Owns(o1, b, o0[b]))
    && (forall b :: b in o1 ==> b in o0 || b in l1)
  }

  lemma TracksNothing(l0: set<nat>, s0: map<nat, Block>, o0: map<nat, Slot>)
    requires forall b :: b in s0 ==> b !in l0
    ensures Tracks(l0, s0, o0, l0, s0, o0)
  {
    WithoutNone(s0, l0);
  }

  lemma TracksTrans(l0: set<nat>, s0: map<nat, Block>, o0: map<nat, Slot>, l1: set<nat>, s1: map<nat, Block>,
                    o1: map<nat, Slot>, l2: set<nat>, s2: map<nat, Block>, o2: map<nat, Slot>)
    requires Tracks(l0, s0, o0, l1, s1, o1) && Tracks(l1, s1, o1, l2, s2, o2)
    ensures Tracks(l0, s0, o0, l2, s2, o2)
  {
    WithoutMore(s0, l1, l2);
  }

  /** Allocation logs what it takes. */
  lemma TracksAlloc(l0: set<nat>, s0: map<nat, Block>, o0: map<nat, Slot>, l1: set<nat>, s1: map<nat, Block>, addr: nat,
                    s: Slot)
    requires l0 <= l1 && s1 == Without(s0, l1) && addr in l1 && addr !in o0
    ensures Tracks(l0, s0, o0, l1, s1, o0[addr := s])
  {
  }

  /** Do these bytes differ from what the block holds from place o on? */
  ghost predicate Differs(b: Block, o: nat, bytes: seq<byte>) {
    exists j :: 0 <= j < |bytes| && o + j < BSIZE && bytes[j] != b[o + j]
  }

  /** Bytes put into block a from place o on, without a log_write, would change a block nobody has logged. */
  ghost predicate Unlogged(block: seq<Block>, logged: set<nat>, a: nat, o: nat, bytes: seq<byte>) {
    0 < a < |block| && a !in logged && Differs(block[a], o, bytes)
  }

  ghost function Fallback(block: seq<Block>, stray: map<nat, Block>, a: nat): Block
    requires a < |block|
  {
    if a in stray then stray[a] else block[a]
  }

  /** The one block that changed without being logged is a, and that exactly when these bytes changed it
    * and nobody had logged it; its old contents are then what it falls back to. */
  ghost predicate Accounted(b0: seq<Block>, l0: set<nat>, pinned: set<nat>, s0: map<nat, Block>, b1: seq<Block>,
                            l1: set<nat>, s1: map<nat, Block>, a: nat, o: nat, bytes: seq<byte>)
  {
    && |b1| == |b0| && l0 <= l1
    && (forall b :: 0 <= b < |b0| ==> (b1[b] != b0[b] && b !in l1 <==> b == a && Unlogged(b0, l0, a, o, bytes)))
    && s1 == (if Unlogged(b0, l0, a, o, bytes) && a !in pinned then Without(s0, l1)[a := Fallback(b0, s0, a)]
              else Without(s0, l1))
  }

  lemma AccountedFacts(b0: seq<Block>, l0: set<nat>, pinned: set<nat>, s0: map<nat, Block>, b1: seq<Block>,
                       l1: set<nat>, s1: map<nat, Block>, a: nat, o: nat, bytes: seq<byte>)
    requires Accounted(b0, l0, pinned, s0, b1, l1, s1, a, o, bytes)
    ensures |b1| == |b0| && l0 <= l1
    ensures LogsChanges(b0, b1, l0, l1) <==> !Unlogged(b0, l0, a, o, bytes)
    ensures Unlogged(b0, l0, a, o, bytes) && a !in pinned && a !in s0 ==> a in s1 && s1[a] == b0[a]
  {
    if Unlogged(b0, l0, a, o, bytes) {
      assert b1[a] != b0[a];
    }
  }

  lemma AccountedNone(b0: seq<Block>, l0: set<nat>, pinned: set<nat>, s0: map<nat, Block>, b1: seq<Block>, l1: set<nat>,
                      s1: map<nat, Block>, a: nat, o: nat)
    requires LogsChanges(b0, b1, l0, l1) && s1 == Without(s0, l1)
    ensures Accounted(b0, l0, pinned, s0, b1, l1, s1, a, o, [])
  {
  }

  lemma AccountedOneMore(sb: Super, b0: seq<Block>, l0: set<nat>, pinned: set<nat>, s0: map<nat, Block>, b1: seq<Block>,
                         l1: set<nat>, s1: map<nat, Block>, a: nat, o: nat, bytes: seq<byte>, x: nat)
    requires Accounted(b0, l0, pinned, s0, b1, l1, s1, a, o, bytes)
    requires x < sb.datastart && (a == 0 || sb.datastart <= a)
    ensures Accounted(b0, l0, pinned, s0, b1, l1 + {x}, Without(s1, l1 + {x}), a, o, bytes)
  {
    WithoutMore(s0, l1, l1 + {x});
    hide Differs;
    if Unlogged(b0, l0, a, o, bytes) {
      assert b1[a] != b0[a];
      if a !in pinned {
        assert Without(Without(s0, l1)[a := Fallback(b0, s0, a)], l1 + {x})
            == Without(Without(s0, l1), l1 + {x})[a := Fallback(b0, s0, a)];
      }
    }
  }

  /** The slot of a file's block keeps its block, and an empty one gets a logged one. */
  lemma SlotStays(sb: Super, b0: seq<Block>, n0: seq<Inode>, o0: map<nat, Slot>, l0: set<nat>, s0: map<nat, Block>,
                  b1: seq<Block>, n1: seq<Inode>, o1: map<nat, Slot>, l1: set<nat>, s1: map<nat, Block>, inum: nat,
                  bn: nat)
    requires Owned(sb, b0, n0, o0, NO_CUT) && Owned(sb, b1, n1, o1, NO_CUT) && Tracks(l0, s0, o0, l1, s1, o1)
    ensures var a0, a1 := BlockOf(b0, n0, inum, bn), BlockOf(b1, n1, inum, bn);
            && (a0 != 0 ==> a1 == a0 && Owns(o0, a0, FileSlot(inum, bn)))
            && (a0 == 0 && a1 != 0 ==> a1 in l1)
  {
    hide InUse, Val;
    var s := FileSlot(inum, bn);
    var a0, a1 := BlockOf(b0, n0, inum, bn), BlockOf(b1, n1, inum, bn);
    if a0 != 0 {
      assert Owns(o0, a0, s) && Owns(o1, a0, o0[a0]);
      assert Val(b1, n1, NO_CUT, o1[a0]) == a0;
    } else if a1 != 0 {
      assert Owns(o1, a1, s);
      assert a1 in o0 ==> Owns(o1, a1, o0[a1]);
    }
  }

  /** What is accounted for since the last turn is accounted for since the start. */
  lemma AccountedThrough(sb: Super, b0: seq<Block>, n0: seq<Inode>, o0: map<nat, Slot>, l0: set<nat>,
                         s0: map<nat, Block>, pinned: set<nat>, b1: seq<Block>, n1: seq<Inode>, o1: map<nat, Slot>,
                         l1: set<nat>, s1: map<nat, Block>, b2: seq<Block>, l2: set<nat>, s2: map<nat, Block>,
                         inum: nat, bn: nat, o: nat, bytes: seq<byte>)
    requires Owned(sb, b0, n0, o0, NO_CUT) && Owned(sb, b1, n1, o1, NO_CUT) && Tracks(l0, s0, o0, l1, s1, o1)
    requires LogsChanges(b0, b1, l0, l1) && Ahead(o0, b0, l0, b1, l1, inum, bn)
    requires Accounted(b1, l1, pinned, s1, b2, l2, s2, BlockOf(b1, n1, inum, bn), o, bytes)
    ensures Accounted(b0, l0, pinned, s0, b2, l2, s2, BlockOf(b0, n0, inum, bn), o, bytes)
  {
    hide Owned, BlockOf, Differs;
    SlotStays(sb, b0, n0, o0, l0, s0, b1, n1, o1, l1, s1, inum, bn);
    WithoutMore(s0, l1, l2);
    var a0, a1 := BlockOf(b0, n0, inum, bn), BlockOf(b1, n1, inum, bn);
    if a0 != 0 {
      assert Later(o0[a0], inum, bn);
    }
    assert Unlogged(b1, l1, a1, o, bytes) <==> Unlogged(b0, l0, a0, o, bytes);
    assert forall b :: 0 <= b < |b0| && b !in l2 ==> b1[b] == b0[b];
  }

  /** The count writei returns when the source yields len of n bytes and the disk does not fill up: the
    * bytes of whole chunks, that is up to the last block boundary. */
  function Counted(off: nat, len: nat, n: nat): nat {
    if len >= n then n else if len <= (off + len) % BSIZE then 0 else len - (off + len) % BSIZE
  }

  /** Bytes are in the file and not counted exactly when the source gives out inside a block. */
  lemma CountedShort(off: nat, len: nat, n: nat)
    requires len <= n
    ensures Counted(off, len, n) < len <==> 0 < len < n && (off + len) % BSIZE != 0
    ensures Counted(off, len, n) <= len < Counted(off, len, n) + BSIZE
    ensures var c := Counted(off, len, n); (off + c) % BSIZE + (len - c) <= BSIZE
  {
  }

  /** The loop of writei, all of its chunks logged so far. */
  ghost predicate Progress(sb: Super, b0: seq<Block>, n0: seq<Inode>, o0: map<nat, Slot>, l0: set<nat>,
                           s0: map<nat, Block>, b1: seq<Block>, n1: seq<Inode>, o1: map<nat, Slot>, l1: set<nat>,
                           s1: map<nat, Block>, inum: nat, off: nat, tot: nat, n: nat)
  {
    && Owned(sb, b0, n0, o0, NO_CUT) && Owned(sb, b1, n1, o1, NO_CUT) && Tracks(l0, s0, o0, l1, s1, o1)
    && LogsChanges(b0, b1, l0, l1)
    && (tot < n ==> (tot == 0 || (off + tot) % BSIZE == 0) && Ahead(o0, b0, l0, b1, l1, inum, (off + tot) / BSIZE))
  }

  /** How the loop of writei leaves things: tot bytes counted, `touched` in the file. */
  ghost predicate Tail(sb: Super, b0: seq<Block>, n0: seq<Inode>, l0: set<nat>, s0: map<nat, Block>, pinned: set<nat>,
                       b1: seq<Block>, n1: seq<Inode>, o1: map<nat, Slot>, l1: set<nat>, s1: map<nat, Block>, inum: nat,
                       src: seq<byte>, off: nat, tot: nat, touched: nat, n: nat)
  {
    && tot <= touched <= |src| && |b1| == |b0|
    && var a := BlockOf(b0, n0, inum, (off + tot) / BSIZE);
    && Accounted(b0, l0, pinned, s0, b1, l1, s1, a, (off + tot) % BSIZE, src[tot..touched])
    && (a == 0 || (sb.datastart <= a && Owns(o1, a, FileSlot(inum, (off + tot) / BSIZE))))
    && (tot < touched && a != 0 ==> a < |b1| == |b0| && Written(b0, n0, b1[a := b0[a]], n1, inum, src, off, tot))
    && (touched == |src| ==> tot == Counted(off, |src|, n))
    && (touched < |src| ==> !Mapped(b0, n0, inum, off + |src|))
  }

  lemma TailFacts(sb: Super, b0: seq<Block>, n0: seq<Inode>, l0: set<nat>, s0: map<nat, Block>, pinned: set<nat>,
                  b1: seq<Block>, n1: seq<Inode>, o1: map<nat, Slot>, l1: set<nat>, s1: map<nat, Block>, inum: nat,
                  src: seq<byte>, off: nat, tot: nat, touched: nat, n: nat)
    requires Tail(sb, b0, n0, l0, s0, pinned, b1, n1, o1, l1, s1, inum, src, off, tot, touched, n)
    ensures tot <= touched <= |src| && |b1| == |b0|
    ensures var a := BlockOf(b0, n0, inum, (off + tot) / BSIZE);
            && Accounted(b0, l0, pinned, s0, b1, l1, s1, a, (off + tot) % BSIZE, src[tot..touched])
            && (a == 0 || (sb.datastart <= a && Owns(o1, a, FileSlot(inum, (off + tot) / BSIZE))))
            && (tot < touched && a != 0 ==> a < |b1| && Written(b0, n0, b1[a := b0[a]], n1, inum, src, off, tot))
    ensures touched == |src| ==> tot == Counted(off, |src|, n)
    ensures touched < |src| ==> !Mapped(b0, n0, inum, off + |src|)
  {
    hide Written, Owns, Mapped, Counted;
  }

  lemma ProgressStart(sb: Super, b0: seq<Block>, n0: seq<Inode>, o0: map<nat, Slot>, l0: set<nat>, s0: map<nat, Block>,
                      inum: nat, off: nat, n: nat)
    requires Owned(sb, b0, n0, o0, NO_CUT) && forall b :: b in s0 ==> b !in l0
    ensures Progress(sb, b0, n0, o0, l0, s0, b0, n0, o0, l0, s0, inum, off, 0, n)
  {
    hide Val, InUse, Without;
    TracksNothing(l0, s0, o0);
    forall b | b in o0
      ensures b < |b0|
    {
      assert sb.datastart <= b < sb.size;
    }
  }

  lemma ProgressNext(sb: Super, b0: seq<Block>, n0: seq<Inode>, o0: map<nat, Slot>, l0: set<nat>, s0: map<nat, Block>,
                     b1: seq<Block>, n1: seq<Inode>, o1: map<nat, Slot>, l1: set<nat>, s1: map<nat, Block>,
                     b2: seq<Block>, n2: seq<Inode>, o2: map<nat, Slot>, l2: set<nat>, s2: map<nat, Block>, inum: nat,
                     off: nat, tot: nat, m: nat, n: nat)
    requires Progress(sb, b0, n0, o0, l0, s0, b1, n1, o1, l1, s1, inum, off, tot, n) && tot < n
    requires m == Min(n - tot, BSIZE - (off + tot) % BSIZE)
    requires Owned(sb, b2, n2, o2, NO_CUT) && Tracks(l1, s1, o1, l2, s2, o2) && LogsChanges(b1, b2, l1, l2)
    requires Ahead(o1, b1, l1, b2, l2, inum, (off + tot) / BSIZE + 1)
    ensures Progress(sb, b0, n0, o0, l0, s0, b2, n2, o2, l2, s2, inum, off, tot + m, n)
  {
    hide Owned, Without;
    TracksTrans(l0, s0, o0, l1, s1, o1, l2, s2, o2);
    LogsMore(b0, b1, b2, l0, l1, l2);
    if tot + m < n {
      NextBlock(off + tot, m);
      assert Ahead(o0, b0, l0, b2, l2, inum, (off + tot) / BSIZE + 1) by {
        forall b | b in o0 && Later(o0[b], inum, (off + tot) / BSIZE + 1)
          ensures b < |b0| && b2[b] == b0[b] && (b in l2 ==> b in l0)
        {
          assert Owns(o1, b, o0[b]) && Later(o1[b], inum, (off + tot) / BSIZE + 1);
          assert Later(o0[b], inum, (off + tot) / BSIZE);
        }
      }
    }
  }

  lemma NextBlock(x: nat, m: nat)
    requires m == BSIZE - x % BSIZE
    ensures (x + m) % BSIZE == 0 && (x + m) / BSIZE == x / BSIZE + 1
  {
  }

  lemma ProgressEnd(sb: Super, b0: seq<Block>, n0: seq<Inode>, o0: map<nat, Slot>, l0: set<nat>, s0: map<nat, Block>,
                    pinned: set<nat>, b1: seq<Block>, n1: seq<Inode>, o1: map<nat, Slot>, l1: set<nat>,
                    s1: map<nat, Block>, inum: nat, src: seq<byte>, off: nat, n: nat)
    requires Progress(sb, b0, n0, o0, l0, s0, b1, n1, o1, l1, s1, inum, off, n, n) && |src| == n
    ensures |b1| == |b0|
    ensures Tail(sb, b0, n0, l0, s0, pinned, b1, n1, o1, l1, s1, inum, src, off, n, n, n)
  {
    hide Written, Mapped, Without, InUse, Val;
    var bn, a := (off + n) / BSIZE, BlockOf(b0, n0, inum, (off + n) / BSIZE);
    AccountedNone(b0, l0, pinned, s0, b1, l1, s1, a, (off + n) % BSIZE);
    SlotStays(sb, b0, n0, o0, l0, s0, b1, n1, o1, l1, s1, inum, bn);
    assert src[n..n] == [];
  }

  lemma TailNext(sb: Super, b0: seq<Block>, n0: seq<Inode>, o0: map<nat, Slot>, l0: set<nat>, s0: map<nat, Block>,
                 pinned: set<nat>, b1: seq<Block>, n1: seq<Inode>, o1: map<nat, Slot>, l1: set<nat>,
                 s1: map<nat, Block>, b2: seq<Block>, n2: seq<Inode>, o2: map<nat, Slot>, l2: set<nat>,
                 s2: map<nat, Block>, inum: nat, src: seq<byte>, off: nat, tot: nat, m: nat, n: nat, addr: nat)
    requires Progress(sb, b0, n0, o0, l0, s0, b1, n1, o1, l1, s1, inum, off, tot, n) && tot < n
    requires Written(b0, n0, b1, n1, inum, src, off, tot) && off + n <= MAXFILE * BSIZE && tot <= |src| <= n
    requires m == Min(n - tot, BSIZE - (off + tot) % BSIZE) && (addr != 0 ==> tot + m > |src|)
    requires var a := BlockOf(b1, n1, inum, (off + tot) / BSIZE);
             && (a != 0 ==> addr == a)
             && Accounted(b1, l1, pinned, s1, b2, l2, s2, a, (off + tot) % BSIZE, if addr != 0 then src[tot..] else [])
             && (addr != 0 && a != 0 ==> OnlyTail(b1, b2, a) && n2 == n1 && o2 == o1)
    ensures |b2| == |b0|
    ensures Tail(sb, b0, n0, l0, s0, pinned, b2, n2, o2, l2, s2, inum, src, off, tot, if addr != 0 then |src| else tot,
                 n)
  {
    hide Written, Without, InUse, Val, Accounted, Owned, LogsChanges;
    var bn, touched := (off + tot) / BSIZE, if addr != 0 then |src| else tot;
    var a := BlockOf(b0, n0, inum, bn);
    assert src[tot..touched] == if addr != 0 then src[tot..] else [];
    AccountedThrough(sb, b0, n0, o0, l0, s0, pinned, b1, n1, o1, l1, s1, b2, l2, s2, inum, bn, (off + tot) % BSIZE,
                     src[tot..touched]);
    SlotStays(sb, b0, n0, o0, l0, s0, b1, n1, o1, l1, s1, inum, bn);
    BlockStart(off + tot, MAXFILE);
    AccountedFacts(b0, l0, pinned, s0, b2, l2, s2, a, (off + tot) % BSIZE, src[tot..touched]);
    if touched == |src| {
      CountedAt(off, tot, |src|, n);
    }
    if a != 0 {
      assert Owns(o1, a, o0[a]);
      PlaceFacts(sb, b0, n0, o0, s0, inum, bn);
      assert Later(o0[a], inum, bn);
    }
  }

  /** A chunk starts at `tot`, and the source gives out inside it. */
  lemma CountedAt(off: nat, tot: nat, len: nat, n: nat)
    requires tot <= len <= n && tot < n && (tot == 0 || (off + tot) % BSIZE == 0)
    requires len == tot || len < tot + Min(n - tot, BSIZE - (off + tot) % BSIZE)
    ensures tot == Counted(off, len, n)
  {
    OffsetInBlock(off + tot, len - tot);
    CountedFrom(off, tot, len, n);
  }

  lemma CountedFrom(off: nat, tot: nat, len: nat, n: nat)
    requires tot <= len < n && (tot == 0 || (off + tot) % BSIZE == 0)
    requires (off + len) % BSIZE == (off + tot) % BSIZE + (len - tot)
    ensures tot == Counted(off, len, n)
  {
  }

  lemma FadingStart(sb: Super, block: seq<Block>, inode: seq<Inode>, owner: map<nat, Slot>, inum: nat, x: byte)
    requires Owned(sb, block, inode, owner, NO_CUT) && Dense(block, inode) && inum < |inode| && inode[inum].size > 1
    requires x != ByteAt(block, inode, inum, 0)
    ensures var a := BlockOf(block, inode, inum, 0);
            0 < a < |block| && Differs(block[a], 0, [x]) && a in owner
    ensures Mapped(block, inode, inum, 1) && Counted(0, 1, 2) == 0 && inode[inum].size <= MAXFILE * BSIZE
  {
    DenseAt(block, inode, inum);
    PlaceFacts(sb, block, inode, owner, map[], inum, 0);
    hide Owned, Val;
    assert [x][0] == x;
  }

  lemma FirstByte(b0: seq<Block>, n0: seq<Inode>, b1: seq<Block>, n1: seq<Inode>, inum: nat, src: seq<byte>, tot: nat)
    requires Overwritten(b0, n0, b1, n1, inum, src, 0, tot) && inum < |n1| && n1[inum].size > 0
    ensures ByteAt(b1, n1, inum, 0) == if tot > 0 then src[0] else ByteAt(b0, n0, inum, 0)
  {
    hide ByteAt;
  }

  lemma PatchedDiffers(b: Block, o: nat, bytes: seq<byte>)
    requires o + |bytes| <= BSIZE
    ensures Patched(b, o, bytes) != b <==> Differs(b, o, bytes)
  {
    var r := Patched(b, o, bytes);
    if Differs(b, o, bytes) {
      var j :| 0 <= j < |bytes| && o + j < BSIZE && bytes[j] != b[o + j];
      assert r[o + j] == bytes[j];
    } else {
      forall x | 0 <= x < BSIZE
        ensures r[x] == b[x]
      {
        assert o <= x < o + |bytes| ==> bytes[x - o] == b[o + (x - o)];
      }
      assert r == b;
    }
  }

  /** A slot that was empty got a logged block; a slot in use was left alone up to here. */
  lemma PokeAccounted(b0: seq<Block>, l0: set<nat>, pinned: set<nat>, s0: map<nat, Block>, was: nat, b1: seq<Block>,
                      l1: set<nat>, s1: map<nat, Block>, a: nat, o: nat, bytes: seq<byte>, b2: seq<Block>,
                      s2: map<nat, Block>)
    requires LogsChanges(b0, b1, l0, l1) && s1 == Without(s0, l1) && 0 < a < |b1| && o + |bytes| <= BSIZE
    requires if was == 0 then a in l1 else was == a && b1 == b0 && l1 == l0 && s1 == s0
    requires b2 == b1[a := Patched(b1[a], o, bytes)]
    ensures was != 0 ==> OnlyTail(b0, b2, a)
    requires s2 == if b2[a] != b1[a] && a !in l1 && a !in pinned then s1[a := Fallback(b1, s1, a)] else s1
    ensures Accounted(b0, l0, pinned, s0, b2, l1, s2, was, o, bytes)
  {
    hide Patched, Without;
    PatchedDiffers(b1[a], o, bytes);
    assert b2[a := b1[a]] == b1;
    if was != 0 && a !in l1 && Differs(b1[a], o, bytes) {
      assert b2[a] != b0[a];
    }
  }

  lemma WriteAccounted(b0: seq<Block>, l0: set<nat>, pinned: set<nat>, s0: map<nat, Block>, o0: map<nat, Slot>,
                       b1: seq<Block>, l1: set<nat>, s1: map<nat, Block>, o1: map<nat, Slot>, a: nat, b2: seq<Block>,
                       l2: set<nat>, s2: map<nat, Block>, was: nat, o: nat)
    requires LogsChanges(b0, b1, l0, l1) && Tracks(l0, s0, o0, l1, s1, o1)
    requires |b2| == |b1| && forall c :: 0 <= c < |b2| && c != a ==> b2[c] == b1[c]
    requires l2 == l1 + {a} && s2 == Without(s1, l2)
    ensures Accounted(b0, l0, pinned, s0, b2, l2, s2, was, o, [])
    ensures Tracks(l0, s0, o0, l2, s2, o1)
  {
    WithoutMore(s0, l1, l2);
  }

  /** Nothing but block a has changed. */
  ghost predicate OnlyTail(b0: seq<Block>, b1: seq<Block>, a: nat) {
    a < |b0| == |b1| && b1[a := b0[a]] == b0
  }

  lemma TracksFacts(l0: set<nat>, s0: map<nat, Block>, o0: map<nat, Slot>, l1: set<nat>, s1: map<nat, Block>,
                    o1: map<nat, Slot>)
    requires Tracks(l0, s0, o0, l1, s1, o1)
    ensures l0 <= l1 && s1 == Without(s0, l1)
  {
  }

  lemma AstrayMore(sb: Super, stray: map<nat, Block>, owner: map<nat, Slot>, a: nat, data: Block)
    requires Astray(sb, stray, owner) && sb.datastart <= a && (a in owner ==> !owner[a].Indirect?)
    ensures Astray(sb, stray[a := data], owner)
  {
  }

  lemma AstrayLess(sb: Super, stray: map<nat, Block>, owner: map<nat, Slot>, logged: set<nat>)
    requires Astray(sb, stray, owner)
    ensures Astray(sb, Without(stray, logged), owner)
  {
  }

  /** A file's block is a data block, and no indirect one. */
  lemma PlaceFacts(sb: Super, block: seq<Block>, inode: seq<Inode>, owner: map<nat, Slot>, stray: map<nat, Block>,
                   inum: nat, bn: nat)
    requires Owned(sb, block, inode, owner, NO_CUT) && BlockOf(block, inode, inum, bn) != 0
    ensures var a := BlockOf(block, inode, inum, bn);
            && sb.datastart <= a < sb.size <= |block| && Owns(owner, a, FileSlot(inum, bn))
  {
  }

  /** The slots of a file from block number `from` on. */
  predicate Later(s: Slot, inum: nat, from: nat) {
    s.inum == inum && match s
      case Direct(_, i) => from <= i
      case Indirect(_) => false
      case Entry(_, j) => from <= NDIRECT + j
  }

  /** The blocks of the file from block number `from` on have neither changed nor been logged. */
  ghost predicate Ahead(o0: map<nat, Slot>, b0: seq<Block>, l0: set<nat>, b1: seq<Block>, l1: set<nat>, inum: nat,
                        from: nat) {
    && |b1| == |b0|
    && forall b :: b in o0 && Later(o0[b], inum, from) ==> b < |b0| && b1[b] == b0[b] && (b in l1 ==> b in l0)
  }

  lemma ChunkAhead(sb: Super, b0: seq<Block>, n0: seq<Inode>, o0: map<nat, Slot>, l0: set<nat>, b1: seq<Block>,
                   n1: seq<Inode>, o1: map<nat, Slot>, b2: seq<Block>, l2: set<nat>, inum: nat, bn: nat, a: nat,
                   maps: set<nat>, ind: set<nat>)
    requires Owned(sb, b0, n0, o0, NO_CUT) && Owned(sb, b1, n1, o1, NO_CUT) && Keeps(b0, n0, b1, n1)
    requires exists l1, s0, s1 :: Tracks(l0, s0, o0, l1, s1, o1)
    requires a == BlockOf(b1, n1, inum, bn) != 0
    requires |b2| == |b1| && forall c :: 0 <= c < |b2| && c != a ==> b2[c] == b1[c]
    requires l2 <= l0 + maps + {a} + ind && forall b :: b in maps ==> b < sb.datastart
    requires var i := Val(b1, n1, NO_CUT, Indirect(inum)); ind == if i == 0 then {} else {i}
    ensures Ahead(o0, b0, l0, b2, l2, inum, bn + 1)
  {
    hide InUse, Val;
    assert Owns(o1, a, FileSlot(inum, bn));
    assert forall i :: i in ind ==> Owns(o1, i, Indirect(inum));
    forall b | b in o0 && Later(o0[b], inum, bn + 1)
      ensures b < |b0| && b2[b] == b0[b] && (b in l2 ==> b in l0)
    {
      assert Val(b0, n0, NO_CUT, o0[b]) == b;
      assert Kept(b0, b1, b, Val(b1, n1, NO_CUT, o0[b]));
      assert Owns(o1, b, o0[b]);
    }
  }

  lemma AllocatedLogs(sb: Super, block: seq<Block>, r: nat, logged: set<nat>)
    requires SuperOk(sb, |block|) && r < sb.size
    ensures LogsChanges(block, Allocated(sb, block, r), logged, logged + {MapBlock(sb, r), r})
  {
    MarkOneBit(sb, block, r, true);
  }

  lemma AllocAddrKeeps(sb: Super, block: seq<Block>, inode: seq<Inode>, owner: map<nat, Slot>, inum: nat, i: nat,
                       r: nat)
    requires Owned(sb, block, inode, owner, NO_CUT)
    requires sb.datastart <= r < sb.size && !InUse(sb, block, r)
    requires inum < |inode| && i <= NDIRECT && inode[inum].addrs[i] == 0
    ensures Keeps(block, inode, Allocated(sb, block, r), SetAddr(inode, inum, i, r))
  {
    AllocatedFrame(sb, block, inode, owner, r);
    AllocAddr(sb, block, inode, owner, inum, i, r);
    hide Allocated, InUse, Val;
    var block', inode' := Allocated(sb, block, r), SetAddr(inode, inum, i, r);
    forall s: Slot | !s.Indirect? && Val(block, inode, NO_CUT, s) != 0
      ensures Kept(block, block', Val(block, inode, NO_CUT, s), Val(block', inode', NO_CUT, s))
    {
      assert Owns(owner, Val(block, inode, NO_CUT, s), s);
    }
  }

  lemma AllocEntryKeeps(sb: Super, block: seq<Block>, inode: seq<Inode>, owner: map<nat, Slot>, inum: nat, j: nat,
                        r: nat)
    requires Owned(sb, block, inode, owner, NO_CUT)
    requires sb.datastart <= r < sb.size && !InUse(sb, block, r)
    requires inum < |inode| && j < NINDIRECT && inode[inum].addrs[NDIRECT] != 0
    requires Val(block, inode, NO_CUT, Entry(inum, j)) == 0
    ensures var ind := inode[inum].addrs[NDIRECT];
            && ind < |block|
            && var one := Allocated(sb, block, r);
            Keeps(block, inode, one[ind := PutWord(one[ind], j, r)], inode)
  {
    AllocatedFrame(sb, block, inode, owner, r);
    AllocEntry(sb, block, inode, owner, inum, j, r);
    var ind := inode[inum].addrs[NDIRECT];
    assert Val(block, inode, NO_CUT, Indirect(inum)) == ind;
    hide Allocated, InUse, Val, PutWord;
    var one := Allocated(sb, block, r);
    var block' := one[ind := PutWord(one[ind], j, r)];
    forall s: Slot | !s.Indirect? && Val(block, inode, NO_CUT, s) != 0
      ensures Kept(block, block', Val(block, inode, NO_CUT, s), Val(block', inode, NO_CUT, s))
    {
      assert Owns(owner, Val(block, inode, NO_CUT, s), s);
      assert Owns(owner, ind, Indirect(inum));
    }
  }

  lemma KeepsSizes(b0: seq<Block>, n0: seq<Inode>, b1: seq<Block>, n1: seq<Inode>)
    requires Keeps(b0, n0, b1, n1)
    ensures |b1| == |b0| && |n1| == |n0| && forall i :: 0 <= i < |n0| ==> n1[i].size == n0[i].size
  {
  }

  lemma KeepsTrans(b0: seq<Block>, n0: seq<Inode>, b1: seq<Block>, n1: seq<Inode>, b2: seq<Block>, n2: seq<Inode>)
    requires Keeps(b0, n0, b1, n1) && Keeps(b1, n1, b2, n2)
    ensures Keeps(b0, n0, b2, n2)
  {
    hide Val;
    forall s: Slot | !s.Indirect? && Val(b0, n0, NO_CUT, s) != 0
      ensures Kept(b0, b2, Val(b0, n0, NO_CUT, s), Val(b2, n2, NO_CUT, s))
    {
      assert Kept(b0, b1, Val(b0, n0, NO_CUT, s), Val(b1, n1, NO_CUT, s));
      assert Kept(b1, b2, Val(b1, n1, NO_CUT, s), Val(b2, n2, NO_CUT, s));
    }
  }

  lemma KeepsSelf(b: seq<Block>, n: seq<Inode>, owner: map<nat, Slot>, sb: Super)
    requires Owned(sb, b, n, owner, NO_CUT)
    ensures Keeps(b, n, b, n)
  {
    hide Val, InUse;
    forall s: Slot | !s.Indirect? && Val(b, n, NO_CUT, s) != 0
      ensures Kept(b, b, Val(b, n, NO_CUT, s), Val(b, n, NO_CUT, s))
    {
      assert Owns(owner, Val(b, n, NO_CUT, s), s);
    }
  }

  class Fs {
    const store: Store
    const inodestart: nat
    var inode: seq<Inode>
    ghost var owner: map<nat, Slot>

    ghost predicate OwnedNow()
      reads this, store
    {
      && store.Valid() && Owned(store.sb, store.block, inode, owner, NO_CUT)
      && Astray(store.sb, store.stray, owner)
      && InodesInMeta(store.sb, inodestart, |inode|)
    }

    ghost predicate Valid()
      reads this, store
    {
      OwnedNow() && Dense(store.block, inode)
    }

    constructor (store: Store, inodestart: nat, inode: seq<Inode>, ghost owner: map<nat, Slot>)
      requires store.Valid() && Owned(store.sb, store.block, inode, owner, NO_CUT) && Dense(store.block, inode)
      requires Astray(store.sb, store.stray, owner) && InodesInMeta(store.sb, inodestart, |inode|)
      ensures Valid() && this.store == store && this.inodestart == inodestart
      ensures this.inode == inode && this.owner == owner
    {
      this.store, this.inodestart, this.inode, this.owner := store, inodestart, inode, owner;
    }

    /** IBLOCK(inum). */
    function InodeBlock(inum: nat): nat {
      inum / IPB + inodestart
    }

    /** Whatever changed hands or contents since logged blocks, stray contents and ownership were l0, s0 and o0
      * has been logged. */
    ghost predicate Tracked(l0: set<nat>, s0: map<nat, Block>, o0: map<nat, Slot>)
      reads this, store
    {
      Tracks(l0, s0, o0, store.logged, store.stray, owner)
    }

    ghost function Ind(inum: nat): nat
      reads this, store
    {
      Val(store.block, inode, NO_CUT, Indirect(inum))
    }

    ghost function IndSet(inum: nat): set<nat>
      reads this, store
    {
      if Ind(inum) == 0 then {} else {Ind(inum)}
    }

    ghost function Slotted(s: Slot): nat
      reads this, store
    {
      Val(store.block, inode, NO_CUT, s)
    }

    /** Fill an empty slot of the inode itself: a direct block, or the indirect block. */
    method FillAddr(inum: nat, i: nat) returns (addr: nat, ghost maps: set<nat>)
      requires OwnedNow() && inum < |inode| && i <= NDIRECT && inode[inum].addrs[i] == 0
      modifies this, store`block, store`logged, store`stray
      ensures OwnedNow()
      ensures Keeps(old(store.block), old(inode), store.block, inode)
      ensures OnlySlot(old(store.block), old(inode), store.block, inode,
                       if i < NDIRECT then Direct(inum, i) else Indirect(inum))
      ensures forall k :: 0 <= k < |inode| && k != inum ==> inode[k] == old(inode)[k]
      ensures addr == 0 ==> unchanged(this, store) && store.AllInUse(0, store.sb.size)
      ensures addr != 0 ==> store.sb.datastart <= addr < store.sb.size && store.block[addr] == Zero()
      ensures addr != 0 ==> inode == SetAddr(old(inode), inum, i, addr)
      ensures LogsChanges(old(store.block), store.block, old(store.logged), store.logged)
      ensures |maps| <= 1 && store.logged <= old(store.logged) + maps + {addr}
      ensures forall b :: b in maps ==> b < store.sb.datastart
      ensures Tracked(old(store.logged), old(store.stray), old(owner)) && (addr != 0 ==> addr in store.logged)
    {
      hide Owned, InUse, Mark, Val, Tracks;
      maps := {};
      TracksNothing(store.logged, store.stray, owner);
      OwnedMeta(store.sb, store.block, inode, owner);
      KeepsSelf(store.block, inode, owner, store.sb);
      OwnedSizes(store.sb, store.block, inode, owner);
      addr := store.Balloc();
      if addr != 0 {
        AllocatedFrame(store.sb, old(store.block), inode, owner, addr);
        AllocAddr(store.sb, old(store.block), inode, owner, inum, i, addr);
        AllocAddrKeeps(store.sb, old(store.block), inode, owner, inum, i, addr);
        AllocatedLogs(store.sb, old(store.block), addr, old(store.logged));
        inode := SetAddr(inode, inum, i, addr);
        TracksAlloc(old(store.logged), old(store.stray), owner, store.logged, store.stray, addr,
                    if i < NDIRECT then Direct(inum, i) else Indirect(inum));
        owner := owner[addr := if i < NDIRECT then Direct(inum, i) else Indirect(inum)];
        maps := {MapBlock(store.sb, addr)};
      }
    }

    /** Fill an empty word of the inode's indirect block. */
    method FillEntry(inum: nat, j: nat) returns (addr: nat, ghost maps: set<nat>)
      requires OwnedNow() && inum < |inode| && j < NINDIRECT
      requires Ind(inum) != 0 && Slotted(Entry(inum, j)) == 0
      modifies this, store`block, store`logged, store`stray
      ensures OwnedNow()
      ensures inode == old(inode)
      ensures Keeps(old(store.block), old(inode), store.block, inode)
      ensures OnlySlot(old(store.block), old(inode), store.block, inode, Entry(inum, j))
      ensures Ind(inum) == old(Ind(inum))
      ensures addr == 0 ==> unchanged(this, store) && store.AllInUse(0, store.sb.size)
      ensures addr != 0 ==> store.sb.datastart <= addr < store.sb.size && store.block[addr] == Zero()
      ensures addr != 0 ==> Slotted(Entry(inum, j)) == addr
      ensures LogsChanges(old(store.block), store.block, old(store.logged), store.logged)
      ensures |maps| <= 1 && store.logged <= old(store.logged) + maps + {addr} + IndSet(inum)
      ensures forall b :: b in maps ==> b < store.sb.datastart
      ensures Tracked(old(store.logged), old(store.stray), old(owner)) && (addr != 0 ==> addr in store.logged)
    {
      hide Owned, InUse, Mark, PutWord, Word, Tracks;
      maps := {};
      TracksNothing(store.logged, store.stray, owner);
      OwnedMeta(store.sb, store.block, inode, owner);
      KeepsSelf(store.block, inode, owner, store.sb);
      OwnedSizes(store.sb, store.block, inode, owner);
      addr := store.Balloc();
      if addr != 0 {
        var ind := inode[inum].addrs[NDIRECT];
        AllocatedFrame(store.sb, old(store.block), inode, owner, addr);
        AllocEntry(store.sb, old(store.block), inode, owner, inum, j, addr);
        AllocEntryKeeps(store.sb, old(store.block), inode, owner, inum, j, addr);
        AllocatedLogs(store.sb, old(store.block), addr, old(store.logged));
        WithoutMore(old(store.stray), store.logged, store.logged + {ind});
        store.Write(ind, PutWord(store.block[ind], j, addr));
        TracksAlloc(old(store.logged), old(store.stray), owner, store.logged, store.stray, addr, Entry(inum, j));
        owner := owner[addr := Entry(inum, j)];
        maps := {MapBlock(store.sb, addr)};
      }
    }

    /** The disk block of block number bn, allocated and zeroed if there was none; 0 when the disk is full. */
    method Bmap(inum: nat, bn: nat) returns (addr: nat, ghost maps: set<nat>)
      requires OwnedNow() && inum < |inode| && bn < MAXFILE
      modifies this, store`block, store`logged, store`stray
      ensures OwnedNow()
      ensures Keeps(old(store.block), old(inode), store.block, inode)
      ensures OnlySlot(old(store.block), old(inode), store.block, inode, FileSlot(inum, bn))
      ensures forall k :: 0 <= k < |inode| && k != inum ==> inode[k] == old(inode)[k]
      ensures addr == Slotted(FileSlot(inum, bn))
      ensures addr == 0 ==> store.AllInUse(0, store.sb.size)
      ensures addr != 0 ==> store.sb.datastart <= addr < store.sb.size
      ensures old(Slotted(FileSlot(inum, bn))) != 0 ==> unchanged(this, store)
      ensures addr != 0 && old(Slotted(FileSlot(inum, bn))) == 0 ==> store.block[addr] == Zero()
      ensures old(Ind(inum)) != 0 ==> Ind(inum) == old(Ind(inum))
      ensures |maps| <= (if old(Slotted(FileSlot(inum, bn))) == 0 then 1 else 0)
                        + (if old(Ind(inum)) == 0 && Ind(inum) != 0 then 1 else 0)
      ensures forall b :: b in maps ==> b < store.sb.datastart
      ensures store.logged <= old(store.logged) + maps + {addr} + IndSet(inum)
      ensures Tracked(old(store.logged), old(store.stray), old(owner))
      ensures addr != 0 && old(Slotted(FileSlot(inum, bn))) == 0 ==> addr in store.logged
      ensures LogsChanges(old(store.block), store.block, old(store.logged), store.logged)
    {
      hide Owned, InUse, Mark, PutWord, Word, Keeps, Tracks, OnlySlot;
      OnlySlotSelf(store.block, inode, FileSlot(inum, bn));
      maps := {};
      TracksNothing(store.logged, store.stray, owner);
      KeepsSelf(store.block, inode, owner, store.sb);
      OwnedSizes(store.sb, store.block, inode, owner);
      if bn < NDIRECT {
        addr := inode[inum].addrs[bn];
        if addr == 0 {
          addr, maps := FillAddr(inum, bn);
        } else {
          ValInData(store.sb, store.block, inode, owner, FileSlot(inum, bn));
        }
      } else {
        addr, maps := BmapIndirect(inum, bn - NDIRECT);
      }
    }

    /** The part of bmap that goes through the indirect block, allocating it if necessary. */
    method BmapIndirect(inum: nat, j: nat) returns (addr: nat, ghost maps: set<nat>)
      requires OwnedNow() && inum < |inode| && j < NINDIRECT
      modifies this, store`block, store`logged, store`stray
      ensures OwnedNow()
      ensures Keeps(old(store.block), old(inode), store.block, inode)
      ensures OnlySlot(old(store.block), old(inode), store.block, inode, Entry(inum, j))
      ensures forall k :: 0 <= k < |inode| && k != inum ==> inode[k] == old(inode)[k]
      ensures addr == Slotted(Entry(inum, j))
      ensures addr == 0 ==> store.AllInUse(0, store.sb.size)
      ensures addr != 0 ==> store.sb.datastart <= addr < store.sb.size
      ensures old(Slotted(Entry(inum, j))) != 0 ==> unchanged(this, store)
      ensures addr != 0 && old(Slotted(Entry(inum, j))) == 0 ==> store.block[addr] == Zero()
      ensures old(Ind(inum)) != 0 ==> Ind(inum) == old(Ind(inum))
      ensures |maps| <= (if old(Slotted(Entry(inum, j))) == 0 then 1 else 0)
                        + (if old(Ind(inum)) == 0 && Ind(inum) != 0 then 1 else 0)
      ensures forall b :: b in maps ==> b < store.sb.datastart
      ensures store.logged <= old(store.logged) + maps + {addr} + IndSet(inum)
      ensures Tracked(old(store.logged), old(store.stray), old(owner))
      ensures addr != 0 && old(Slotted(Entry(inum, j))) == 0 ==> addr in store.logged
      ensures LogsChanges(old(store.block), store.block, old(store.logged), store.logged)
    {
      hide Owned, InUse, Mark, PutWord, Word, Keeps, Zero, Tracks, OnlySlot;
      OnlySlotSelf(store.block, inode, Entry(inum, j));
      maps := {};
      TracksNothing(store.logged, store.stray, owner);
      KeepsSelf(store.block, inode, owner, store.sb);
      OwnedSizes(store.sb, store.block, inode, owner);
      var ind := inode[inum].addrs[NDIRECT];
      if ind == 0 {
        ind, maps := FillAddr(inum, NDIRECT);
        OnlyIndirect(old(store.block), old(inode), store.block, inode, inum, Entry(inum, j));
        if ind == 0 {
          addr := 0;
          return;
        }
        ZeroWords(j);
      }
      label filled:
      ValInData(store.sb, store.block, inode, owner, Indirect(inum));
      addr := Word(store.block[ind], j);
      if addr == 0 {
        ghost var more: set<nat>;
        addr, more := FillEntry(inum, j);
        KeepsTrans(old(store.block), old(inode), old@filled(store.block), old@filled(inode), store.block, inode);
        OnlySlotTrans(old(store.block), old(inode), old@filled(store.block), old@filled(inode), store.block, inode,
                      Entry(inum, j));
        TracksTrans(old(store.logged), old(store.stray), old(owner), old@filled(store.logged), old@filled(store.stray),
                    old@filled(owner), store.logged, store.stray, owner);
        maps := maps + more;
      } else {
        ValInData(store.sb, store.block, inode, owner, Entry(inum, j));
      }
    }

    // -------------------------------------------------------------- truncation

    ghost predicate OthersKeptNow(b0: seq<Block>, n0: seq<Inode>, o0: map<nat, Slot>, inum: nat)
      reads this, store
    {
      OthersKept(store.sb, b0, n0, o0, store.block, inode, owner, inum)
    }

    ghost predicate MetaLoggedNow(b0: seq<Block>, l0: set<nat>, s0: map<nat, Block>)
      reads this, store
    {
      MetaLogged(store.sb, b0, l0, s0, store.block, store.logged, store.stray)
    }

    /** The loop over the indirect block's words; false is the panic "freeing free block". */
    method FreeEntries(inum: nat, ghost b0: seq<Block>, ghost l0: set<nat>, ghost s0: map<nat, Block>)
      returns (ok: bool)
      requires store.Valid() && inum < |inode| && |inode[inum].addrs| == NDIRECT + 1 && inode[inum].addrs[NDIRECT] != 0
      requires Owned(store.sb, store.block, inode, owner, Cut(inum, 0)) && Astray(store.sb, store.stray, owner)
      requires MetaLoggedNow(b0, l0, s0)
      modifies this`owner, store`block, store`logged, store`stray
      ensures ok && store.Valid() && MetaLoggedNow(b0, l0, s0)
      ensures Owned(store.sb, store.block, inode, owner, Cut(inum, NINDIRECT)) && Astray(store.sb, store.stray, owner)
      ensures OthersKeptNow(old(store.block), inode, old(owner), inum)
    {
      hide Owned, InUse, Mark, Word, MetaLogged;
      var ind := inode[inum].addrs[NDIRECT];
      FreeEntry(store.sb, store.block, inode, owner, inum, 0);
      var a := store.block[ind];
      CutSizes(store.sb, store.block, inode, owner, Cut(inum, 0));
      for j := 0 to NINDIRECT
        invariant store.Valid()
        invariant Owned(store.sb, store.block, inode, owner, Cut(inum, j)) && Astray(store.sb, store.stray, owner)
        invariant OthersKeptNow(old(store.block), inode, old(owner), inum)
        invariant store.block[ind] == a && MetaLoggedNow(b0, l0, s0)
      {
        FreeEntry(store.sb, store.block, inode, owner, inum, j);
        if Word(a, j) != 0 {
          FreedFrame(store.sb, store.block, inode, owner, Cut(inum, j), Word(a, j));
          FreeLogs(store.sb, b0, l0, s0, store.block, store.logged, store.stray, Word(a, j));
          ok := store.Bfree(Word(a, j));
          assert ok;
          owner := owner - {Word(a, j)};
        }
      }
      ok := true;
    }

    /** Discard the contents; every block the file owned becomes free and nobody else notices. The inode and
      * every block that changed are logged, and of the data blocks none. */
    method Itrunc(inum: nat) returns (ok: bool)
      requires Valid() && inum < |inode|
      modifies this, store`block, store`logged, store`stray
      ensures ok && Valid()
      ensures OthersKeptNow(old(store.block), old(inode), old(owner), inum)
      ensures inode[inum] == Inode(0, seq(NDIRECT + 1, i => 0))
      ensures forall b :: b in owner <==> b in old(owner) && old(owner)[b].inum != inum
      ensures InodeBlock(inum) in store.logged
      ensures LogsChanges(old(store.block), store.block, old(store.logged), store.logged)
      ensures forall b :: b in store.logged ==> b in old(store.logged) || b < store.sb.datastart
      ensures store.stray == Without(old(store.stray), store.logged)
    {
      hide Owned, InUse, Mark, Word, Dense, MetaLogged;
      ghost var b0, n0, o0, l0, s0 := store.block, inode, owner, store.logged, store.stray;
      CutSizes(store.sb, store.block, inode, owner, NO_CUT);
      NothingFreed(store.sb, b0, l0, s0);
      TruncDirect(inum, b0, n0, o0, l0, s0);
      ok := TruncIndirect(inum, b0, n0, o0, l0, s0);
      assert inode[inum].addrs == seq(NDIRECT + 1, i => 0);
      TruncDone(store.sb, b0, n0, o0, store.block, inode, owner, inum);
      InodeLogs(store.sb, b0, l0, s0, store.block, store.logged, store.stray, InodeBlock(inum));
      inode := inode[inum := inode[inum].(size := 0)];
      store.LogOnly(InodeBlock(inum));
    }

    /** The loop over the inode's direct blocks. */
    method TruncDirect(inum: nat, ghost b0: seq<Block>, ghost n0: seq<Inode>, ghost o0: map<nat, Slot>,
                       ghost l0: set<nat>, ghost s0: map<nat, Block>)
      requires OwnedNow() && OthersKeptNow(b0, n0, o0, inum) && MetaLoggedNow(b0, l0, s0)
      modifies this, store`block, store`logged, store`stray
      ensures OwnedNow() && OthersKeptNow(b0, n0, o0, inum) && MetaLoggedNow(b0, l0, s0)
      ensures forall k :: 0 <= k < NDIRECT ==> inode[inum].addrs[k] == 0
    {
      hide Owned, InUse, Mark, Word, MetaLogged;
      for i := 0 to NDIRECT
        invariant OwnedNow() && OthersKeptNow(b0, n0, o0, inum) && MetaLoggedNow(b0, l0, s0)
        invariant forall k :: 0 <= k < i ==> inode[inum].addrs[k] == 0
      {
        if inode[inum].addrs[i] != 0 {
          FreeAddr(store.sb, store.block, inode, owner, NO_CUT, inum, i);
          FreedFrame(store.sb, store.block, inode, owner, NO_CUT, inode[inum].addrs[i]);
          FreeLogs(store.sb, b0, l0, s0, store.block, store.logged, store.stray, inode[inum].addrs[i]);
          var ok := store.Bfree(inode[inum].addrs[i]);
          assert ok;
          owner := owner - {inode[inum].addrs[i]};
          inode := SetAddr(inode, inum, i, 0);
        }
      }
    }

    method TruncIndirect(inum: nat, ghost b0: seq<Block>, ghost n0: seq<Inode>, ghost o0: map<nat, Slot>,
                         ghost l0: set<nat>, ghost s0: map<nat, Block>)
      returns (ok: bool)
      requires OwnedNow() && OthersKeptNow(b0, n0, o0, inum) && MetaLoggedNow(b0, l0, s0)
      modifies this, store`block, store`logged, store`stray
      ensures ok && OwnedNow() && OthersKeptNow(b0, n0, o0, inum) && MetaLoggedNow(b0, l0, s0)
      ensures inode[inum].addrs == old(inode)[inum].addrs[NDIRECT := 0]
    {
      hide Owned, InUse, Mark, Word, MetaLogged;
      ok := true;
      if inode[inum].addrs[NDIRECT] != 0 {
        CutZero(store.sb, store.block, inode, owner, inum);
        ok := FreeEntries(inum, b0, l0, s0);
        FreeAddr(store.sb, store.block, inode, owner, Cut(inum, NINDIRECT), inum, NDIRECT);
        FreedFrame(store.sb, store.block, inode, owner, Cut(inum, NINDIRECT), inode[inum].addrs[NDIRECT]);
        FreeLogs(store.sb, b0, l0, s0, store.block, store.logged, store.stray, inode[inum].addrs[NDIRECT]);
        ok := store.Bfree(inode[inum].addrs[NDIRECT]);
        assert ok;
        owner := owner - {inode[inum].addrs[NDIRECT]};
        inode := SetAddr(inode, inum, NDIRECT, 0);
      }
    }

    // -------------------------------------------------------------- reading and writing

    /**
      Copy bytes [off, off+n) out, as far as the file goes; the destination has room for `room`
      bytes. -1 when the destination gives out; nothing is ever allocated.
     */
    method Readi(inum: nat, room: nat, off: word, n: word) returns (r: int, out: seq<byte>)
      requires Valid() && inum < |inode|
      modifies this, store`block, store`logged, store`stray
      ensures unchanged(this, store)
      ensures var len := if off > inode[inum].size || off + n >= WORD_LIMIT then 0 else Min(n, inode[inum].size - off);
              if len <= room then r == len && out == Slice(store.block, inode, inum, off, len)
              else r == -1
    {
      hide Owned, InUse, Mark, Word, Val, Slice, Dense, Astray, InodesInMeta, Tracks, LogsChanges, Keeps, Without,
        Store.AllInUse;
      out := [];
      assert Mapped(store.block, inode, inum, inode[inum].size) && inode[inum].size <= MAXFILE * BSIZE by {
        DenseAt(store.block, inode, inum);
      }
      if off > inode[inum].size || (off + n) % WORD_LIMIT < off {
        return 0, out;
      }
      var len: nat := n;
      if off + n > inode[inum].size {
        len := inode[inum].size - off;
      }
      var tot := 0;
      assert Slice(store.block, inode, inum, off, 0) == [];
      while tot < len
        invariant 0 <= tot <= len && unchanged(this, store)
        invariant tot <= room && out == Slice(store.block, inode, inum, off, tot)
        decreases len - tot
      {
        var bn, o := (off + tot) / BSIZE, (off + tot) % BSIZE;
        assert BlockOf(store.block, inode, inum, bn) != 0;
        var m := Min(len - tot, BSIZE - o);
        var chunk := ReadChunk(inum, off, tot, m);
        if tot + m > room {
          return -1, out;
        }
        out := out + chunk;
        tot := tot + m;
      }
      return tot, out;
    }

    /** One turn of writei's loop: map the block, copy as much of the chunk as the source yields, log it. */
    method WriteChunk(inum: nat, src: seq<byte>, off: nat, tot: nat, m: nat, ghost b0: seq<Block>, ghost n0: seq<Inode>)
      returns (stop: bool, ghost addr: nat, ghost maps: set<nat>)
      requires OwnedNow() && Written(b0, n0, store.block, inode, inum, src, off, tot)
      requires 0 < m && (off + tot) % BSIZE + m <= BSIZE && off + tot + m <= MAXFILE * BSIZE && tot <= |src|
      modifies this, store`block, store`logged, store`stray
      ensures OwnedNow()
      ensures addr != 0 ==> Written(b0, n0, store.block, inode, inum, src, off, Min(tot + m, |src|))
      ensures addr == 0 ==> Written(b0, n0, store.block, inode, inum, src, off, tot) && store.AllInUse(0, store.sb.size)
      ensures stop <==> addr == 0 || tot + m > |src|
      ensures var a := old(Slotted(FileSlot(inum, (off + tot) / BSIZE)));
              && (a != 0 ==> addr == a)
              && Accounted(old(store.block), old(store.logged), store.pinned, old(store.stray), store.block,
                           store.logged, store.stray, a, (off + tot) % BSIZE,
                           if stop && addr != 0 then src[tot..] else [])
              && (stop && addr != 0 && a != 0 ==> OnlyTail(old(store.block), store.block, a) && unchanged(this))
      ensures !stop ==> Tracked(old(store.logged), old(store.stray), old(owner))
      ensures !stop ==> Ahead(old(owner), old(store.block), old(store.logged), store.block, store.logged, inum,
                              (off + tot) / BSIZE + 1)
      ensures old(Ind(inum)) != 0 ==> Ind(inum) == old(Ind(inum))
      ensures |maps| <= (if old(Slotted(FileSlot(inum, (off + tot) / BSIZE))) == 0 then 1 else 0)
                        + (if old(Ind(inum)) == 0 && Ind(inum) != 0 then 1 else 0)
      ensures store.logged <= old(store.logged) + maps + {addr} + IndSet(inum)
    {
      hide Owned, InUse, Mark, Word, Val, Written, Patched, Tracks, Accounted, Ahead, Astray, LogsChanges, Store.Valid,
        Without, Fs.OwnedNow, OnlyTail, Keeps, InodesInMeta;
      var bn, o := (off + tot) / BSIZE, (off + tot) % BSIZE;
      ghost var b1, l1, s1, i1, o1, was := store.block, store.logged, store.stray, inode, owner,
        Slotted(FileSlot(inum, bn));
      var a;
      OwnedParts();
      a, maps := MapChunk(inum, src, off, tot, b0, n0);
      OwnedParts();
      addr := a;
      ghost var b2, l2, s2 := store.block, store.logged, store.stray;
      TracksFacts(l1, s1, o1, l2, s2, owner);
      AccountedNone(b1, l1, store.pinned, s1, b2, l2, s2, was, o);
      if a == 0 {
        return true, addr, maps;
      }
      if tot + m > |src| {
        PokeTail(inum, src, off, tot, a, b0, n0);
        PokeAccounted(b1, l1, store.pinned, s1, was, b2, l2, s2, a, o, src[tot..], store.block, store.stray);
        return true, addr, maps;
      }
      LogChunk(inum, src, off, tot, m, a, b0, n0);
      WriteAccounted(b1, l1, store.pinned, s1, o1, b2, l2, s2, owner, a, store.block, store.logged, store.stray, was,
                     o);
      ChunkAhead(store.sb, b1, i1, o1, l1, b2, inode, owner, store.block, store.logged, inum, bn, a, maps,
                 IndSet(inum));
      return false, addr, maps;
    }

    lemma OwnedParts()
      requires OwnedNow()
      ensures Owned(store.sb, store.block, inode, owner, NO_CUT)
    {
    }

    /** The next m bytes, all in one block that is there. */
    method ReadChunk(inum: nat, off: nat, tot: nat, m: nat) returns (chunk: seq<byte>)
      requires Valid() && inum < |inode| && (off + tot) / BSIZE < MAXFILE && (off + tot) % BSIZE + m <= BSIZE
      requires Slotted(FileSlot(inum, (off + tot) / BSIZE)) != 0
      modifies this, store`block, store`logged, store`stray
      ensures unchanged(this, store)
      ensures Slice(store.block, inode, inum, off, tot + m) == Slice(store.block, inode, inum, off, tot) + chunk
    {
      hide Owned, InUse, Mark, Word, Val, Slice, Dense, Astray, InodesInMeta, Tracks, LogsChanges, Keeps, Without,
        Store.AllInUse;
      var addr, _ := Bmap(inum, (off + tot) / BSIZE);
      ValInData(store.sb, store.block, inode, owner, FileSlot(inum, (off + tot) / BSIZE));
      SliceChunk(store.block, inode, inum, off, tot, m);
      chunk := store.block[addr][(off + tot) % BSIZE..(off + tot) % BSIZE + m];
    }

    /** bmap, of the block in which byte off + tot lies. */
    method MapChunk(inum: nat, src: seq<byte>, off: nat, tot: nat, ghost b0: seq<Block>, ghost n0: seq<Inode>)
      returns (a: nat, ghost maps: set<nat>)
      requires OwnedNow() && Written(b0, n0, store.block, inode, inum, src, off, tot) && off + tot < MAXFILE * BSIZE
      modifies this, store`block, store`logged, store`stray
      ensures OwnedNow() && Written(b0, n0, store.block, inode, inum, src, off, tot)
      ensures a == Slotted(FileSlot(inum, (off + tot) / BSIZE))
      ensures a == 0 ==> store.AllInUse(0, store.sb.size)
      ensures a != 0 ==> a < |store.block|
      ensures old(Slotted(FileSlot(inum, (off + tot) / BSIZE))) != 0 ==> unchanged(this, store)
      ensures a != 0 && old(Slotted(FileSlot(inum, (off + tot) / BSIZE))) == 0 ==> a in store.logged
      ensures old(Ind(inum)) != 0 ==> Ind(inum) == old(Ind(inum))
      ensures |maps| <= (if old(Slotted(FileSlot(inum, (off + tot) / BSIZE))) == 0 then 1 else 0)
                        + (if old(Ind(inum)) == 0 && Ind(inum) != 0 then 1 else 0)
      ensures forall b :: b in maps ==> b < store.sb.datastart
      ensures store.logged <= old(store.logged) + maps + {a} + IndSet(inum)
      ensures LogsChanges(old(store.block), store.block, old(store.logged), store.logged)
      ensures Tracked(old(store.logged), old(store.stray), old(owner))
      ensures Keeps(old(store.block), old(inode), store.block, inode)
      ensures OnlySlot(old(store.block), old(inode), store.block, inode, FileSlot(inum, (off + tot) / BSIZE))
    {
      hide Owned, InUse, Mark, Word, Val, Written, Keeps, Tracks, Astray, LogsChanges, Without, InodesInMeta;
      BlockStart(off + tot, MAXFILE);
      WrittenShape(b0, n0, store.block, inode, inum, src, off, tot);
      a, maps := Bmap(inum, (off + tot) / BSIZE);
      KeepsSizes(old(store.block), old(inode), store.block, inode);
      WrittenKeeps(b0, n0, old(store.block), old(inode), store.block, inode, inum, src, off, tot);
    }

    /** The source gives out inside the chunk: what it yielded is in the buffer, and the block is not logged. */
    method PokeTail(inum: nat, src: seq<byte>, off: nat, tot: nat, a: nat, ghost b0: seq<Block>, ghost n0: seq<Inode>)
      requires OwnedNow() && Written(b0, n0, store.block, inode, inum, src, off, tot) && tot <= |src|
      requires (off + tot) % BSIZE + |src| - tot <= BSIZE && off + |src| <= MAXFILE * BSIZE
      requires a == Slotted(FileSlot(inum, (off + tot) / BSIZE)) && 0 < a < |store.block|
      modifies store`block, store`stray
      ensures OwnedNow() && Written(b0, n0, store.block, inode, inum, src, off, |src|)
      ensures store.block == old(store.block)[a := Patched(old(store.block)[a], (off + tot) % BSIZE, src[tot..])]
      ensures store.stray == if store.Lossy(old(store.block)[a], a, store.block[a])
                             then old(store.stray)[a := old(store.Behind(a))] else old(store.stray)
      ensures Ind(inum) == old(Ind(inum))
    {
      hide Owned, InUse, Mark, Word, Val, Written, Patched, Astray;
      var part, o := |src| - tot, (off + tot) % BSIZE;
      assert src[tot..] == src[tot..tot + part];
      PlaceFacts(store.sb, store.block, inode, owner, store.stray, inum, (off + tot) / BSIZE);
      WrittenNext(store.sb, b0, n0, store.block, inode, owner, inum, src, off, tot, part);
      AstrayMore(store.sb, store.stray, owner, a, store.Behind(a));
      store.Poke(a, Patched(store.block[a], o, src[tot..]));
    }

    /** The whole chunk is there: copy it and log the block. */
    method LogChunk(inum: nat, src: seq<byte>, off: nat, tot: nat, m: nat, a: nat, ghost b0: seq<Block>,
                    ghost n0: seq<Inode>)
      requires OwnedNow() && Written(b0, n0, store.block, inode, inum, src, off, tot) && tot + m <= |src|
      requires (off + tot) % BSIZE + m <= BSIZE && off + tot + m <= MAXFILE * BSIZE
      requires a == Slotted(FileSlot(inum, (off + tot) / BSIZE)) && 0 < a < |store.block|
      modifies store`block, store`logged, store`stray
      ensures OwnedNow() && Written(b0, n0, store.block, inode, inum, src, off, tot + m)
      ensures |store.block| == |old(store.block)|
      ensures forall c :: 0 <= c < |store.block| && c != a ==> store.block[c] == old(store.block)[c]
      ensures store.logged == old(store.logged) + {a} && store.stray == Without(old(store.stray), store.logged)
      ensures Ind(inum) == old(Ind(inum))
    {
      hide Owned, InUse, Mark, Word, Val, Written, Patched, Astray;
      WrittenNext(store.sb, b0, n0, store.block, inode, owner, inum, src, off, tot, m);
      AstrayLess(store.sb, store.stray, owner, store.logged + {a});
      store.Write(a, Patched(store.block[a], (off + tot) % BSIZE, src[tot..tot + m]));
    }

    /** The source gives out inside a block that this operation has not logged and that its bytes change. */
    ghost predicate LosesTail(inum: nat, src: seq<byte>, off: nat, n: nat)
      reads this, store
    {
      var c := Counted(off, |src|, n);
      c <= |src| && Unlogged(store.block, store.logged, BlockOf(store.block, inode, inum, (off + c) / BSIZE),
                             (off + c) % BSIZE, src[c..])
    }

    lemma LosesTailInside(inum: nat, src: seq<byte>, off: nat, n: nat)
      requires LosesTail(inum, src, off, n) && |src| <= n
      ensures 0 < |src| < n && (off + |src|) % BSIZE != 0
    {
      CountedShort(off, |src|, n);
      hide Counted;
      assert src[|src|..] == [];
    }

    /** The disk cannot fill up on the way to a block that is there. */
    lemma LosesTailMapped(inum: nat, src: seq<byte>, off: nat, n: nat)
      requires Valid() && inum < |inode| && |src| <= n && off + n <= MAXFILE * BSIZE && LosesTail(inum, src, off, n)
      ensures Mapped(store.block, inode, inum, off + |src|)
    {
      LosesTailInside(inum, src, off, n);
      CountedShort(off, |src|, n);
      var c := Counted(off, |src|, n);
      hide Counted, BlockOf, Owned, Mapped;
      MappedUpTo(store.block, inode, inum, off + c, off + |src|);
    }

    ghost predicate Rejects(inum: nat, off: nat, n: nat)
      reads this
    {
      inum < |inode| ==> off > inode[inum].size || off + n >= WORD_LIMIT || off + n > MAXFILE * BSIZE
    }

    /**
      Write n bytes at off; the source yields only src before it gives out. r is the count returned and
      `touched` how many bytes readers find changed now. Whole chunks are logged. When the source gives
      out inside a chunk its readable part is in the cache and neither counted nor logged: it is lost
      when the buffer is recycled, unless somebody logs the block.
     */
    method Writei(inum: nat, src: seq<byte>, off: word, n: word) returns (r: int, ghost touched: nat)
      requires Valid() && inum < |inode| && |src| <= n
      modifies this, store`block, store`logged, store`stray
      ensures Valid()
      ensures old(Rejects(inum, off, n)) ==> r == -1 && unchanged(this, store)
      ensures !old(Rejects(inum, off, n)) ==>
                && 0 <= r <= touched <= |src|
                && OnlyInode(old(inode), inode, inum, off + r)
                && Overwritten(old(store.block), old(inode), store.block, inode, inum, src, off, touched)
                && (touched == |src| ==> r == Counted(off, |src|, n))
                && (touched < |src| ==> touched == r && store.AllInUse(0, store.sb.size))
                && (Mapped(old(store.block), old(inode), inum, off + |src|) ==> touched == |src|)
      ensures !old(Rejects(inum, off, n)) ==>
                var a := BlockOf(old(store.block), old(inode), inum, (off + r) / BSIZE);
                && Accounted(old(store.block), old(store.logged), store.pinned, old(store.stray), store.block,
                             store.logged, store.stray, a, (off + r) % BSIZE, src[r..touched])
                && (r < touched && a != 0 ==>
                      && a < |store.block| == |old(store.block)|
                      && Overwritten(old(store.block), old(inode), store.block[a := old(store.block)[a]], inode, inum,
                                     src, off, r))
      ensures !old(Rejects(inum, off, n)) ==>
                (LogsChanges(old(store.block), store.block, old(store.logged), store.logged) <==>
                   !old(LosesTail(inum, src, off, n)))
      ensures !old(Rejects(inum, off, n)) ==> InodeBlock(inum) in store.logged
      ensures n <= 3 * BSIZE ==> |store.logged - old(store.logged)| <= LogRecovery.MAXOPBLOCKS
    {
      hide Owned, InUse, Mark, Word, Val, Written, Dense, Overwritten, Accounted, Astray, InodesInMeta, Mapped, Without,
        Counted, LogsChanges, Tail, BlockOf;
      touched := 0;
      if off > inode[inum].size || (off + n) % WORD_LIMIT < off {
        assert store.logged - old(store.logged) == {};
        return -1, 0;
      }
      if off + n > MAXFILE * BSIZE {
        assert store.logged - old(store.logged) == {};
        return -1, 0;
      }
      ghost var b0, n0, l0, s0 := store.block, inode, store.logged, store.stray;
      if LosesTail(inum, src, off, n) {
        LosesTailMapped(inum, src, off, n);
      }
      var tot;
      tot, touched := WriteLoop(inum, src, off, n);
      ghost var l1, s1, a := store.logged, store.stray, BlockOf(b0, n0, inum, (off + tot) / BSIZE);
      r := tot;
      TailFacts(store.sb, b0, n0, l0, s0, store.pinned, store.block, inode, owner, l1, s1, inum, src, off, tot, touched,
                n);
      Iupdate(inum, off + tot, b0, n0, src, off, tot, touched, a);
      AccountedOneMore(store.sb, b0, l0, store.pinned, s0, store.block, l1, s1, a, (off + tot) % BSIZE,
                       src[tot..touched], InodeBlock(inum));
      AccountedFacts(b0, l0, store.pinned, s0, store.block, store.logged, store.stray, a, (off + tot) % BSIZE,
                     src[tot..touched]);
      assert touched == |src| ==> src[tot..touched] == src[tot..];
      assert touched == tot ==> src[tot..touched] == [];
    }

    method WriteLoop(inum: nat, src: seq<byte>, off: nat, n: nat) returns (tot: nat, ghost touched: nat)
      requires Valid() && inum < |inode| && |src| <= n && !Rejects(inum, off, n)
      modifies this, store`block, store`logged, store`stray
      ensures OwnedNow() && tot <= n
      ensures Written(old(store.block), old(inode), store.block, inode, inum, src, off, touched)
      ensures Ended(old(store.block), old(inode), old(store.logged), old(store.stray), inum, src, off, tot, touched, n)
      ensures n <= 3 * BSIZE ==> |store.logged + {InodeBlock(inum)} - old(store.logged)| <= LogRecovery.MAXOPBLOCKS
    {
      hide Owned, InUse, Mark, Word, Val, Written, Dense, LogsChanges, SpentOk, SpendChunk, BlockOf, Progress, Mapped,
        Accounted, Astray, InodesInMeta, Without, Counted, Tail;
      touched := 0;
      ghost var b0, n0, l0, s0, o0, ind0 := store.block, inode, store.logged, store.stray, owner, Ind(inum);
      WrittenStart(b0, n0, inum, src, off);
      ProgressStart(store.sb, b0, n0, o0, l0, s0, inum, off, n);
      SpentStart(l0, ind0, IndSet(inum), off, n);
      ghost var spent := Spent({}, {}, 0, 0);
      tot := 0;
      var stop := false;
      while tot < n && !stop
        invariant OwnedNow() && tot <= n && tot <= touched <= |src|
        invariant Written(b0, n0, store.block, inode, inum, src, off, touched)
        invariant !stop ==> touched == tot
        invariant !stop ==> Progress(store.sb, b0, n0, o0, l0, s0, store.block, inode, owner, store.logged, store.stray,
                                     inum, off, tot, n)
        invariant stop ==> Ended(b0, n0, l0, s0, inum, src, off, tot, touched, n)
        invariant SpentOk(spent, l0, store.logged, ind0, IndSet(inum), off, tot, n, stop)
        decreases n - tot, !stop
      {
        ghost var more;
        stop, tot, touched, more := WriteTurn(inum, src, off, tot, n, b0, n0, o0, l0, s0, ind0, spent);
        spent := more;
      }
      if !stop {
        ProgressEnd(store.sb, b0, n0, o0, l0, s0, store.pinned, store.block, inode, owner, store.logged, store.stray,
                    inum, src, off, n);
      }
      SpentTotal(spent, l0, store.logged, ind0, IndSet(inum), off, tot, n, stop, InodeBlock(inum));
    }

    /** The loop has stopped: the disk is full, or the source has given out inside the chunk at `tot`. */
    ghost predicate Ended(b0: seq<Block>, n0: seq<Inode>, l0: set<nat>, s0: map<nat, Block>, inum: nat, src: seq<byte>,
                          off: nat, tot: nat, touched: nat, n: nat)
      reads this, store
    {
      && tot <= touched <= |src| && |store.block| == |b0|
      && (touched < |src| ==> touched == tot && store.AllInUse(0, store.sb.size))
      && Tail(store.sb, b0, n0, l0, s0, store.pinned, store.block, inode, owner, store.logged, store.stray, inum, src,
              off, tot, touched, n)
    }

    /** The loop body with its bookkeeping. */
    method WriteTurn(inum: nat, src: seq<byte>, off: nat, tot: nat, n: nat, ghost b0: seq<Block>, ghost n0: seq<Inode>,
                     ghost o0: map<nat, Slot>, ghost l0: set<nat>, ghost s0: map<nat, Block>, ghost ind0: nat,
                     ghost spent: Spent)
      returns (stop: bool, tot': nat, ghost touched: nat, ghost more: Spent)
      requires tot <= |src| <= n && OwnedNow() && tot < n && off + n <= MAXFILE * BSIZE
      requires Written(b0, n0, store.block, inode, inum, src, off, tot)
      requires Progress(store.sb, b0, n0, o0, l0, s0, store.block, inode, owner, store.logged, store.stray, inum, off,
                        tot, n)
      requires SpentOk(spent, l0, store.logged, ind0, IndSet(inum), off, tot, n, false)
      modifies this, store`block, store`logged, store`stray
      ensures OwnedNow() && tot <= tot' <= n && tot' <= touched <= |src|
      ensures !stop ==> tot < tot' == touched
      ensures !stop ==> Progress(store.sb, b0, n0, o0, l0, s0, store.block, inode, owner, store.logged, store.stray,
                                 inum, off, tot', n)
      ensures stop ==> tot' == tot && Ended(b0, n0, l0, s0, inum, src, off, tot', touched, n)
      ensures Written(b0, n0, store.block, inode, inum, src, off, touched)
      ensures SpentOk(more, l0, store.logged, ind0, IndSet(inum), off, tot', n, stop)
    {
      hide Owned, InUse, Mark, Word, Val, Written, LogsChanges, SpentOk, SpendChunk, Progress, Accounted, Tracks, Ahead,
        Tail, Fs.OwnedNow, OnlyTail, Without, Store.Valid;
      ghost var b1, n1, o1, l1, s1, i1 := store.block, inode, owner, store.logged, store.stray, IndSet(inum);
      ghost var mapped := Slotted(FileSlot(inum, (off + tot) / BSIZE)) != 0;
      FirstChunkMapped(b0, n0, store.block, inode, inum, src, off, tot);
      OwnedParts();
      var m := Min(n - tot, BSIZE - (off + tot) % BSIZE);
      ghost var addr, maps;
      stop, addr, maps := WriteChunk(inum, src, off, tot, m, b0, n0);
      touched := if addr != 0 then Min(tot + m, |src|) else tot;
      tot' := if stop then tot else tot + m;
      SpentNext(spent, l0, l1, store.logged, ind0, i1, IndSet(inum), off, tot, m, n, addr, maps, mapped, stop);
      more := SpendChunk(spent, addr, maps, mapped);
      OwnedParts();
      if stop {
        assert src[tot'..touched] == if addr != 0 then src[tot..] else [];
        TailNext(store.sb, b0, n0, o0, l0, s0, store.pinned, b1, n1, o1, l1, s1, store.block, inode, owner,
                 store.logged, store.stray, inum, src, off, tot, m, n, addr);
      } else {
        AccountedFacts(b1, l1, store.pinned, s1, store.block, store.logged, store.stray,
                       BlockOf(b1, n1, inum, (off + tot) / BSIZE), (off + tot) % BSIZE, []);
        ProgressNext(store.sb, b0, n0, o0, l0, s0, b1, n1, o1, l1, s1, store.block, inode, owner, store.logged,
                     store.stray, inum, off, tot, m, n);
      }
    }

    /** The end of writei: extend the size and write the inode back. */
    method Iupdate(inum: nat, end: nat, ghost b0: seq<Block>, ghost n0: seq<Inode>, ghost src: seq<byte>,
                   ghost off: nat, ghost tot: nat, ghost touched: nat, ghost a: nat)
      requires OwnedNow() && Written(b0, n0, store.block, inode, inum, src, off, touched)
      requires end == off + tot && tot <= touched && |b0| == |store.block|
      requires tot < touched && a != 0 ==>
                 && store.sb.datastart <= a < |b0| && Owns(owner, a, FileSlot(inum, (off + tot) / BSIZE))
                 && Written(b0, n0, store.block[a := b0[a]], inode, inum, src, off, tot)
      modifies this`inode, store`logged, store`stray
      ensures Valid() && store.logged == old(store.logged) + {InodeBlock(inum)}
      ensures store.stray == Without(old(store.stray), store.logged)
      ensures InodeBlock(inum) < store.sb.datastart
      ensures OnlyInode(n0, inode, inum, end)
      ensures Overwritten(b0, n0, store.block, inode, inum, src, off, touched)
      ensures tot < touched && a != 0 ==> Overwritten(b0, n0, store.block[a := b0[a]], inode, inum, src, off, tot)
    {
      hide Owned, InUse, Mark, Word, Val, Written, Dense, Overwritten, Astray;
      WrittenShape(b0, n0, store.block, inode, inum, src, off, touched);
      ghost var size := Max(n0[inum].size, end);
      SizeGrows(store.sb, b0, n0, store.block, inode, owner, inum, src, off, touched, size);
      if tot < touched && a != 0 {
        SetOwned(store.sb, store.block, inode, owner, a, b0[a]);
        SizeGrows(store.sb, b0, n0, store.block[a := b0[a]], inode, owner, inum, src, off, tot, size);
      }
      if end > inode[inum].size {
        inode := inode[inum := inode[inum].(size := end)];
      } else {
        assert inode[inum := inode[inum].(size := n0[inum].size)] == inode;
      }
      AstrayLess(store.sb, store.stray, owner, store.logged + {InodeBlock(inum)});
      store.LogOnly(InodeBlock(inum));
    }

    /** A stray block's buffer has been recycled: it reads as it does on disk, and the file system is intact. */
    method Evict(b: nat, disk: Block)
      requires Valid() && b in store.stray && disk == store.stray[b]
      modifies store`block, store`stray
      ensures Valid() && store.block == old(store.block)[b := disk] && store.stray == old(store.stray) - {b}
    {
      hide Owned, InUse, Mark, Word, Val, Dense;
      SetOwned(store.sb, store.block, inode, owner, b, disk);
      SetDense(store.sb, store.block, inode, owner, b, disk);
      store.Recycle(b, disk);
    }

    /**
      A write that is not lost on the spot but later: of two bytes asked for the source yields one that
      differs from the file's. Readers see it until the block's buffer is recycled, and no commit writes it.
     */
    method WriteThatFades(inum: nat, x: byte) returns (r: int, ghost seen: byte, ghost later: byte, ghost logs: bool)
      requires Valid() && inum < |inode| && inode[inum].size > 1 && x != ByteAt(store.block, inode, inum, 0)
      requires store.logged == {} && store.pinned == {} && store.stray == map[]
      modifies this, store`block, store`logged, store`stray
      ensures Valid() && r == 0 && seen == x && later == old(ByteAt(store.block, inode, inum, 0)) != x && !logs
    {
      hide Owned, InUse, Mark, Word, Val, Dense, Overwritten, Mapped, Without, LogsChanges, Astray, InodesInMeta,
        BlockOf, Accounted, ByteAt, Differs, Counted;
      ghost var b0, n0, l0 := store.block, inode, store.logged;
      var a := BlockOf(store.block, inode, inum, 0);
      FadingStart(store.sb, b0, n0, owner, inum, x);
      var was := store.block[a];
      ghost var touched;
      r, touched := Writei(inum, [x], 0, 2);
      assert [x][0..1] == [x];
      AccountedFacts(b0, l0, {}, map[], store.block, store.logged, store.stray, a, 0, [x]);
      seen := ByteAt(store.block, inode, inum, 0);
      logs := LogsChanges(b0, store.block, {}, store.logged);
      FirstByte(b0, n0, store.block, inode, inum, [x], 1);
      FirstByte(b0, n0, store.block[a := b0[a]], inode, inum, [x], 0);
      Evict(a, was);
      later := ByteAt(store.block, inode, inum, 0);
    }

    /** One transaction of filewrite: at most MAXWRITE bytes between a begin_op and an end_op. */
    method WriteStage(inum: nat, src: seq<byte>, i: nat, pos: nat, n: nat, ghost committed: bool)
      returns (r: int, ghost t: nat, ghost stage: Stage)
      requires Valid() && inum < |inode| && i <= |src| <= n && i < n && pos < WORD_LIMIT
      modifies this, store`block, store`logged, store`stray, store`pinned
      ensures Valid() && stage == Stage(store.block, inode, store.stray, store.logged)
      ensures |stage.logged| <= LogRecovery.MAXOPBLOCKS
      ensures store.pinned == if committed then {} else old(store.pinned + store.logged)
      ensures Durably(old(Now()), Sharing(stage, store.pinned), inum, InodeBlock(inum))
      ensures r == Min(n - i, MAXWRITE) && old(store.stray) == map[] ==> stage.stray == map[]
      ensures old(store.stray) == map[] ==>
                var kept := if committed || stage.stray != map[] then Max(r, 0) else t;
                && i + kept <= |src|
                && Overwritten(old(store.block), old(inode), Durable(stage), inode, inum, src[i..i + kept], pos, kept)
      ensures var n1, size := Min(n - i, MAXWRITE), old(inode)[inum].size;
              if pos > size || pos + n1 > MAXFILE * BSIZE || pos + n1 >= WORD_LIMIT then r == -1
              else r == n1 || (0 <= r < n1 && (store.AllInUse(0, store.sb.size) || |src| < i + n1))
      ensures r == Min(n - i, MAXWRITE) ==> i + r <= |src| && t == r
      ensures r < 0 ==> t == 0
      ensures var r0 := Max(r, 0);
              && r0 <= t <= |src| - i && t < r0 + BSIZE
              && OnlyInode(old(inode), inode, inum, if r < 0 then 0 else pos + r)
              && Overwritten(old(store.block), old(inode), store.block, inode, inum, src[i..i + t], pos, t)
              && TailLogs(old(store.block), old(inode), stage, inum, pos + r0, src[i + r0..i + t])
    {
      hide Owned, InUse, Mark, Word, Val, Written, Dense, Overwritten, LogsChanges, Accounted, Mapped, BlockOf,
        OnlyInode, Astray, InodesInMeta, Without, Durably, Durable, TailLogs, Counted, LosesTail, Unlogged;
      store.NextOp(committed);
      ghost var was := Now();
      var n1 := Min(n - i, MAXWRITE);
      var part := src[i..Min(i + n1, |src|)];
      r, t := Writei(inum, part, pos, n1);
      stage := Stage(store.block, inode, store.stray, store.logged);
      assert store.logged - {} == store.logged;
      if r < 0 {
        t := 0;
        assert src[i..i] == [];
        NothingStaged(was, store.pinned, inum, InodeBlock(inum), pos, src[i..i]);
      } else {
        CountedShort(pos, |part|, n1);
        SliceOf(src, i, Min(i + n1, |src|), r, t);
        Staged(was, stage, store.pinned, inum, part, pos, r, t);
        PartsOf(was.block, was.inode, store.block, inode, inum, part, src, i, pos, t);
        OwnedPlace(store.sb, was.block, was.inode, old(owner), inum, (pos + r) / BSIZE);
        StagedDurably(was, stage, store.pinned, inum, InodeBlock(inum), part, pos, r, t);
        if was.stray == map[] {
          var kept := if committed || stage.stray != map[] then r else t;
          PartsOf(was.block, was.inode, Durable(stage), inode, inum, part, src, i, pos, kept);
        }
      }
    }

    /** itrunc between a begin_op and an end_op: what the disk then holds differently has been logged. */
    method TruncStage(inum: nat, ghost committed: bool) returns (ok: bool, ghost stage: Stage)
      requires Valid() && inum < |inode|
      modifies this, store`block, store`logged, store`stray, store`pinned
      ensures ok && Valid() && stage == Stage(store.block, inode, store.stray, store.logged)
      ensures store.pinned == if committed then {} else old(store.pinned + store.logged)
      ensures Durably(old(Now()), Sharing(stage, store.pinned), inum, InodeBlock(inum))
      ensures OthersKeptNow(old(store.block), old(inode), old(owner), inum)
      ensures stage.inode[inum] == Inode(0, seq(NDIRECT + 1, i => 0))
      ensures forall b :: b in owner <==> b in old(owner) && old(owner)[b].inum != inum
      ensures forall b :: store.sb.datastart <= b < |store.block| ==> Durable(stage)[b] == Durable(old(Now()))[b]
    {
      hide Owned, InUse, Mark, Word, Val, Dense, Durably, Durable;
      store.NextOp(committed);
      ghost var was := Now();
      ok := Itrunc(inum);
      stage := Stage(store.block, inode, store.stray, store.logged);
      TruncatedDurably(was, stage, store.pinned, inum, InodeBlock(inum), store.sb.datastart);
    }

    /** Blocks, inodes and stray contents as they are. */
    ghost function Now(): Stage
      reads this, store
    {
      Stage(store.block, inode, store.stray, {})
    }

    /**
      filewrite on an inode: transactions of at most MAXWRITE bytes each, stages[k] what the k-th leaves.
      pos is the new file offset. Every transaction but one that ends the call early logs all it changes.
     */
    method Filewrite(inum: nat, src: seq<byte>, off: nat, n: int, ghost commits: nat -> bool)
      returns (ret: int, pos: nat, ghost touched: nat, ghost stages: seq<Stage>)
      requires Valid() && inum < |inode| && |src| <= Max(n, 0) && n < WORD_LIMIT && off < WORD_LIMIT
      modifies this, store`block, store`logged, store`stray, store`pinned
      ensures Valid()
      ensures ret == n || ret == -1
      ensures n >= 0 && ret == n ==> Fits(old(inode)[inum].size, off, n) && |src| == n
      ensures n >= 0 && ret != n ==>
                store.AllInUse(0, store.sb.size) || !Fits(old(inode)[inum].size, off, n) || |src| < n
      ensures n >= 0 && ret == n ==> pos == off + n && touched == n
      ensures off <= pos && pos - off <= touched <= |src| && touched < pos - off + BSIZE
      ensures OnlyInode(old(inode), inode, inum, if pos == off then 0 else pos)
      ensures Overwritten(old(store.block), old(inode), store.block, inode, inum, src, off, touched)
      ensures stages != [] ==> stages[|stages| - 1].block == store.block && stages[|stages| - 1].inode == inode
      ensures forall k :: 0 <= k < |stages| ==> |stages[k].logged| <= LogRecovery.MAXOPBLOCKS
      ensures forall k :: 0 <= k < |stages| && (ret == n || k < |stages| - 1) ==>
                WholeStage(old(Now()), stages, k, inum, src, off)
      ensures ret != n && stages != [] ==>
                var last := Before(old(Now()), stages, |stages| - 1);
                TailLogs(last.block, last.inode, stages[|stages| - 1], inum, pos, src[pos - off..touched])
      ensures Alone(commits) ==> DurableSoFar(old(Now()), stages, inum, InodeBlock(inum), src, off, pos)
    {
      hide Owned, InUse, Mark, Word, Val, Written, Dense, Overwritten, LogsChanges, TailLogs, Astray, InodesInMeta,
        WholeStage, DurableSoFar, Durable, Durably, StagesSoFar, Store.AllInUse, Filed, OnlyInode, Before;
      var max := (LogRecovery.MAXOPBLOCKS - 1 - 1 - 2) / 2 * BSIZE;
      assert max == MAXWRITE;
      var i := 0;
      pos, touched, stages := off, 0, [];
      ghost var first := Now();
      NothingFiled(first, inum, InodeBlock(inum), src, off, n, Alone(commits));
      var stop := false;
      while i < n && !stop
        invariant Valid() && 0 <= i <= Max(n, 0) && (!stop ==> touched == i <= |src| && pos == off + i < WORD_LIMIT)
        invariant stop ==> i < n
        invariant stop ==> store.AllInUse(0, store.sb.size) || !Fits(first.inode[inum].size, off, n) || |src| < n
        invariant Filed(first, Now(), stages, inum, InodeBlock(inum), src, off, n, Alone(commits), i, pos, touched,
                        stop)
        decreases n - i, !stop
      {
        var r;
        ghost var t, stage;
        r, t, stage := FileTurn(inum, src, off, n, i, pos, first, stages, commits(|stages|), Alone(commits));
        stages := stages + [stage];
        touched := i + t;
        if r > 0 {
          pos := pos + r;
        }
        if r != Min(n - i, max) {
          stop := true;
        } else {
          i := i + r;
        }
      }
      FiledFacts(first, Now(), stages, inum, InodeBlock(inum), src, off, n, Alone(commits), i, pos, touched, stop);
      ret := if i == n then n else -1;
    }

    /** One turn of filewrite's loop. */
    method FileTurn(inum: nat, src: seq<byte>, off: nat, n: nat, i: nat, pos: nat, ghost first: Stage,
                    ghost stages: seq<Stage>, ghost committed: bool, ghost alone: bool)
      returns (r: int, ghost t: nat, ghost stage: Stage)
      requires Valid() && i <= |src| <= n && i < n && pos == off + i < WORD_LIMIT && (alone ==> committed)
      requires Filed(first, Now(), stages, inum, InodeBlock(inum), src, off, n, alone, i, pos, i, false)
      modifies this, store`block, store`logged, store`stray, store`pinned
      ensures Valid() && -1 <= r <= Min(n - i, MAXWRITE) && i + t <= |src|
      ensures r == Min(n - i, MAXWRITE) ==> t == r && i + r <= |src| && pos + r < WORD_LIMIT
      ensures var stop := r != Min(n - i, MAXWRITE);
              && Filed(first, Now(), stages + [stage], inum, InodeBlock(inum), src, off, n, alone,
                       if stop then i else i + r, pos + Max(r, 0), i + t, stop)
              && inum < |first.inode|
              && (stop ==> store.AllInUse(0, store.sb.size) || !Fits(first.inode[inum].size, off, n) || |src| < n)
    {
      hide Owned, InUse, Mark, Word, Val, Written, Dense, Overwritten, LogsChanges, TailLogs, Astray, InodesInMeta,
        WholeStage, DurableSoFar, Durable, Durably, StagesSoFar, Store.AllInUse;
      ghost var was := Now();
      r, t, stage := WriteStage(inum, src, i, pos, n, committed);
      StageNext(first, stages, was.block, was.inode, stage, inum, src, off, i, r, t, n);
      if alone {
        assert Sharing(stage, {}) == stage;
        DurablyFrom(Before(first, stages, |stages|), was, stage, inum, InodeBlock(inum));
        DurableNext(first, stages, stage, inum, InodeBlock(inum), src, off, i, r);
      }
    }
  }

  /** How far filewrite has come: i bytes are through, the file offset is pos, the file is as `now` says. */
  ghost predicate Filed(first: Stage, now: Stage, stages: seq<Stage>, inum: nat, iblock: nat, src: seq<byte>, off: nat,
                        n: int, alone: bool, i: nat, pos: nat, touched: nat, stop: bool)
  {
    && inum < |now.inode| == |first.inode|
    && now == Before(first, stages, |stages|).(logged := {})
    && off <= pos && pos - off <= touched <= |src| && touched < pos - off + BSIZE
    && (!stop ==> pos == off + i && touched == i && i == Min(|stages| * MAXWRITE, Max(n, 0)))
    && (i > 0 ==> Fits(first.inode[inum].size, off, i))
    && (stages == [] ==> !stop) && (n <= 0 ==> stages == [])
    && OnlyInode(first.inode, now.inode, inum, if pos == off then 0 else pos)
    && Overwritten(first.block, first.inode, now.block, now.inode, inum, src, off, touched)
    && StagesSoFar(first, stages, inum, src, off, stop, pos, touched)
    && (alone ==> DurableSoFar(first, stages, inum, iblock, src, off, pos))
    && (alone && first.stray == map[] && !stop ==> now.stray == map[])
  }

  lemma NothingFiled(first: Stage, inum: nat, iblock: nat, src: seq<byte>, off: nat, n: int, alone: bool)
    requires inum < |first.inode| && first.logged == {}
    ensures Filed(first, first, [], inum, iblock, src, off, n, alone, 0, off, 0, false)
  {
    OverwrittenSelf(first.block, first.inode, inum, src, off);
    NoStages(first, inum, iblock, src, off, off, 0);
  }

  lemma FiledFacts(first: Stage, now: Stage, stages: seq<Stage>, inum: nat, iblock: nat, src: seq<byte>, off: nat,
                   n: int, alone: bool, i: nat, pos: nat, touched: nat, stop: bool)
    requires Filed(first, now, stages, inum, iblock, src, off, n, alone, i, pos, touched, stop)
    ensures inum < |first.inode| && off <= pos && pos - off <= touched <= |src| && touched < pos - off + BSIZE
    ensures !stop ==> pos == off + i && touched == i
    ensures i > 0 ==> Fits(first.inode[inum].size, off, i)
    ensures OnlyInode(first.inode, now.inode, inum, if pos == off then 0 else pos)
    ensures Overwritten(first.block, first.inode, now.block, now.inode, inum, src, off, touched)
    ensures n <= 0 ==> stages == []
    ensures stages != [] ==> stages[|stages| - 1].block == now.block && stages[|stages| - 1].inode == now.inode
    ensures forall k :: 0 <= k < |stages| ==> |stages[k].logged| <= LogRecovery.MAXOPBLOCKS
    ensures forall k :: 0 <= k < |stages| && (!stop || k < |stages| - 1) ==>
              WholeStage(first, stages, k, inum, src, off)
    ensures stop ==>
              && stages != []
              && var last := Before(first, stages, |stages| - 1);
                 TailLogs(last.block, last.inode, stages[|stages| - 1], inum, pos, src[pos - off..touched])
    ensures alone ==> DurableSoFar(first, stages, inum, iblock, src, off, pos)
  {
    hide OnlyInode, Overwritten, WholeStage, TailLogs, DurableSoFar;
    StagesEnd(first, stages, inum, src, off, stop, pos, touched);
  }

  const MAXWRITE: nat := 3 * BSIZE

  /** What one transaction of filewrite leaves, and the blocks it logged. */
  datatype Stage = Stage(block: seq<Block>, inode: seq<Inode>, stray: map<nat, Block>, logged: set<nat>)

  /** What stage k started from. */
  function Before(first: Stage, stages: seq<Stage>, k: nat): Stage
    requires k <= |stages|
  {
    if k == 0 then first else stages[k - 1]
  }

  /** What every reader would get, had all buffers been recycled: what the disk holds once the transaction
    * is committed. */
  ghost function Durable(s: Stage): (r: seq<Block>)
    ensures |r| == |s.block| && forall b :: 0 <= b < |s.block| ==> r[b] == Fallback(s.block, s.stray, b)
  {
    seq(|s.block|, b requires 0 <= b < |s.block| => Fallback(s.block, s.stray, b))
  }

  /** Whatever the disk holds differently after this transaction is in a block it logged. */
  ghost predicate Durably(s0: Stage, s1: Stage, inum: nat, iblock: nat) {
    && |s1.block| == |s0.block| && |s1.inode| == |s0.inode|
    && (forall b :: 0 <= b < |s0.block| && Durable(s1)[b] != Durable(s0)[b] ==> b in s1.logged)
    && (forall i :: 0 <= i < |s0.inode| && i != inum ==> s1.inode[i] == s0.inode[i])
    && (s1.inode != s0.inode ==> iblock in s1.logged)
  }

  /** No other operation shares a transaction with these. */
  ghost predicate Alone(commits: nat -> bool) {
    forall k :: commits(k)
  }

  /** The disk goes through the stages one by one, and after each holds the file with so many bytes of src. */
  ghost predicate DurableSoFar(first: Stage, stages: seq<Stage>, inum: nat, iblock: nat, src: seq<byte>, off: nat,
                               pos: nat)
  {
    && (forall k :: 0 <= k < |stages| ==> Durably(Before(first, stages, k), stages[k], inum, iblock))
    && (first.stray == map[] ==>
          forall k :: 0 <= k < |stages| ==>
            DurableBytes(first, stages[k], inum, src, off, Reached(stages, k, off, pos)))
  }

  /** The bytes counted up to stage k of a call that ends at pos. */
  function Reached(stages: seq<Stage>, k: nat, off: nat, pos: nat): nat {
    if k + 1 < |stages| then (k + 1) * MAXWRITE else if pos < off then 0 else pos - off
  }

  ghost predicate DurableBytes(first: Stage, stage: Stage, inum: nat, src: seq<byte>, off: nat, tot: nat) {
    Overwritten(first.block, first.inode, Durable(stage), stage.inode, inum, src, off, tot)
  }

  lemma DurableIsSeen(s: Stage)
    requires s.stray == map[]
    ensures Durable(s) == s.block
  {
  }

  /** The stage with the blocks that earlier operations of its transaction have logged. */
  function Sharing(s: Stage, pinned: set<nat>): Stage {
    s.(logged := s.logged + pinned)
  }

  /** A transaction writes to disk what its operations logged, and nothing else. */
  lemma WritesDurably(s0: Stage, s1: Stage, pinned: set<nat>, inum: nat, iblock: nat, a: nat, o: nat, bytes: seq<byte>)
    requires Accounted(s0.block, {}, pinned, s0.stray, s1.block, s1.logged, s1.stray, a, o, bytes)
    requires |s1.inode| == |s0.inode| && forall i :: 0 <= i < |s0.inode| && i != inum ==> s1.inode[i] == s0.inode[i]
    requires iblock in s1.logged
    ensures Durably(s0, Sharing(s1, pinned), inum, iblock)
    ensures s0.stray == map[] && (!Unlogged(s0.block, {}, a, o, bytes) || a in pinned) ==> s1.stray == map[]
    ensures s0.stray == map[] && Unlogged(s0.block, {}, a, o, bytes) && a !in pinned ==>
              a < |s0.block| && s1.stray != map[] && Durable(s1) == s1.block[a := s0.block[a]]
  {
    hide Differs;
    forall b | 0 <= b < |s0.block| && b !in s1.logged + pinned
      ensures Durable(s1)[b] == Durable(s0)[b]
    {
      assert b in Without(s0.stray, s1.logged) <==> b in s0.stray;
    }
    if s0.stray == map[] {
      assert Without(s0.stray, s1.logged) == map[];
    }
  }

  lemma TruncatedDurably(s0: Stage, s1: Stage, pinned: set<nat>, inum: nat, iblock: nat, datastart: nat)
    requires LogsChanges(s0.block, s1.block, {}, s1.logged) && s1.stray == Without(s0.stray, s1.logged)
    requires |s1.inode| == |s0.inode| && forall i :: 0 <= i < |s0.inode| && i != inum ==> s1.inode[i] == s0.inode[i]
    requires iblock in s1.logged && forall b :: b in s1.logged ==> b < datastart
    ensures Durably(s0, Sharing(s1, pinned), inum, iblock)
    ensures forall b :: datastart <= b < |s0.block| ==> Durable(s1)[b] == Durable(s0)[b]
  {
    forall b | 0 <= b < |s0.block| && b !in s1.logged
      ensures Durable(s1)[b] == Durable(s0)[b]
    {
      assert b in Without(s0.stray, s1.logged) <==> b in s0.stray;
    }
  }

  /** A chunk cut short counts for nothing on disk: bytes beyond those counted are lost with the buffer, or lie
    * beyond the file's end, or were there before. */
  lemma FadesToCounted(b0: seq<Block>, n0: seq<Inode>, b1: seq<Block>, n1: seq<Inode>, inum: nat, part: seq<byte>,
                       pos: nat, r: nat, t: nat, a: nat)
    requires Dense(b0, n0) && OnlyInode(n0, n1, inum, pos + r) && Overwritten(b0, n0, b1, n1, inum, part, pos, t)
    requires r <= t <= |part| && (pos + r) % BSIZE + (t - r) <= BSIZE
    requires a == BlockOf(b0, n0, inum, (pos + r) / BSIZE) && (a == 0 || a < |b0|)
    requires !Unlogged(b0, {}, a, (pos + r) % BSIZE, part[r..t])
    ensures Overwritten(b0, n0, b1, n1, inum, part, pos, r)
  {
    DenseAt(b0, n0, inum);
    forall x | pos + r <= x < pos + t && x < n1[inum].size
      ensures ByteAt(b0, n0, inum, x) == part[x - pos]
    {
      BlockStart(x, MAXFILE);
      ChunkPlace(pos + r, t - r, x);
      assert BlockOf(b0, n0, inum, x / BSIZE) != 0;
      assert part[r..t][x - (pos + r)] == part[x - pos];
    }
    hide ByteAt;
  }

  lemma DurableNext(first: Stage, stages: seq<Stage>, stage: Stage, inum: nat, iblock: nat, src: seq<byte>, off: nat,
                    i: nat, r: int)
    requires DurableSoFar(first, stages, inum, iblock, src, off, off + i) && i == Min(|stages| * MAXWRITE, |src|)
    requires var s := Before(first, stages, |stages|);
             && Durably(s, stage, inum, iblock)
             && OnlyInode(first.inode, s.inode, inum, if i == 0 then 0 else off + i)
             && (first.stray == map[] ==> s.stray == map[])
             && (r >= 0 ==> off + i <= s.inode[inum].size)
             && OnlyInode(s.inode, stage.inode, inum, if r < 0 then 0 else off + i + r)
             && i + Max(r, 0) <= |src|
             && Overwritten(first.block, first.inode, s.block, s.inode, inum, src, off, i)
             && (first.stray == map[] ==>
                   Overwritten(s.block, s.inode, Durable(stage), stage.inode, inum, src[i..i + Max(r, 0)], off + i,
                               Max(r, 0)))
    requires stages != [] ==> i == |stages| * MAXWRITE
    ensures DurableSoFar(first, stages + [stage], inum, iblock, src, off, off + i + Max(r, 0))
  {
    hide Durably, Overwritten, OnlyInode, DurableBytes, Reached, Durable;
    var stages', pos := stages + [stage], off + i + Max(r, 0);
    forall k | 0 <= k < |stages'|
      ensures Durably(Before(first, stages', k), stages'[k], inum, iblock)
    {
      if k < |stages| {
        assert Durably(Before(first, stages, k), stages[k], inum, iblock);
      }
    }
    if first.stray == map[] {
      var s := Before(first, stages, |stages|);
      FilewriteNext(first.block, first.inode, s.block, s.inode, Durable(stage), stage.inode, inum, src, off, i, r,
                    Max(r, 0));
      forall k | 0 <= k < |stages'|
        ensures DurableBytes(first, stages'[k], inum, src, off, Reached(stages', k, off, pos))
      {
        ReachedNext(stages, stage, k, off, i, pos);
        if k < |stages| {
          assert DurableBytes(first, stages[k], inum, src, off, Reached(stages, k, off, off + i));
        } else {
          BytesOf(first, stage, inum, src, off, i + Max(r, 0));
        }
      }
    }
  }

  lemma BytesOf(first: Stage, stage: Stage, inum: nat, src: seq<byte>, off: nat, tot: nat)
    requires Overwritten(first.block, first.inode, Durable(stage), stage.inode, inum, src, off, tot)
    ensures DurableBytes(first, stage, inum, src, off, tot)
  {
  }

  lemma ReachedNext(stages: seq<Stage>, stage: Stage, k: nat, off: nat, i: nat, pos: nat)
    requires k <= |stages| && pos >= off && (stages != [] ==> i == |stages| * MAXWRITE)
    ensures k < |stages| ==> Reached(stages + [stage], k, off, pos) == Reached(stages, k, off, off + i)
    ensures k == |stages| ==> Reached(stages + [stage], k, off, pos) == pos - off
  {
  }

  /** The range lies within what writei accepts. */
  predicate Fits(size: nat, off: nat, n: nat) {
    n == 0 || (off <= size && off + n <= MAXFILE * BSIZE)
  }

  /** The transaction logs every block it changes, unless these last bytes went into a block it never logged. */
  ghost predicate TailLogs(b0: seq<Block>, n0: seq<Inode>, stage: Stage, inum: nat, pos: nat, bytes: seq<byte>) {
    var a := BlockOf(b0, n0, inum, pos / BSIZE);
    LogsChanges(b0, stage.block, {}, stage.logged) <==> !Unlogged(b0, {}, a, pos % BSIZE, bytes)
  }

  /** Transaction k logs every block it changes, and leaves the file with the first chunks of src. */
  ghost predicate WholeStage(first: Stage, stages: seq<Stage>, k: nat, inum: nat, src: seq<byte>,
                             off: nat) {
    && k < |stages|
    && LogsChanges(Before(first, stages, k).block, stages[k].block, {}, stages[k].logged)
    && Overwritten(first.block, first.inode, stages[k].block, stages[k].inode, inum, src, off,
                   Min((k + 1) * MAXWRITE, |src|))
  }

  ghost predicate StagesSoFar(first: Stage, stages: seq<Stage>, inum: nat, src: seq<byte>, off: nat,
                              stop: bool, pos: nat, touched: nat)
  {
    && (forall k :: 0 <= k < |stages| ==> |stages[k].logged| <= LogRecovery.MAXOPBLOCKS)
    && (forall k :: 0 <= k < |stages| && (!stop || k < |stages| - 1) ==> WholeStage(first, stages, k, inum, src, off))
    && (stop ==>
          && stages != [] && off <= pos && pos - off <= touched <= |src|
          && var last := Before(first, stages, |stages| - 1);
             TailLogs(last.block, last.inode, stages[|stages| - 1], inum, pos, src[pos - off..touched]))
  }

  lemma StagesEnd(first: Stage, stages: seq<Stage>, inum: nat, src: seq<byte>, off: nat, stop: bool, pos: nat,
                  touched: nat)
    requires StagesSoFar(first, stages, inum, src, off, stop, pos, touched)
    ensures forall k :: 0 <= k < |stages| ==> |stages[k].logged| <= LogRecovery.MAXOPBLOCKS
    ensures forall k :: 0 <= k < |stages| && (!stop || k < |stages| - 1) ==>
              WholeStage(first, stages, k, inum, src, off)
    ensures stop ==>
              && stages != [] && off <= pos && pos - off <= touched <= |src|
              && var last := Before(first, stages, |stages| - 1);
                 TailLogs(last.block, last.inode, stages[|stages| - 1], inum, pos, src[pos - off..touched])
  {
  }

  lemma NoStages(first: Stage, inum: nat, iblock: nat, src: seq<byte>, off: nat, pos: nat, t: nat)
    ensures DurableSoFar(first, [], inum, iblock, src, off, pos)
    ensures StagesSoFar(first, [], inum, src, off, false, pos, t)
  {
  }

  /** What an earlier transaction logged does not matter to a later one. */
  lemma DurablyFrom(s0: Stage, s0': Stage, s1: Stage, inum: nat, iblock: nat)
    requires Durably(s0', s1, inum, iblock) && s0' == s0.(logged := s0'.logged)
    ensures Durably(s0, s1, inum, iblock)
  {
    assert Durable(s0) == Durable(s0');
  }

  /** A transaction in which writei refuses. */
  lemma NothingStaged(s: Stage, pinned: set<nat>, inum: nat, iblock: nat, pos: nat, bytes: seq<byte>)
    requires inum < |s.inode| && bytes == [] && s.logged == {}
    ensures TailLogs(s.block, s.inode, s, inum, pos, bytes) && Durably(s, Sharing(s, pinned), inum, iblock)
    ensures Overwritten(s.block, s.inode, s.block, s.inode, inum, bytes, pos, 0) && OnlyInode(s.inode, s.inode, inum, 0)
    ensures s.stray == map[] ==> Overwritten(s.block, s.inode, Durable(s), s.inode, inum, bytes, pos, 0)
  {
    if s.stray == map[] {
      DurableIsSeen(s);
    }
  }

  /** A transaction in which writei wrote. */
  lemma Staged(s0: Stage, s1: Stage, pinned: set<nat>, inum: nat, part: seq<byte>, pos: nat, r: nat, t: nat)
    requires r <= t <= |part|
    requires Accounted(s0.block, {}, pinned, s0.stray, s1.block, s1.logged, s1.stray,
                       BlockOf(s0.block, s0.inode, inum, (pos + r) / BSIZE), (pos + r) % BSIZE, part[r..t])
    ensures TailLogs(s0.block, s0.inode, s1, inum, pos + r, part[r..t])
  {
    hide Accounted, BlockOf, LogsChanges, Unlogged;
    AccountedFacts(s0.block, {}, pinned, s0.stray, s1.block, s1.logged, s1.stray,
                   BlockOf(s0.block, s0.inode, inum, (pos + r) / BSIZE), (pos + r) % BSIZE, part[r..t]);
  }

  lemma StagedDurably(s0: Stage, s1: Stage, pinned: set<nat>, inum: nat, iblock: nat, part: seq<byte>, pos: nat, r: nat,
                      t: nat)
    requires r <= t <= |part| && (pos + r) % BSIZE + (t - r) <= BSIZE && Dense(s0.block, s0.inode)
    requires var a, bytes := BlockOf(s0.block, s0.inode, inum, (pos + r) / BSIZE), part[r..t];
             && (a == 0 || a < |s0.block|)
             && Accounted(s0.block, {}, pinned, s0.stray, s1.block, s1.logged, s1.stray, a, (pos + r) % BSIZE, bytes)
             && (r < t && a != 0 ==>
                   Overwritten(s0.block, s0.inode, s1.block[a := s0.block[a]], s1.inode, inum, part, pos, r))
    requires OnlyInode(s0.inode, s1.inode, inum, pos + r) && iblock in s1.logged
    requires Overwritten(s0.block, s0.inode, s1.block, s1.inode, inum, part, pos, t)
    ensures Durably(s0, Sharing(s1, pinned), inum, iblock)
    ensures s0.stray == map[] && r == t ==> s1.stray == map[]
    ensures s0.stray == map[] && (pinned == {} || s1.stray != map[]) ==>
              Overwritten(s0.block, s0.inode, Durable(s1), s1.inode, inum, part, pos, r)
    ensures s1.stray == map[] ==> Overwritten(s0.block, s0.inode, Durable(s1), s1.inode, inum, part, pos, t)
  {
    hide BlockOf, Dense, Overwritten, Accounted, Durably, Durable;
    var a, o, bytes := BlockOf(s0.block, s0.inode, inum, (pos + r) / BSIZE), (pos + r) % BSIZE, part[r..t];
    WritesDurably(s0, s1, pinned, inum, iblock, a, o, bytes);
    if s1.stray == map[] {
      DurableIsSeen(s1);
    }
    if s0.stray == map[] && !Unlogged(s0.block, {}, a, o, bytes) {
      FadesToCounted(s0.block, s0.inode, s1.block, s1.inode, inum, part, pos, r, t, a);
    }
  }

  lemma OwnedPlace(sb: Super, block: seq<Block>, inode: seq<Inode>, owner: map<nat, Slot>, inum: nat, bn: nat)
    requires Owned(sb, block, inode, owner, NO_CUT)
    ensures BlockOf(block, inode, inum, bn) == 0 || BlockOf(block, inode, inum, bn) < |block|
  {
    if BlockOf(block, inode, inum, bn) != 0 {
      PlaceFacts(sb, block, inode, owner, map[], inum, bn);
    }
  }

  /** The chunk's first t bytes are src's from i on. */
  lemma PartsOf(b0: seq<Block>, n0: seq<Inode>, b1: seq<Block>, n1: seq<Inode>, inum: nat, part: seq<byte>,
                src: seq<byte>, i: nat, pos: nat, t: nat)
    requires i <= |src| && t <= |part| <= |src| - i && part == src[i..i + |part|]
    requires Overwritten(b0, n0, b1, n1, inum, part, pos, t)
    ensures Overwritten(b0, n0, b1, n1, inum, src[i..i + t], pos, t)
  {
    SliceOf(src, i, i + |part|, 0, t);
    SliceOf(src, i, i + t, 0, t);
    OverwrittenPart(b0, n0, b1, n1, inum, part, src[i..i + t], pos, t);
  }

  lemma SliceOf(s: seq<byte>, i: nat, j: nat, a: nat, b: nat)
    requires i <= j <= |s| && a <= b <= j - i
    ensures s[i..j][a..b] == s[i + a..i + b]
  {
    forall k | 0 <= k < b - a
      ensures s[i..j][a..b][k] == s[i + a..i + b][k]
    {
      assert s[i..j][a + k] == s[i + (a + k)];
    }
    assert s[i..j][a..b] == s[i + a..i + b];
  }

  lemma OverwrittenPart(b0: seq<Block>, n0: seq<Inode>, b1: seq<Block>, n1: seq<Inode>, inum: nat, part: seq<byte>,
                        part': seq<byte>, off: nat, t: nat)
    requires Overwritten(b0, n0, b1, n1, inum, part, off, t) && t <= |part'| && t <= |part| && part'[..t] == part[..t]
    ensures Overwritten(b0, n0, b1, n1, inum, part', off, t)
  {
    hide ByteAt;
    forall k | 0 <= k < t
      ensures part'[k] == part[k]
    {
      assert part'[k] == part'[..t][k];
    }
  }

  /** One more transaction. */
  lemma StageNext(first: Stage, stages: seq<Stage>, b1: seq<Block>, n1: seq<Inode>, stage: Stage, inum: nat,
                  src: seq<byte>, off: nat, i: nat, r: int, t: nat, n: nat)
    requires StagesSoFar(first, stages, inum, src, off, false, off + i, i) && i <= |src| <= n
    requires b1 == Before(first, stages, |stages|).block && n1 == Before(first, stages, |stages|).inode
    requires i == Min(|stages| * MAXWRITE, n) && i < n && |stage.logged| <= LogRecovery.MAXOPBLOCKS
    requires OnlyInode(first.inode, n1, inum, if i == 0 then 0 else off + i)
    requires Overwritten(first.block, first.inode, b1, n1, inum, src, off, i)
    requires i > 0 ==> Fits(first.inode[inum].size, off, i)
    requires r == -1 || (0 <= r <= Min(n - i, MAXWRITE) && off + i <= n1[inum].size)
    requires Max(r, 0) <= t <= |src| - i && (r == Min(n - i, MAXWRITE) ==> t == r)
    requires OnlyInode(n1, stage.inode, inum, if r < 0 then 0 else off + i + r)
    requires Overwritten(b1, n1, stage.block, stage.inode, inum, src[i..i + t], off + i, t)
    requires TailLogs(b1, n1, stage, inum, off + i + Max(r, 0), src[i + Max(r, 0)..i + t])
    ensures var pos := off + i + Max(r, 0);
            && StagesSoFar(first, stages + [stage], inum, src, off, r != Min(n - i, MAXWRITE), pos, i + t)
            && OnlyInode(first.inode, stage.inode, inum, if pos == off then 0 else pos)
            && Overwritten(first.block, first.inode, stage.block, stage.inode, inum, src, off, i + t)
  {
    hide LogsChanges, BlockOf, Overwritten, OnlyInode;
    var r0, stages' := Max(r, 0), stages + [stage];
    FilewriteNext(first.block, first.inode, b1, n1, stage.block, stage.inode, inum, src, off, i, r, t);
    forall k | 0 <= k < |stages|
      ensures WholeStage(first, stages', k, inum, src, off)
    {
      assert WholeStage(first, stages, k, inum, src, off);
    }
    assert (off + i + r0) - off == i + r0;
    if r == Min(n - i, MAXWRITE) {
      assert src[i + r0..i + t] == [];
      assert Min((|stages| + 1) * MAXWRITE, |src|) == i + t;
    }
  }

  lemma OverwrittenSelf(b0: seq<Block>, n0: seq<Inode>, inum: nat, src: seq<byte>, off: nat)
    requires inum < |n0|
    ensures Overwritten(b0, n0, b0, n0, inum, src, off, 0) && OnlyInode(n0, n0, inum, 0)
  {
  }

  lemma FilewriteNext(b0: seq<Block>, n0: seq<Inode>, b1: seq<Block>, n1: seq<Inode>, b2: seq<Block>, n2: seq<Inode>,
                      inum: nat, src: seq<byte>, off: nat, i: nat, r: int, t: nat)
    requires OnlyInode(n0, n1, inum, if i == 0 then 0 else off + i) && Overwritten(b0, n0, b1, n1, inum, src, off, i)
    requires Max(r, 0) <= t && i + t <= |src| && (r >= 0 ==> off + i <= n1[inum].size)
    requires OnlyInode(n1, n2, inum, if r < 0 then 0 else off + i + r)
    requires Overwritten(b1, n1, b2, n2, inum, src[i..i + t], off + i, t)
    ensures Overwritten(b0, n0, b2, n2, inum, src, off, i + t)
    ensures var end := off + i + Max(r, 0); OnlyInode(n0, n2, inum, if end == off then 0 else end)
  {
    hide ByteAt;
  }

  /** No other inode changes, and this one reaches at least to byte `end`. */
  ghost predicate OnlyInode(n0: seq<Inode>, n1: seq<Inode>, inum: nat, end: nat) {
    && |n1| == |n0| && inum < |n0| && n1[inum].size == Max(n0[inum].size, end)
    && forall k :: 0 <= k < |n0| && k != inum ==> n1[k] == n0[k]
  }

  /** What one call of writei has logged: data blocks, bitmap blocks, turns of the loop, newly mapped data blocks. */
  datatype Spent = Spent(data: set<nat>, maps: set<nat>, chunks: nat, news: nat)

  ghost function SpendChunk(s: Spent, addr: nat, maps: set<nat>, mapped: bool): Spent {
    Spent(s.data + {addr}, s.maps + maps, s.chunks + 1, s.news + if mapped then 0 else 1)
  }

  ghost predicate SpentOk(s: Spent, l0: set<nat>, l1: set<nat>, ind0: nat, ind: set<nat>, off: nat, tot: nat, n: nat,
                          stop: bool) {
    && l1 <= l0 + s.data + s.maps + ind && |ind| <= 1 && (ind0 != 0 ==> ind == {ind0})
    && |s.data| <= s.chunks
    && |s.maps| <= s.news + (if ind0 == 0 && ind != {} then 1 else 0)
    && s.news + (if off % BSIZE > 0 && s.chunks > 0 then 1 else 0) <= s.chunks
    && (s.chunks == 0 ==> tot == 0)
    && (s.chunks > 0 ==> (s.chunks - 1) * BSIZE < off % BSIZE + n)
    && (s.chunks > 0 && !stop && tot < n ==> off % BSIZE + tot == s.chunks * BSIZE)
  }

  lemma SpentNext(s: Spent, l0: set<nat>, l1: set<nat>, l2: set<nat>, ind0: nat, i1: set<nat>, i2: set<nat>, off: nat,
                  tot: nat, m: nat, n: nat, addr: nat, maps: set<nat>, mapped: bool, stop: bool)
    requires SpentOk(s, l0, l1, ind0, i1, off, tot, n, false) && tot < n
    requires m == Min(n - tot, BSIZE - (off + tot) % BSIZE)
    requires l2 <= l1 + maps + {addr} + i2 && |i2| <= 1 && (i1 != {} ==> i2 == i1)
    requires |maps| <= (if mapped then 0 else 1) + (if i1 == {} && i2 != {} then 1 else 0)
    requires tot == 0 && off % BSIZE > 0 ==> mapped
    ensures SpentOk(SpendChunk(s, addr, maps, mapped), l0, l2, ind0, i2, off, if stop then tot else tot + m, n, stop)
  {
    UnionSize(s.data, {addr});
    UnionSize(s.maps, maps);
    OffsetInBlock(off, tot);
  }

  lemma OffsetInBlock(off: nat, tot: nat)
    ensures (off % BSIZE + tot) % BSIZE == (off + tot) % BSIZE
    ensures tot == 0 ==> (off + tot) % BSIZE == off % BSIZE
  {
  }

  lemma UnionSize(a: set<nat>, b: set<nat>)
    ensures |a + b| <= |a| + |b|
  {
    assert a + b == a + (b - a);
    assert |a + (b - a)| == |a| + |b - a|;
    assert |b| == |b - a| + |b * a| by {
      assert b == (b - a) + (b * a);
    }
  }

  lemma SpentTotal(s: Spent, l0: set<nat>, l1: set<nat>, ind0: nat, ind: set<nat>, off: nat, tot: nat, n: nat,
                   stop: bool, last: nat)
    requires SpentOk(s, l0, l1, ind0, ind, off, tot, n, stop)
    ensures n <= 3 * BSIZE ==> |l1 + {last} - l0| <= LogRecovery.MAXOPBLOCKS
  {
    SubsetSize(l1 + {last} - l0, s.data + s.maps + ind + {last});
    UnionSize(s.data, s.maps);
    UnionSize(s.data + s.maps, ind);
    UnionSize(s.data + s.maps + ind, {last});
  }

  /** The reader's view: within its size every byte of every file is old or, in the written range, from src. */
  ghost predicate Overwritten(b0: seq<Block>, n0: seq<Inode>, b1: seq<Block>, n1: seq<Inode>, inum: nat, src: seq<byte>,
                              off: nat, tot: nat) {
    && |n1| == |n0| && tot <= |src|
    && forall i, x :: 0 <= i < |n1| && 0 <= x < n1[i].size ==>
         ByteAt(b1, n1, i, x) == if i == inum && off <= x < off + tot then src[x - off] else ByteAt(b0, n0, i, x)
  }

  lemma SpentStart(l0: set<nat>, ind0: nat, ind: set<nat>, off: nat, n: nat)
    requires ind == if ind0 == 0 then {} else {ind0}
    ensures SpentOk(Spent({}, {}, 0, 0), l0, l0, ind0, ind, off, 0, n, false)
  {
  }

  lemma LogsMore(b0: seq<Block>, b1: seq<Block>, b2: seq<Block>, l0: set<nat>, l1: set<nat>, l2: set<nat>)
    requires LogsChanges(b0, b1, l0, l1) && LogsChanges(b1, b2, l1, l2)
    ensures LogsChanges(b0, b2, l0, l2)
  {
  }

  lemma WrittenStart(b0: seq<Block>, n0: seq<Inode>, inum: nat, src: seq<byte>, off: nat)
    requires Dense(b0, n0) && inum < |n0| && off <= n0[inum].size
    ensures Written(b0, n0, b0, n0, inum, src, off, 0)
  {
    forall i | 0 <= i < |n0|
      ensures Mapped(b0, n0, i, Extent(n0, inum, off, 0, i))
    {
      assert Mapped(b0, n0, i, n0[i].size);
    }
  }

  /** A write that starts inside a block starts inside a mapped one. */
  lemma FirstChunkMapped(b0: seq<Block>, n0: seq<Inode>, b1: seq<Block>, n1: seq<Inode>, inum: nat, src: seq<byte>,
                         off: nat, tot: nat)
    requires Written(b0, n0, b1, n1, inum, src, off, tot)
    ensures (off + tot) % BSIZE > 0 && off + tot <= MAXFILE * BSIZE ==> BlockOf(b1, n1, inum, (off + tot) / BSIZE) != 0
  {
    WrittenShape(b0, n0, b1, n1, inum, src, off, tot);
    if (off + tot) % BSIZE > 0 {
      BlockStart(off + tot, MAXFILE + 1);
    }
  }

  /** A new size within what is written leaves every file dense. */
  lemma SizeGrows(sb: Super, b0: seq<Block>, n0: seq<Inode>, b1: seq<Block>, n1: seq<Inode>, owner: map<nat, Slot>,
                  inum: nat, src: seq<byte>, off: nat, tot: nat, size: nat)
    requires Written(b0, n0, b1, n1, inum, src, off, tot) && Owned(sb, b1, n1, owner, NO_CUT)
    requires n0[inum].size <= size <= Max(n0[inum].size, off + tot)
    ensures var n2 := n1[inum := n1[inum].(size := size)];
            && Owned(sb, b1, n2, owner, NO_CUT) && Dense(b1, n2)
            && Overwritten(b0, n0, b1, n2, inum, src, off, tot)
  {
    var n2 := n1[inum := n1[inum].(size := size)];
    assert forall s :: Val(b1, n2, NO_CUT, s) == Val(b1, n1, NO_CUT, s);
    GaplessSame(b1, n1, b1, n2);
    hide Val, InUse, Gapless;
    forall s | Val(b1, n2, NO_CUT, s) != 0
      ensures Owns(owner, Val(b1, n2, NO_CUT, s), s)
    {
      assert Owns(owner, Val(b1, n1, NO_CUT, s), s);
    }
    forall i | 0 <= i < |n2|
      ensures n2[i].size <= MAXFILE * BSIZE && Mapped(b1, n2, i, n2[i].size)
    {
      assert Mapped(b1, n1, i, Extent(n0, inum, off, tot, i));
      forall bn | 0 <= bn < MAXFILE && bn * BSIZE < n2[i].size
        ensures BlockOf(b1, n2, i, bn) != 0
      {
        assert BlockOf(b1, n1, i, bn) != 0;
      }
    }
    forall i, x | 0 <= i < |n2| && 0 <= x < n2[i].size
      ensures ByteAt(b1, n2, i, x) == if i == inum && off <= x < off + tot then src[x - off] else ByteAt(b0, n0, i, x)
    {
      assert ByteAt(b1, n2, i, x) == ByteAt(b1, n1, i, x);
    }
  }

  /**
    Bytes [off, off+tot) of file inum now come from src; every other byte of every file, within its
    size, is what it was, and everything up to there is mapped.
   */
  ghost predicate Written(b0: seq<Block>, n0: seq<Inode>, b1: seq<Block>, n1: seq<Inode>, inum: nat, src: seq<byte>,
                          off: nat, tot: nat) {
    && |n1| == |n0| && inum < |n0| && tot <= |src| && off + tot <= MAXFILE * BSIZE
    && (forall i :: 0 <= i < |n0| ==> n0[i].size <= MAXFILE * BSIZE)
    && (forall k :: 0 <= k < |n0| && k != inum ==> n1[k] == n0[k])
    && n1[inum].size == n0[inum].size && Gapless(b1, n1)
    && (forall i :: 0 <= i < |n0| ==> Mapped(b1, n1, i, Extent(n0, inum, off, tot, i)))
    && (forall i, x :: 0 <= i < |n0| && 0 <= x < Extent(n0, inum, off, tot, i) ==>
          ByteAt(b1, n1, i, x) == if i == inum && off <= x < off + tot then src[x - off] else ByteAt(b0, n0, i, x))
  }

  lemma WrittenShape(b0: seq<Block>, n0: seq<Inode>, b1: seq<Block>, n1: seq<Inode>, inum: nat, src: seq<byte>,
                     off: nat, tot: nat)
    requires Written(b0, n0, b1, n1, inum, src, off, tot)
    ensures |n1| == |n0| && inum < |n0| && tot <= |src| && off + tot <= MAXFILE * BSIZE
    ensures n1[inum].size == n0[inum].size <= MAXFILE * BSIZE
    ensures forall k :: 0 <= k < |n0| && k != inum ==> n1[k] == n0[k]
    ensures Mapped(b1, n1, inum, Max(n0[inum].size, off + tot))
  {
    assert Mapped(b1, n1, inum, Extent(n0, inum, off, tot, inum));
  }

  /** How far file i reaches once `tot` bytes have been written at `off` of file inum. */
  function Extent(n0: seq<Inode>, inum: nat, off: nat, tot: nat, i: nat): nat
    requires i < |n0|
  {
    if i == inum then Max(n0[i].size, off + tot) else n0[i].size
  }

  /** Allocating a block changes no byte anyone can see. */
  lemma WrittenKeeps(b0: seq<Block>, n0: seq<Inode>, b1: seq<Block>, n1: seq<Inode>, b2: seq<Block>, n2: seq<Inode>,
                     inum: nat, src: seq<byte>, off: nat, tot: nat)
    requires Written(b0, n0, b1, n1, inum, src, off, tot) && Keeps(b1, n1, b2, n2) && off + tot < MAXFILE * BSIZE
    requires OnlySlot(b1, n1, b2, n2, FileSlot(inum, (off + tot) / BSIZE))
    requires forall k :: 0 <= k < |n1| && k != inum ==> n2[k] == n1[k]
    ensures Written(b0, n0, b2, n2, inum, src, off, tot)
  {
    hide Val, Gapless, OnlySlot;
    MappedBefore(b0, n0, b1, n1, inum, src, off, tot);
    GaplessGrows(b1, n1, b2, n2, inum, (off + tot) / BSIZE);
    forall i, bn | 0 <= i < |n0| && 0 <= bn < MAXFILE && bn * BSIZE < Extent(n0, inum, off, tot, i)
      ensures BlockOf(b2, n2, i, bn) == BlockOf(b1, n1, i, bn) != 0
      ensures BlockOf(b1, n1, i, bn) < |b1| == |b2| && b2[BlockOf(b1, n1, i, bn)] == b1[BlockOf(b1, n1, i, bn)]
    {
      assert Mapped(b1, n1, i, Extent(n0, inum, off, tot, i));
      assert BlockOf(b1, n1, i, bn) != 0;
      assert Kept(b1, b2, Val(b1, n1, NO_CUT, FileSlot(i, bn)), Val(b2, n2, NO_CUT, FileSlot(i, bn)));
    }
    forall i, x | 0 <= i < |n0| && 0 <= x < Extent(n0, inum, off, tot, i)
      ensures ByteAt(b2, n2, i, x) == ByteAt(b1, n1, i, x)
    {
      BlockStart(x, MAXFILE);
    }
  }

  /** The blocks before the one written next are there. */
  lemma MappedBefore(b0: seq<Block>, n0: seq<Inode>, b1: seq<Block>, n1: seq<Inode>, inum: nat, src: seq<byte>,
                     off: nat, tot: nat)
    requires Written(b0, n0, b1, n1, inum, src, off, tot) && off + tot < MAXFILE * BSIZE
    ensures inum < |n1| == |n0| && (off + tot) / BSIZE < MAXFILE
    ensures forall a :: 0 <= a < (off + tot) / BSIZE ==> BlockOf(b1, n1, inum, a) != 0
  {
    WrittenShape(b0, n0, b1, n1, inum, src, off, tot);
    BlockStart(off + tot, MAXFILE);
    hide Written, BlockOf;
    forall a | 0 <= a < (off + tot) / BSIZE
      ensures BlockOf(b1, n1, inum, a) != 0
    {
      assert a * BSIZE < off + tot;
    }
  }

  lemma BlockStart(x: nat, max: nat)
    requires x < max * BSIZE
    ensures x / BSIZE < max && x / BSIZE * BSIZE <= x < x / BSIZE * BSIZE + BSIZE && x % BSIZE == x - x / BSIZE * BSIZE
  {
  }

  /** Overwriting a block that is neither metadata nor an indirect block changes no slot. */
  lemma SetOwned(sb: Super, block: seq<Block>, inode: seq<Inode>, owner: map<nat, Slot>, a: nat, data: Block)
    requires Owned(sb, block, inode, owner, NO_CUT)
    requires sb.datastart <= a < |block| && (a in owner ==> !owner[a].Indirect?)
    ensures Owned(sb, block[a := data], inode, owner, NO_CUT)
    ensures forall s :: Val(block[a := data], inode, NO_CUT, s) == Val(block, inode, NO_CUT, s)
  {
    var block' := block[a := data];
    hide Word;
    forall s
      ensures Val(block', inode, NO_CUT, s) == Val(block, inode, NO_CUT, s)
    {
      if s.Entry? && SlotOk(inode, s) && Val(block, inode, NO_CUT, Indirect(s.inum)) != 0 {
        assert Owns(owner, Val(block, inode, NO_CUT, Indirect(s.inum)), Indirect(s.inum));
      }
    }
    hide Val;
    forall b | 0 <= b < sb.size
      ensures InUse(sb, block', b) == InUse(sb, block, b)
    {
      assert MapBlock(sb, b) != a;
    }
    forall s | Val(block', inode, NO_CUT, s) != 0
      ensures Owns(owner, Val(block', inode, NO_CUT, s), s)
    {
      assert Owns(owner, Val(block, inode, NO_CUT, s), s);
    }
  }

  lemma SetDense(sb: Super, block: seq<Block>, inode: seq<Inode>, owner: map<nat, Slot>, a: nat, data: Block)
    requires Owned(sb, block, inode, owner, NO_CUT) && Dense(block, inode)
    requires sb.datastart <= a < |block| && (a in owner ==> !owner[a].Indirect?)
    ensures Dense(block[a := data], inode)
  {
    SetOwned(sb, block, inode, owner, a, data);
    GaplessSame(block, inode, block[a := data], inode);
    hide Val, Owned, Gapless;
    forall i | 0 <= i < |inode|
      ensures Mapped(block[a := data], inode, i, inode[i].size)
    {
      DenseAt(block, inode, i);
      forall bn | 0 <= bn < MAXFILE && bn * BSIZE < inode[i].size
        ensures BlockOf(block[a := data], inode, i, bn) != 0
      {
        assert BlockOf(block, inode, i, bn) != 0;
      }
    }
  }

  /** Overwriting a data block of one file changes no slot and no byte of another block. */
  lemma SetData(sb: Super, block: seq<Block>, inode: seq<Inode>, owner: map<nat, Slot>, i: nat, bn: nat, data: Block)
    requires Owned(sb, block, inode, owner, NO_CUT)
    requires BlockOf(block, inode, i, bn) != 0
    ensures BlockOf(block, inode, i, bn) < |block|
    ensures var a := BlockOf(block, inode, i, bn);
            var block' := block[a := data];
            && Owned(sb, block', inode, owner, NO_CUT)
            && (forall s :: Val(block', inode, NO_CUT, s) == Val(block, inode, NO_CUT, s))
            && (forall s: Slot :: !s.Indirect? && s != FileSlot(i, bn) && Val(block, inode, NO_CUT, s) != 0 ==>
                  Val(block, inode, NO_CUT, s) != a)
  {
    PlaceFacts(sb, block, inode, owner, map[], i, bn);
    var a := BlockOf(block, inode, i, bn);
    SetOwned(sb, block, inode, owner, a, data);
    hide Val, InUse;
    forall s: Slot | !s.Indirect? && s != FileSlot(i, bn) && Val(block, inode, NO_CUT, s) != 0
      ensures Val(block, inode, NO_CUT, s) != a
    {
      assert Owns(owner, Val(block, inode, NO_CUT, s), s);
    }
  }

  /** A block with bytes copied into it from place o on. */
  function Patched(b: Block, o: nat, bytes: seq<byte>): (r: Block)
    requires o + |bytes| <= BSIZE
    ensures forall j :: 0 <= j < BSIZE ==> r[j] == if o <= j < o + |bytes| then bytes[j - o] else b[j]
  {
    b[..o] + bytes + b[o + |bytes|..]
  }

  /** Copying m bytes of the source into the mapped block at off + tot extends what is written by m. */
  lemma WrittenNext(sb: Super, b0: seq<Block>, n0: seq<Inode>, b1: seq<Block>, n1: seq<Inode>, owner: map<nat, Slot>,
                    inum: nat, src: seq<byte>, off: nat, tot: nat, m: nat)
    requires Written(b0, n0, b1, n1, inum, src, off, tot) && Owned(sb, b1, n1, owner, NO_CUT)
    requires (off + tot) % BSIZE + m <= BSIZE && tot + m <= |src| && off + tot + m <= MAXFILE * BSIZE
    requires BlockOf(b1, n1, inum, (off + tot) / BSIZE) != 0
    ensures var a, o := BlockOf(b1, n1, inum, (off + tot) / BSIZE), (off + tot) % BSIZE;
            && a < |b1|
            && var data := Patched(b1[a], o, src[tot..tot + m]);
            && Owned(sb, b1[a := data], n1, owner, NO_CUT)
            && (forall s :: Val(b1[a := data], n1, NO_CUT, s) == Val(b1, n1, NO_CUT, s))
            && Written(b0, n0, b1[a := data], n1, inum, src, off, tot + m)
  {
    var bn, o, tot' := (off + tot) / BSIZE, (off + tot) % BSIZE, tot + m;
    var a := BlockOf(b1, n1, inum, bn);
    ValInData(sb, b1, n1, owner, FileSlot(inum, bn));
    var data := Patched(b1[a], o, src[tot..tot + m]);
    var b2 := b1[a := data];
    SetData(sb, b1, n1, owner, inum, bn, data);
    GaplessSame(b1, n1, b2, n1);
    hide Owned, Val, ByteAt, Mapped, BlockOf, Patched, Extent, Gapless;
    forall i | 0 <= i < |n0|
      ensures Mapped(b2, n1, i, Extent(n0, inum, off, tot', i))
    {
      MappedNext(b1, n1, b2, n0, inum, off, tot, m, i);
    }
    forall i, x | 0 <= i < |n0| && 0 <= x < Extent(n0, inum, off, tot', i)
      ensures ByteAt(b2, n1, i, x) == if i == inum && off <= x < off + tot' then src[x - off] else ByteAt(b0, n0, i, x)
    {
      ByteNext(sb, b0, n0, b1, n1, owner, inum, src, off, tot, m, i, x);
    }
  }

  lemma ByteNext(sb: Super, b0: seq<Block>, n0: seq<Inode>, b1: seq<Block>, n1: seq<Inode>, owner: map<nat, Slot>,
                 inum: nat, src: seq<byte>, off: nat, tot: nat, m: nat, i: nat, x: nat)
    requires Written(b0, n0, b1, n1, inum, src, off, tot) && Owned(sb, b1, n1, owner, NO_CUT)
    requires (off + tot) % BSIZE + m <= BSIZE && tot + m <= |src| && off + tot + m <= MAXFILE * BSIZE
    requires 0 < BlockOf(b1, n1, inum, (off + tot) / BSIZE) < |b1|
    requires i < |n0| && x < Extent(n0, inum, off, tot + m, i)
    ensures var a, o := BlockOf(b1, n1, inum, (off + tot) / BSIZE), (off + tot) % BSIZE;
            var data := Patched(b1[a], o, src[tot..tot + m]);
            ByteAt(b1[a := data], n1, i, x)
              == if i == inum && off <= x < off + tot + m then src[x - off] else ByteAt(b0, n0, i, x)
  {
    var bn, o := (off + tot) / BSIZE, (off + tot) % BSIZE;
    var a := BlockOf(b1, n1, inum, bn);
    var data := Patched(b1[a], o, src[tot..tot + m]);
    SetData(sb, b1, n1, owner, inum, bn, data);
    BlockStart(x, MAXFILE);
    hide Owned, Val, Mapped, Patched, BlockOf, ByteAt;
    ByteAfter(b1, n1, inum, bn, data, i, x);
    if i == inum && off + tot <= x < off + tot + m {
      ChunkPlace(off + tot, m, x);
    } else {
      assert ByteAt(b1, n1, i, x) == if i == inum && off <= x < off + tot then src[x - off] else ByteAt(b0, n0, i, x);
      if i == inum && x / BSIZE == bn {
        SameBlock(off + tot, x);
        assert data[x % BSIZE] == b1[a][x % BSIZE];
      }
    }
  }

  /** A file's bytes after one of some file's blocks has been overwritten. */
  lemma ByteAfter(b1: seq<Block>, n1: seq<Inode>, inum: nat, bn: nat, data: Block, i: nat, x: nat)
    requires 0 < BlockOf(b1, n1, inum, bn) < |b1| && bn < MAXFILE && x / BSIZE < MAXFILE
    requires var a := BlockOf(b1, n1, inum, bn);
             && (forall s :: Val(b1[a := data], n1, NO_CUT, s) == Val(b1, n1, NO_CUT, s))
             && (forall s: Slot :: !s.Indirect? && s != FileSlot(inum, bn) && Val(b1, n1, NO_CUT, s) != 0 ==>
                   Val(b1, n1, NO_CUT, s) != a)
    ensures var a := BlockOf(b1, n1, inum, bn);
            && (i == inum && x / BSIZE == bn ==>
                  && ByteAt(b1[a := data], n1, i, x) == data[x % BSIZE] && ByteAt(b1, n1, i, x) == b1[a][x % BSIZE])
            && (i != inum || x / BSIZE != bn ==> ByteAt(b1[a := data], n1, i, x) == ByteAt(b1, n1, i, x))
  {
    hide Val;
    assert i != inum || x / BSIZE != bn ==> FileSlot(i, x / BSIZE) != FileSlot(inum, bn);
  }

  lemma SameBlock(y: nat, x: nat)
    requires x / BSIZE == y / BSIZE
    ensures x - y == x % BSIZE - y % BSIZE
  {
  }

  lemma MappedNext(b1: seq<Block>, n1: seq<Inode>, b2: seq<Block>, n0: seq<Inode>, inum: nat, off: nat, tot: nat,
                   m: nat, i: nat)
    requires i < |n0| && (off + tot) % BSIZE + m <= BSIZE
    requires Mapped(b1, n1, i, Extent(n0, inum, off, tot, i))
    requires BlockOf(b1, n1, inum, (off + tot) / BSIZE) != 0
    requires forall s :: Val(b2, n1, NO_CUT, s) == Val(b1, n1, NO_CUT, s)
    ensures Mapped(b2, n1, i, Extent(n0, inum, off, tot + m, i))
  {
    hide Val;
    forall bn | 0 <= bn < MAXFILE && bn * BSIZE < Extent(n0, inum, off, tot + m, i)
      ensures BlockOf(b2, n1, i, bn) != 0
    {
      assert BlockOf(b2, n1, i, bn) == BlockOf(b1, n1, i, bn);
      if bn * BSIZE >= Extent(n0, inum, off, tot, i) {
        assert bn * BSIZE >= off + tot;
        ChunkPlace(off + tot, m, bn * BSIZE);
      }
    }
  }

  lemma DenseAt(block: seq<Block>, inode: seq<Inode>, i: nat)
    requires Dense(block, inode) && i < |inode|
    ensures inode[i].size <= MAXFILE * BSIZE && Mapped(block, inode, i, inode[i].size)
  {
  }

  /** Bytes [off, off+len) of a file. */
  function Slice(block: seq<Block>, inode: seq<Inode>, i: nat, off: nat, len: nat): (s: seq<byte>)
    ensures |s| == len
    ensures forall x :: off <= x < off + len ==> s[x - off] == ByteAt(block, inode, i, x)
  {
    if len == 0 then [] else Slice(block, inode, i, off, len - 1) + [ByteAt(block, inode, i, off + len - 1)]
  }

  /** The byte positions of a chunk that stays within one block. */
  lemma ChunkPlace(off: nat, m: nat, x: nat)
    requires off % BSIZE + m <= BSIZE && off <= x < off + m
    ensures x / BSIZE == off / BSIZE && x % BSIZE == off % BSIZE + (x - off)
  {
  }

  lemma {:induction false} SliceChunk(block: seq<Block>, inode: seq<Inode>, i: nat, off: nat, tot: nat, m: nat)
    requires (off + tot) % BSIZE + m <= BSIZE
    requires 0 < BlockOf(block, inode, i, (off + tot) / BSIZE) < |block|
    ensures var o, addr := (off + tot) % BSIZE, BlockOf(block, inode, i, (off + tot) / BSIZE);
            Slice(block, inode, i, off, tot + m) == Slice(block, inode, i, off, tot) + block[addr][o..o + m]
  {
    hide BlockOf, ByteAt;
    if m > 0 {
      SliceChunk(block, inode, i, off, tot, m - 1);
      ChunkByte(block, inode, i, off + tot, m);
      var o, addr := (off + tot) % BSIZE, BlockOf(block, inode, i, (off + tot) / BSIZE);
      assert block[addr][o..o + m] == block[addr][o..o + m - 1] + [block[addr][o + m - 1]];
    }
  }

  /** The last byte of a chunk. */
  lemma ChunkByte(block: seq<Block>, inode: seq<Inode>, i: nat, x: nat, m: nat)
    requires x % BSIZE + m <= BSIZE && m > 0
    requires 0 < BlockOf(block, inode, i, x / BSIZE) < |block|
    ensures ByteAt(block, inode, i, x + m - 1) == block[BlockOf(block, inode, i, x / BSIZE)][x % BSIZE + m - 1]
  {
    hide BlockOf;
    ChunkPlace(x, m, x + m - 1);
  }

  /** What a write put there a read gets back. */
  lemma ReadsBack(b0: seq<Block>, n0: seq<Inode>, b1: seq<Block>, n1: seq<Inode>, inum: nat, src: seq<byte>, off: nat,
                  n: nat)
    requires Overwritten(b0, n0, b1, n1, inum, src, off, n) && inum < |n1| && off + n <= n1[inum].size
    ensures Slice(b1, n1, inum, off, n) == src[..n]
  {
    hide ByteAt;
    var s := Slice(b1, n1, inum, off, n);
    forall k | 0 <= k < n
      ensures s[k] == src[k]
    {
      var x := off + k;
      assert s[x - off] == ByteAt(b1, n1, inum, x);
    }
  }

  /** Whatever changed has been logged, and nothing but metadata. */
  ghost predicate MetaLogged(sb: Super, b0: seq<Block>, l0: set<nat>, s0: map<nat, Block>, b1: seq<Block>,
                             l1: set<nat>, s1: map<nat, Block>)
  {
    && LogsChanges(b0, b1, l0, l1) && s1 == Without(s0, l1)
    && forall b :: b in l1 ==> b in l0 || b < sb.datastart
  }

  lemma NothingFreed(sb: Super, b: seq<Block>, l: set<nat>, s: map<nat, Block>)
    requires forall b :: b in s ==> b !in l
    ensures MetaLogged(sb, b, l, s, b, l, s)
  {
    WithoutNone(s, l);
  }

  lemma FreeLogs(sb: Super, b0: seq<Block>, l0: set<nat>, s0: map<nat, Block>, b1: seq<Block>, l1: set<nat>,
                 s1: map<nat, Block>, b: nat)
    requires MetaLogged(sb, b0, l0, s0, b1, l1, s1) && SuperOk(sb, |b1|) && b < sb.size
    ensures var l2 := l1 + {MapBlock(sb, b)};
            MetaLogged(sb, b0, l0, s0, Mark(sb, b1, b, false), l2, Without(s1, l2))
  {
    MarkOneBit(sb, b1, b, false);
    hide Mark, InUse;
    WithoutMore(s0, l1, l1 + {MapBlock(sb, b)});
  }

  lemma InodeLogs(sb: Super, b0: seq<Block>, l0: set<nat>, s0: map<nat, Block>, b1: seq<Block>, l1: set<nat>,
                  s1: map<nat, Block>, b: nat)
    requires MetaLogged(sb, b0, l0, s0, b1, l1, s1) && b < sb.datastart
    ensures var l2 := l1 + {b};
            LogsChanges(b0, b1, l0, l2) && Without(s1, l2) == Without(s0, l2)
    ensures forall c :: c in l1 ==> c in l0 || c < sb.datastart
  {
    WithoutMore(s0, l1, l1 + {b});
  }

  /** What stays the same for everybody else while file inum is being truncated. */
  ghost predicate OthersKept(sb: Super, b0: seq<Block>, n0: seq<Inode>, o0: map<nat, Slot>, b1: seq<Block>,
                             n1: seq<Inode>, o1: map<nat, Slot>, inum: nat)
  {
    && |b1| == |b0| && |n1| == |n0| && inum < |n0| && InodesOk(n1)
    && (forall c :: sb.datastart <= c < |b0| ==> b1[c] == b0[c])
    && (forall k :: 0 <= k < |n0| && k != inum ==> n1[k] == n0[k])
    && (forall b :: b in o1 ==> Owns(o0, b, o1[b]))
    && (forall b :: b in o0 && o0[b].inum != inum ==> Owns(o1, b, o0[b]))
  }

  lemma TruncDone(sb: Super, b0: seq<Block>, n0: seq<Inode>, o0: map<nat, Slot>, b1: seq<Block>, n1: seq<Inode>,
                  o1: map<nat, Slot>, inum: nat)
    requires Owned(sb, b0, n0, o0, NO_CUT) && Dense(b0, n0)
    requires OthersKept(sb, b0, n0, o0, b1, n1, o1, inum) && Owned(sb, b1, n1, o1, NO_CUT)
    requires n1[inum].addrs == seq(NDIRECT + 1, i => 0)
    ensures var n2 := n1[inum := n1[inum].(size := 0)];
            Owned(sb, b1, n2, o1, NO_CUT) && Dense(b1, n2)
    ensures forall b :: b in o1 <==> b in o0 && o0[b].inum != inum
  {
    var n2 := n1[inum := n1[inum].(size := 0)];
    TruncVals(sb, b0, n0, o0, b1, n1, o1, inum);
    TruncDense(b0, n0, b1, n2, inum);
    hide Val, InUse, Dense;
    forall s | Val(b1, n2, NO_CUT, s) != 0
      ensures Owns(o1, Val(b1, n2, NO_CUT, s), s)
    {
      assert Owns(o1, Val(b1, n1, NO_CUT, s), s);
    }
    forall b | b in o1
      ensures o0[b].inum != inum
    {
      assert Val(b1, n1, NO_CUT, o1[b]) == b && Owns(o0, b, o1[b]);
    }
    forall b | b in o0 && o0[b].inum != inum
      ensures b in o1
    {
      assert Owns(o1, b, o0[b]);
    }
  }

  /** The slots of the file are empty, and everybody else's hold what they held. */
  lemma TruncVals(sb: Super, b0: seq<Block>, n0: seq<Inode>, o0: map<nat, Slot>, b1: seq<Block>, n1: seq<Inode>,
                  o1: map<nat, Slot>, inum: nat)
    requires Owned(sb, b0, n0, o0, NO_CUT)
    requires OthersKept(sb, b0, n0, o0, b1, n1, o1, inum)
    requires n1[inum].addrs == seq(NDIRECT + 1, i => 0)
    ensures var n2 := n1[inum := n1[inum].(size := 0)];
            forall s ::
              && Val(b1, n2, NO_CUT, s) == Val(b1, n1, NO_CUT, s)
              && Val(b1, n2, NO_CUT, s) == if s.inum == inum then 0 else Val(b0, n0, NO_CUT, s)
  {
    var n2 := n1[inum := n1[inum].(size := 0)];
    hide InUse, Word;
    forall s
      ensures Val(b1, n2, NO_CUT, s) == Val(b1, n1, NO_CUT, s)
      ensures Val(b1, n2, NO_CUT, s) == if s.inum == inum then 0 else Val(b0, n0, NO_CUT, s)
    {
      if s.Entry? && SlotOk(n0, s) && Val(b0, n0, NO_CUT, Indirect(s.inum)) != 0 {
        hide Owned, Owns;
        PlaceOfIndirect(sb, b0, n0, o0, s.inum);
      }
    }
  }

  lemma PlaceOfIndirect(sb: Super, block: seq<Block>, inode: seq<Inode>, owner: map<nat, Slot>, inum: nat)
    requires Owned(sb, block, inode, owner, NO_CUT) && Val(block, inode, NO_CUT, Indirect(inum)) != 0
    ensures sb.datastart <= Val(block, inode, NO_CUT, Indirect(inum)) < |block|
  {
    assert Owns(owner, Val(block, inode, NO_CUT, Indirect(inum)), Indirect(inum));
  }

  lemma TruncDense(b0: seq<Block>, n0: seq<Inode>, b1: seq<Block>, n2: seq<Inode>, inum: nat)
    requires Dense(b0, n0) && |n2| == |n0| && inum < |n0| && n2[inum].size == 0
    requires forall k :: 0 <= k < |n0| && k != inum ==> n2[k] == n0[k]
    requires forall s :: Val(b1, n2, NO_CUT, s) == if s.inum == inum then 0 else Val(b0, n0, NO_CUT, s)
    ensures Dense(b1, n2)
  {
    hide Val;
    forall i, a, b | 0 <= i < |n2| && 0 <= a <= b < MAXFILE && BlockOf(b1, n2, i, b) != 0
      ensures BlockOf(b1, n2, i, a) != 0
    {
      assert BlockOf(b0, n0, i, b) != 0 && BlockOf(b0, n0, i, a) != 0;
    }
    assert Gapless(b1, n2);
    hide Gapless;
    forall i | 0 <= i < |n2|
      ensures n2[i].size <= MAXFILE * BSIZE && Mapped(b1, n2, i, n2[i].size)
    {
      if i != inum {
        DenseAt(b0, n0, i);
        forall bn | 0 <= bn < MAXFILE && bn * BSIZE < n2[i].size
          ensures BlockOf(b1, n2, i, bn) != 0
        {
          assert BlockOf(b0, n0, i, bn) != 0;
        }
      }
    }
  }

  lemma CutSizes(sb: Super, block: seq<Block>, inode: seq<Inode>, owner: map<nat, Slot>, cut: Cut)
    requires Owned(sb, block, inode, owner, cut)
    ensures SuperOk(sb, |block|) && InodesOk(inode)
  {
  }

  lemma CutZero(sb: Super, block: seq<Block>, inode: seq<Inode>, owner: map<nat, Slot>, inum: nat)
    requires Owned(sb, block, inode, owner, NO_CUT)
    ensures Owned(sb, block, inode, owner, Cut(inum, 0))
  {
    hide InUse, Word;
    assert forall s :: Val(block, inode, Cut(inum, 0), s) == Val(block, inode, NO_CUT, s);
    hide Val;
    forall s | Val(block, inode, Cut(inum, 0), s) != 0
      ensures Owns(owner, Val(block, inode, Cut(inum, 0), s), s)
    {
      assert Owns(owner, Val(block, inode, NO_CUT, s), s);
    }
  }

  lemma ValInData(sb: Super, block: seq<Block>, inode: seq<Inode>, owner: map<nat, Slot>, s: Slot)
    requires Owned(sb, block, inode, owner, NO_CUT) && Val(block, inode, NO_CUT, s) != 0
    ensures sb.datastart <= Val(block, inode, NO_CUT, s) < sb.size <= |block|
  {
    assert Owns(owner, Val(block, inode, NO_CUT, s), s);
  }

  lemma OwnedMeta(sb: Super, block: seq<Block>, inode: seq<Inode>, owner: map<nat, Slot>)
    requires Owned(sb, block, inode, owner, NO_CUT)
    ensures forall b :: 0 <= b < sb.datastart ==> InUse(sb, block, b)
  {
  }

  lemma OwnedSizes(sb: Super, block: seq<Block>, inode: seq<Inode>, owner: map<nat, Slot>)
    requires Owned(sb, block, inode, owner, NO_CUT)
    ensures SuperOk(sb, |block|) && InodesOk(inode)
  {
  }
}
