/**
  Which slot refers to which block. A file's blocks hang off its inode: twelve direct slots, one
  slot for the indirect block, and the words of the indirect block.
*/
module Ownership {
  import opened Blocks
  import opened FreeMap

  const NDIRECT: nat := 12
  const NINDIRECT: nat := WORDS
  const MAXFILE: nat := NDIRECT + NINDIRECT

  /** The in-memory inode: ip->size and ip->addrs[NDIRECT+1]. */
  datatype Inode = Inode(size: nat, addrs: seq<nat>)

  datatype Slot = Direct(inum: nat, i: nat) | Indirect(inum: nat) | Entry(inum: nat, j: nat)

  /** While itrunc frees the entries of one indirect block, the first `below` of them no longer count. */
  datatype Cut = Cut(inum: nat, below: nat)
  const NO_CUT: Cut := Cut(0, 0)

  predicate SlotOk(inode: seq<Inode>, s: Slot) {
    && s.inum < |inode|
    && (s.Direct? ==> s.i < NDIRECT)
    && (s.Entry? ==> s.j < NINDIRECT)
  }

  predicate InodesOk(inode: seq<Inode>) {
    forall i :: 0 <= i < |inode| ==> |inode[i].addrs| == NDIRECT + 1
  }

  /** The block number a slot holds, 0 for none. */
  function Val(block: seq<Block>, inode: seq<Inode>, cut: Cut, s: Slot): nat {
    if !SlotOk(inode, s) || |inode[s.inum].addrs| != NDIRECT + 1 then 0
    else match s
      case Direct(inum, i) => inode[inum].addrs[i]
      case Indirect(inum) => inode[inum].addrs[NDIRECT]
      case Entry(inum, j) =>
        var ind := inode[inum].addrs[NDIRECT];
        if ind == 0 || ind >= |block| || (inum == cut.inum && j < cut.below) then 0 else Word(block[ind], j)
  }

  /**
    Block ownership: a block of the data area is marked in use exactly when one slot refers to it,
    and then it is the only one; owner records which. Metadata blocks are always in use.
   */
  ghost predicate Owned(sb: Super, block: seq<Block>, inode: seq<Inode>, owner: map<nat, Slot>, cut: Cut) {
    && SuperOk(sb, |block|) && InodesOk(inode)
    && (forall s :: Val(block, inode, cut, s) != 0 ==> Owns(owner, Val(block, inode, cut, s), s))
    && (forall b :: b in owner ==> sb.datastart <= b < sb.size && Val(block, inode, cut, owner[b]) == b)
    && (forall b :: 0 <= b < sb.size ==> (InUse(sb, block, b) <==> b < sb.datastart || b in owner))
  }

  ghost predicate Owns(owner: map<nat, Slot>, b: nat, s: Slot) {
    b in owner && owner[b] == s
  }

  /** The ownership property in words that do not mention the owner map. */
  lemma InUseIffOneSlot(sb: Super, block: seq<Block>, inode: seq<Inode>, owner: map<nat, Slot>, b: nat)
    requires Owned(sb, block, inode, owner, NO_CUT)
    requires sb.datastart <= b < sb.size
    ensures InUse(sb, block, b) <==> exists s :: Val(block, inode, NO_CUT, s) == b
    ensures forall s, s' :: Val(block, inode, NO_CUT, s) == b && Val(block, inode, NO_CUT, s') == b ==> s == s'
  {
    if InUse(sb, block, b) {
      assert Val(block, inode, NO_CUT, owner[b]) == b;
    }
    forall s, s' | Val(block, inode, NO_CUT, s) == b && Val(block, inode, NO_CUT, s') == b
      ensures s == s'
    {
      assert Owns(owner, Val(block, inode, NO_CUT, s), s);
      assert Owns(owner, Val(block, inode, NO_CUT, s'), s');
    }
  }

  /** The slot through which block number bn of a file is reached. */
  function FileSlot(inum: nat, bn: nat): Slot {
    if bn < NDIRECT then Direct(inum, bn) else Entry(inum, bn - NDIRECT)
  }

  function BlockOf(block: seq<Block>, inode: seq<Inode>, inum: nat, bn: nat): nat {
    Val(block, inode, NO_CUT, FileSlot(inum, bn))
  }

  /** Storing through a slot of the inode itself. */
  function SetAddr(inode: seq<Inode>, inum: nat, i: nat, b: nat): seq<Inode>
    requires inum < |inode| && i < |inode[inum].addrs|
  {
    inode[inum := inode[inum].(addrs := inode[inum].addrs[i := b])]
  }

  /** The blocks after balloc has returned r. */
  function Allocated(sb: Super, block: seq<Block>, r: nat): seq<Block>
    requires SuperOk(sb, |block|) && r < sb.size
  {
    Mark(sb, block, r, true)[r := Zero()]
  }

  /** Nothing in a file's indirect block or anyone's data lies in the bitmap or in a free block. */
  lemma AllocatedFrame(sb: Super, block: seq<Block>, inode: seq<Inode>, owner: map<nat, Slot>, r: nat)
    requires Owned(sb, block, inode, owner, NO_CUT)
    requires sb.datastart <= r < sb.size && !InUse(sb, block, r)
    ensures var block' := Allocated(sb, block, r);
            && |block'| == |block| && SuperOk(sb, |block'|)
            && (forall b :: 0 <= b < sb.size ==> InUse(sb, block', b) == (b == r || InUse(sb, block, b)))
            && (forall b :: sb.datastart <= b < |block| && b != r ==> block'[b] == block[b])
            && block'[r] == Zero()
            && (forall s :: Val(block', inode, NO_CUT, s) == Val(block, inode, NO_CUT, s))
            && r !in owner
  {
    MarkOneBit(sb, block, r, true);
    var block' := Allocated(sb, block, r);
    forall s
      ensures Val(block', inode, NO_CUT, s) == Val(block, inode, NO_CUT, s)
    {
      if s.Entry? && SlotOk(inode, s) {
        var ind := Val(block, inode, NO_CUT, Indirect(s.inum));
        if ind != 0 {
          assert Owns(owner, ind, Indirect(s.inum));
          assert block'[ind] == block[ind];
        }
      }
    }
  }

  /** Marking r and making slot s refer to it, all other slots and bits unchanged, keeps ownership. */
  lemma OwnedGains(sb: Super, block: seq<Block>, inode: seq<Inode>, owner: map<nat, Slot>, block': seq<Block>,
                   inode': seq<Inode>, s: Slot, r: nat)
    requires Owned(sb, block, inode, owner, NO_CUT)
    requires sb.datastart <= r < sb.size && r !in owner && Val(block, inode, NO_CUT, s) == 0
    requires |block'| == |block| && InodesOk(inode')
    requires forall x :: Val(block', inode', NO_CUT, x) == if x == s then r else Val(block, inode, NO_CUT, x)
    requires forall b :: 0 <= b < sb.size ==> InUse(sb, block', b) == (b == r || InUse(sb, block, b))
    ensures Owned(sb, block', inode', owner[r := s], NO_CUT)
  {
    hide Val, InUse;
    var owner' := owner[r := s];
    forall x | Val(block', inode', NO_CUT, x) != 0
      ensures Owns(owner', Val(block', inode', NO_CUT, x), x)
    {
      if x != s {
        assert Owns(owner, Val(block, inode, NO_CUT, x), x);
      }
    }
  }

  /** bmap, direct case, and bmap's allocation of the indirect block. */
  lemma AllocAddr(sb: Super, block: seq<Block>, inode: seq<Inode>, owner: map<nat, Slot>, inum: nat, i: nat, r: nat)
    requires Owned(sb, block, inode, owner, NO_CUT)
    requires sb.datastart <= r < sb.size && !InUse(sb, block, r)
    requires inum < |inode| && i <= NDIRECT && inode[inum].addrs[i] == 0
    ensures var s := if i < NDIRECT then Direct(inum, i) else Indirect(inum);
            var block', inode' := Allocated(sb, block, r), SetAddr(inode, inum, i, r);
            && Owned(sb, block', inode', owner[r := s], NO_CUT)
            && (forall x :: Val(block', inode', NO_CUT, x) == if x == s then r else Val(block, inode, NO_CUT, x))
  {
    AllocatedFrame(sb, block, inode, owner, r);
    var s := if i < NDIRECT then Direct(inum, i) else Indirect(inum);
    var block', inode' := Allocated(sb, block, r), SetAddr(inode, inum, i, r);
    assert InodesOk(inode');
    hide InUse, Mark, SuperOk, Owned, Allocated, Zero;
    SetAddrVal(block', inode, inum, i, r, s);
    OwnedGains(sb, block, inode, owner, block', inode', s, r);
  }

  /** An inode slot that was empty now refers to r, a zeroed block; no other slot changes its value. */
  lemma SetAddrVal(block: seq<Block>, inode: seq<Inode>, inum: nat, i: nat, r: nat, s: Slot)
    requires InodesOk(inode) && inum < |inode| && i <= NDIRECT && inode[inum].addrs[i] == 0
    requires r < |block| && block[r] == Zero()
    requires s == if i < NDIRECT then Direct(inum, i) else Indirect(inum)
    ensures var inode' := SetAddr(inode, inum, i, r);
            forall x :: Val(block, inode', NO_CUT, x) == if x == s then r else Val(block, inode, NO_CUT, x)
  {
    var inode' := SetAddr(inode, inum, i, r);
    forall x
      ensures Val(block, inode', NO_CUT, x) == if x == s then r else Val(block, inode, NO_CUT, x)
    {
      if x.Entry? && x.inum == inum && SlotOk(inode, x) && i == NDIRECT {
        ZeroWords(x.j);
      }
    }
  }

  /** bmap, the word of the indirect block. */
  lemma AllocEntry(sb: Super, block: seq<Block>, inode: seq<Inode>, owner: map<nat, Slot>, inum: nat, j: nat, r: nat)
    requires Owned(sb, block, inode, owner, NO_CUT)
    requires sb.datastart <= r < sb.size && !InUse(sb, block, r)
    requires inum < |inode| && j < NINDIRECT && inode[inum].addrs[NDIRECT] != 0
    requires Val(block, inode, NO_CUT, Entry(inum, j)) == 0
    ensures var ind := inode[inum].addrs[NDIRECT];
            && ind < |block| && ind != r
            && var one := Allocated(sb, block, r);
               var block' := one[ind := PutWord(one[ind], j, r)];
            && Owned(sb, block', inode, owner[r := Entry(inum, j)], NO_CUT)
            && (forall x ::
                  Val(block', inode, NO_CUT, x) == if x == Entry(inum, j) then r else Val(block, inode, NO_CUT, x))
  {
    AllocatedFrame(sb, block, inode, owner, r);
    var ind := inode[inum].addrs[NDIRECT];
    assert Owns(owner, Val(block, inode, NO_CUT, Indirect(inum)), Indirect(inum));
    var one := Allocated(sb, block, r);
    var block' := one[ind := PutWord(one[ind], j, r)];
    hide Allocated, PutWord, Word, Zero;
    forall x
      ensures Val(block', inode, NO_CUT, x) == if x == Entry(inum, j) then r else Val(block, inode, NO_CUT, x)
    {
      assert Val(one, inode, NO_CUT, x) == Val(block, inode, NO_CUT, x);
      if x.Entry? && SlotOk(inode, x) && x.inum != inum {
        var other := Val(block, inode, NO_CUT, Indirect(x.inum));
        assert other != 0 ==> Owns(owner, other, Indirect(x.inum));
      }
    }
    forall b | 0 <= b < sb.size
      ensures InUse(sb, block', b) == InUse(sb, one, b)
    {
      assert MapBlock(sb, b) != ind;
    }
    OwnedGains(sb, block, inode, owner, block', inode, Entry(inum, j), r);
  }

  /** Clearing the bit of b and emptying the slot that referred to it keeps ownership. */
  lemma OwnedLoses(sb: Super, block: seq<Block>, inode: seq<Inode>, owner: map<nat, Slot>, cut: Cut, block': seq<Block>,
                   inode': seq<Inode>, cut': Cut, b: nat)
    requires Owned(sb, block, inode, owner, cut) && b in owner
    requires |block'| == |block| && InodesOk(inode')
    requires forall x :: Val(block', inode', cut', x) == if x == owner[b] then 0 else Val(block, inode, cut, x)
    requires forall c :: 0 <= c < sb.size ==> InUse(sb, block', c) == (c != b && InUse(sb, block, c))
    ensures Owned(sb, block', inode', owner - {b}, cut')
  {
    hide Val, InUse;
    var owner' := owner - {b};
    forall x | Val(block', inode', cut', x) != 0
      ensures Owns(owner', Val(block', inode', cut', x), x)
    {
      assert Owns(owner, Val(block, inode, cut, x), x);
    }
  }

  lemma FreedFrame(sb: Super, block: seq<Block>, inode: seq<Inode>, owner: map<nat, Slot>, cut: Cut, b: nat)
    requires Owned(sb, block, inode, owner, cut) && sb.datastart <= b < sb.size
    ensures var block' := Mark(sb, block, b, false);
            && |block'| == |block| && SuperOk(sb, |block'|)
            && (forall c :: 0 <= c < sb.size ==> InUse(sb, block', c) == (c != b && InUse(sb, block, c)))
            && (forall c :: sb.datastart <= c < |block| ==> block'[c] == block[c])
            && (forall s :: Val(block', inode, cut, s) == Val(block, inode, cut, s))
  {
    MarkOneBit(sb, block, b, false);
    var block' := Mark(sb, block, b, false);
    hide Mark;
    forall s
      ensures Val(block', inode, cut, s) == Val(block, inode, cut, s)
    {
      if s.Entry? && SlotOk(inode, s) {
        var ind := Val(block, inode, cut, Indirect(s.inum));
        if ind != 0 {
          assert Owns(owner, ind, Indirect(s.inum));
        }
      }
    }
  }

  /** itrunc: free a block a slot of the inode refers to and empty the slot. */
  lemma FreeAddr(sb: Super, block: seq<Block>, inode: seq<Inode>, owner: map<nat, Slot>, cut: Cut, inum: nat, i: nat)
    requires Owned(sb, block, inode, owner, cut)
    requires inum < |inode| && i <= NDIRECT && inode[inum].addrs[i] != 0
    requires i < NDIRECT ==> cut == NO_CUT
    requires i == NDIRECT ==> cut == Cut(inum, NINDIRECT)
    ensures var b := inode[inum].addrs[i];
            && sb.datastart <= b < sb.size && InUse(sb, block, b) && b in owner && owner[b].inum == inum
            && Owned(sb, Mark(sb, block, b, false), SetAddr(inode, inum, i, 0), owner - {b}, NO_CUT)
  {
    var b := inode[inum].addrs[i];
    var s := if i < NDIRECT then Direct(inum, i) else Indirect(inum);
    assert Val(block, inode, cut, s) == b;
    assert Owns(owner, b, s);
    FreedFrame(sb, block, inode, owner, cut, b);
    var block', inode' := Mark(sb, block, b, false), SetAddr(inode, inum, i, 0);
    hide Mark, InUse, SuperOk, Word;
    forall x
      ensures Val(block', inode', NO_CUT, x) == if x == s then 0 else Val(block, inode, cut, x)
    {
      assert Val(block', inode, cut, x) == Val(block, inode, cut, x);
    }
    OwnedLoses(sb, block, inode, owner, cut, block', inode', NO_CUT, b);
  }

  /** itrunc: free the block the j-th word of the indirect block refers to, if any, and go on to the next word. */
  lemma FreeEntry(sb: Super, block: seq<Block>, inode: seq<Inode>, owner: map<nat, Slot>, inum: nat, j: nat)
    requires Owned(sb, block, inode, owner, Cut(inum, j))
    requires inum < |inode| && j < NINDIRECT && inode[inum].addrs[NDIRECT] != 0
    ensures var ind := inode[inum].addrs[NDIRECT];
            && sb.datastart <= ind < sb.size
            && var b := Word(block[ind], j);
            && (b == 0 ==> Owned(sb, block, inode, owner, Cut(inum, j + 1)))
            && (b != 0 ==>
                 && sb.datastart <= b < sb.size && InUse(sb, block, b) && b in owner && owner[b].inum == inum
                 && Owned(sb, Mark(sb, block, b, false), inode, owner - {b}, Cut(inum, j + 1)))
  {
    var cut, cut' := Cut(inum, j), Cut(inum, j + 1);
    var ind := inode[inum].addrs[NDIRECT];
    assert Val(block, inode, cut, Indirect(inum)) == ind;
    assert Owns(owner, ind, Indirect(inum));
    var s := Entry(inum, j);
    var b := Word(block[ind], j);
    assert Val(block, inode, cut, s) == b;
    hide InUse, Word;
    assert forall x :: Val(block, inode, cut', x) == if x == s then 0 else Val(block, inode, cut, x);
    if b != 0 {
      assert Owns(owner, b, s);
      FreedFrame(sb, block, inode, owner, cut, b);
      var block' := Mark(sb, block, b, false);
      hide Mark, SuperOk;
      forall x
        ensures Val(block', inode, cut', x) == if x == s then 0 else Val(block, inode, cut, x)
      {
        assert Val(block', inode, cut, x) == Val(block, inode, cut, x);
      }
      OwnedLoses(sb, block, inode, owner, cut, block', inode, cut', b);
    } else {
      forall x | Val(block, inode, cut', x) != 0
        ensures Owns(owner, Val(block, inode, cut', x), x)
      {
        assert Owns(owner, Val(block, inode, cut, x), x);
      }
    }
  }
}
