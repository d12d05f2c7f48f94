/**
  The free-block bitmap: balloc and bfree over the flat array of blocks that the logging layer
  presents. Bit b of the map lives in block b / BPB + bmapstart, byte b % BPB / 8, bit b % 8.
*/
module FreeMap {
  import opened Blocks

  const BPB: nat := BSIZE * 8

  /** The parts of the superblock used here; blocks below datastart hold metadata. */
  datatype Super = Super(size: nat, bmapstart: nat, datastart: nat)

  predicate SuperOk(sb: Super, blocks: nat) {
    && 0 < sb.datastart <= sb.size <= blocks
    && sb.size < WORD_LIMIT
    && (forall b :: 0 <= b < sb.size ==> MapBlock(sb, b) < sb.datastart)
  }

  function MapBlock(sb: Super, b: nat): nat {
    b / BPB + sb.bmapstart
  }

  function Pow2(w: nat): nat {
    if w == 0 then 1 else 2 * Pow2(w - 1)
  }

  /** (v & (1 << k)) != 0. */
  predicate Bit(v: nat, k: nat) {
    if k == 0 then v % 2 == 1 else Bit(v / 2, k - 1)
  }

  /** A number with one more bit below the others. */
  function WithLow(h: nat, low: bool): (r: nat)
    ensures r == 2 * h + if low then 1 else 0
    ensures Bit(r, 0) == low && forall j: nat :: j > 0 ==> Bit(r, j) == Bit(h, j - 1)
  {
    var r := 2 * h + if low then 1 else 0;
    assert r / 2 == h;
    r
  }

  /** v with bit k stored as x and the other bits as they were, within w bits: v | (1 << k) or v & ~(1 << k). */
  function PutBit(v: nat, k: nat, x: bool, w: nat): (r: nat)
    requires k < w && v < Pow2(w)
    ensures r < Pow2(w)
    ensures Bit(r, k) == x
    ensures forall j: nat :: j != k ==> Bit(r, j) == Bit(v, j)
  {
    if k == 0 then WithLow(v / 2, x) else WithLow(PutBit(v / 2, k - 1, x, w - 1), v % 2 == 1)
  }

  /** Is block b marked in use? */
  predicate InUse(sb: Super, block: seq<Block>, b: nat)
    requires SuperOk(sb, |block|) && b < sb.size
  {
    Bit(block[MapBlock(sb, b)][b % BPB / 8], b % 8)
  }

  /** The blocks after one store into the bitmap. */
  function Mark(sb: Super, block: seq<Block>, b: nat, x: bool): (r: seq<Block>)
    requires SuperOk(sb, |block|) && b < sb.size
  {
    var m := MapBlock(sb, b);
    var i := b % BPB / 8;
    assert Pow2(8) == 256;
    block[m := block[m][i := PutBit(block[m][i], b % 8, x, 8)]]
  }

  /** It changes the one bit it is meant to change. */
  lemma MarkOneBit(sb: Super, block: seq<Block>, b: nat, x: bool)
    requires SuperOk(sb, |block|) && b < sb.size
    ensures var r := Mark(sb, block, b, x);
            && |r| == |block|
            && (forall c :: 0 <= c < |block| && c != MapBlock(sb, b) ==> r[c] == block[c])
            && (forall c :: 0 <= c < sb.size ==> InUse(sb, r, c) == if c == b then x else InUse(sb, block, c))
  {
    var r := Mark(sb, block, b, x);
    assert Pow2(8) == 256;
    forall c | 0 <= c < sb.size && c != b
      ensures InUse(sb, r, c) == InUse(sb, block, c)
    {
      if c / BPB == b / BPB && c % BPB / 8 == b % BPB / 8 {
        SameByte(b, c);
      }
    }
  }

  lemma EightTimes(x: nat, t: nat)
    requires t < 8
    ensures (8 * x + t) % 8 == t
  {
  }

  lemma BitOfMap(b: nat)
    ensures b % BPB % 8 == b % 8
    ensures b == (b / BPB * 1024 + b % BPB / 8) * 8 + b % 8
  {
    var q, s, t := b / BPB, b % BPB / 8, b % BPB % 8;
    assert b == 8 * (q * 1024 + s) + t;
    EightTimes(q * 1024 + s, t);
  }

  /** Two blocks whose bits share a byte of the same bitmap block differ in the bit. */
  lemma SameByte(b: nat, c: nat)
    requires b != c && b / BPB == c / BPB && b % BPB / 8 == c % BPB / 8
    ensures b % 8 != c % 8
  {
    BitOfMap(b);
    BitOfMap(c);
  }

  /** Stray contents left when these blocks are logged. */
  ghost function Without(stray: map<nat, Block>, logged: set<nat>): map<nat, Block> {
    map b | b in stray && b !in logged :: stray[b]
  }

  lemma WithoutMore(stray: map<nat, Block>, l1: set<nat>, l2: set<nat>)
    requires l1 <= l2
    ensures Without(Without(stray, l1), l2) == Without(stray, l2)
  {
  }

  lemma WithoutNone(stray: map<nat, Block>, logged: set<nat>)
    requires forall b :: b in logged ==> b !in stray
    ensures Without(stray, logged) == stray
  {
  }

  /** The flat array of blocks as readers see it, and the blocks the current operation has logged. */
  class Store {
    const sb: Super
    var block: seq<Block>
    ghost var logged: set<nat>
    ghost var pinned: set<nat>         // logged by other operations of the same transaction
    ghost var stray: map<nat, Block>   // changed and never logged: what readers get once the buffer is recycled

    ghost predicate Valid()
      reads this
    {
      && SuperOk(sb, |block|)
      && (forall b :: b in stray ==> b < |block| && b !in logged && b !in pinned)
    }

    constructor (sb: Super, block: seq<Block>)
      requires SuperOk(sb, |block|)
      ensures Valid() && this.sb == sb && this.block == block && logged == {} && pinned == {} && stray == map[]
    {
      this.sb, this.block := sb, block;
      logged, pinned, stray := {}, {}, map[];
    }

    /** begin_op after an end_op, which committed the transaction or left it to other operations. */
    ghost method NextOp(committed: bool)
      requires Valid()
      modifies this`logged, this`pinned
      ensures Valid() && logged == {} && pinned == if committed then {} else old(pinned + logged)
    {
      pinned := if committed then {} else pinned + logged;
      logged := {};
    }

    /** bread, overwrite, log_write, brelse. */
    method Write(b: nat, data: Block)
      requires Valid() && b < |block|
      modifies this`block, this`logged, this`stray
      ensures Valid() && block == old(block)[b := data] && logged == old(logged) + {b}
      ensures stray == Without(old(stray), logged)
    {
      block := block[b := data];
      logged := logged + {b};
      stray := Without(stray, logged);
    }

    /** bread, overwrite and brelse without log_write: unless somebody has logged the block already, the
      * change lasts as long as the buffer does. */
    method Poke(b: nat, data: Block)
      requires Valid() && b < |block|
      modifies this`block, this`stray
      ensures Valid() && block == old(block)[b := data]
      ensures stray == if Lossy(old(block)[b], b, data) then old(stray)[b := old(Behind(b))] else old(stray)
    {
      if Lossy(block[b], b, data) {
        stray := stray[b := Behind(b)];
      }
      block := block[b := data];
    }

    /** Will data put into block b without log_write be lost? */
    ghost predicate Lossy(was: Block, b: nat, data: Block)
      reads this`logged, this`pinned
    {
      data != was && b !in logged && b !in pinned
    }

    /** What block b falls back to when its buffer is recycled now. */
    ghost function Behind(b: nat): Block
      requires b < |block|
      reads this
    {
      if b in stray then stray[b] else block[b]
    }

    /** The buffer of a stray block has been recycled; the next reader gets what is on disk. */
    method Recycle(b: nat, disk: Block)
      requires Valid() && b in stray && disk == stray[b]
      modifies this`block, this`stray
      ensures Valid() && block == old(block)[b := disk] && stray == old(stray) - {b}
    {
      block, stray := block[b := disk], stray - {b};
    }

    /** log_write of a metadata block whose bytes are not represented here. */
    method LogOnly(b: nat)
      requires Valid()
      modifies this`logged, this`stray
      ensures Valid() && logged == old(logged) + {b} && stray == Without(old(stray), logged)
    {
      logged := logged + {b};
      stray := Without(stray, logged);
    }

    /** bzero. */
    method Bzero(b: nat)
      requires Valid() && b < |block|
      modifies this`block, this`logged, this`stray
      ensures Valid() && block == old(block)[b := Zero()] && logged == old(logged) + {b}
      ensures stray == Without(old(stray), logged)
    {
      Write(b, Zero());
    }

    ghost predicate MetaInUse()
      reads this
    {
      Valid() && forall b :: 0 <= b < sb.datastart ==> InUse(sb, block, b)
    }

    ghost predicate AllInUse(lo: nat, hi: nat)
      reads this
    {
      Valid() && forall b :: lo <= b < hi && b < sb.size ==> InUse(sb, block, b)
    }

    /** The lowest free block, now marked and zeroed; 0 when every block is in use. */
    method Balloc() returns (r: nat)
      requires MetaInUse()
      modifies this`block, this`logged, this`stray
      ensures Valid() && stray == Without(old(stray), logged)
      ensures r == 0 ==> unchanged(this) && AllInUse(0, sb.size)
      ensures r != 0 ==> sb.datastart <= r < sb.size && old(AllInUse(0, r)) && !old(AllInUse(r, r + 1))
      ensures r != 0 ==> block == Mark(sb, old(block), r, true)[r := Zero()]
      ensures r != 0 ==> logged == old(logged) + {MapBlock(sb, r), r}
    {
      hide Mark, Without, Zero, PutBit, Bit;
      var b := 0;
      WithoutNone(stray, logged);
      while b < sb.size
        invariant b % BPB == 0
        invariant unchanged(this) && AllInUse(0, b)
        decreases sb.size - b
      {
        var bi := ScanMap(b);
        if bi < BPB && b + bi < sb.size {
          Take(b, bi);
          return b + bi;
        }
        b := b + BPB;
      }
      return 0;
    }

    /** Mark the block the scan has found, and zero it. */
    method Take(b: nat, bi: nat)
      requires Valid() && b % BPB == 0 && bi < BPB && b + bi < sb.size
      modifies this`block, this`logged, this`stray
      ensures Valid() && block == Mark(sb, old(block), b + bi, true)[b + bi := Zero()]
      ensures logged == old(logged) + {MapBlock(sb, b + bi), b + bi} && stray == Without(old(stray), logged)
    {
      hide Without, Zero;
      var bp := b / BPB + sb.bmapstart;
      MarkOneBit(sb, block, b + bi, true);
      BitPlace(b, bi);
      WithoutMore(stray, logged + {bp}, logged + {bp, b + bi});
      hide InUse, Bit;
      Write(bp, Mark(sb, block, b + bi, true)[bp]);
      assert block == Mark(sb, old(block), b + bi, true);
      Bzero(b + bi);
      assert logged == old(logged) + {bp, b + bi};
    }

    /** The inner loop of balloc: the first clear bit of one bitmap block. */
    method ScanMap(b: nat) returns (bi: nat)
      requires Valid() && b < sb.size && b % BPB == 0
      ensures bi <= BPB && AllInUse(b, b + bi)
      ensures bi == BPB || b + bi >= sb.size || !AllInUse(b + bi, b + bi + 1)
    {
      bi := 0;
      while bi < BPB && b + bi < sb.size
        invariant 0 <= bi <= BPB && AllInUse(b, b + bi)
      {
        BitPlace(b, bi);
        assert MapBlock(sb, b + bi) == b / BPB + sb.bmapstart;
        if !Bit(block[b / BPB + sb.bmapstart][bi / 8], bi % 8) {
          assert !InUse(sb, block, b + bi);
          return;
        }
        bi := bi + 1;
      }
    }

    /** Clear the block's bit; false is the panic "freeing free block". */
    method Bfree(b: nat) returns (ok: bool)
      requires Valid() && b < sb.size
      modifies this`block, this`logged, this`stray
      ensures Valid() && stray == Without(old(stray), logged)
      ensures ok <==> old(InUse(sb, block, b))
      ensures ok ==> block == Mark(sb, old(block), b, false) && logged == old(logged) + {MapBlock(sb, b)}
      ensures !ok ==> unchanged(this)
    {
      if !InUse(sb, block, b) {
        WithoutNone(stray, logged);
        return false;
      }
      var bp := b / BPB + sb.bmapstart;
      MarkOneBit(sb, block, b, false);
      Write(bp, Mark(sb, block, b, false)[bp]);
      assert block == Mark(sb, old(block), b, false);
      return true;
    }
  }

  lemma MapQuotient(q: nat, r: nat)
    requires r < BPB
    ensures (q * BPB + r) / BPB == q && (q * BPB + r) % BPB == r
  {
  }

  lemma BitPlace(b: nat, bi: nat)
    requires b % BPB == 0 && bi < BPB
    ensures (b + bi) / BPB == b / BPB && (b + bi) % BPB == bi && (b + bi) % 8 == bi % 8
  {
    var q := b / BPB;
    MapQuotient(q, bi);
    BitOfMap(q * BPB + bi);
  }
}
