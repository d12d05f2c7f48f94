/**
  The buffer cache. The buffers and the list head live in one static array, so a struct buf pointer
  is modelled as an index into it. Entering and leaving each method stands for one critical section.
*/
module BufferCache {
  import opened Blocks
  import opened LogRecovery

  const NBUF: nat := 30
  const HEAD: nat := NBUF
  const ROOTDEV: nat := 1

  datatype Buf = Buf(valid: bool, dev: nat, blockno: nat, refcnt: nat, prev: nat, next: nat, data: Block)

  // ---------------------------------------------------------------- the list

  /** Following next from the head meets exactly ring[1], ring[2], … and returns; prev is its inverse. */
  ghost predicate Ring(buf: seq<Buf>, ring: seq<nat>) {
    && LinksInRange(buf)
    && |ring| >= 2 && ring[0] == HEAD && ring[|ring| - 1] == HEAD
    && (forall k :: 1 <= k < |ring| - 1 ==> ring[k] < NBUF)
    && (forall j, k :: 1 <= j < k < |ring| - 1 ==> ring[j] != ring[k])
    && (forall j, k :: 0 <= j < k < |ring| && k == j + 1 ==>
          buf[ring[j]].next == ring[k] && buf[ring[k]].prev == ring[j])
  }

  /** The stores p->next = q and p->prev = q. */
  function SetNext(buf: seq<Buf>, p: nat, q: nat): seq<Buf>
    requires p < |buf|
  {
    buf[p := buf[p].(next := q)]
  }

  function SetPrev(buf: seq<Buf>, p: nat, q: nat): seq<Buf>
    requires p < |buf|
  {
    buf[p := buf[p].(prev := q)]
  }

  predicate LinksInRange(buf: seq<Buf>) {
    |buf| == NBUF + 1 && forall i :: 0 <= i <= NBUF ==> buf[i].next <= NBUF && buf[i].prev <= NBUF
  }

  function Unlink(buf: seq<Buf>, b: nat): (r: seq<Buf>)
    requires LinksInRange(buf) && b < NBUF
    ensures LinksInRange(r)
  {
    var one := SetPrev(buf, buf[b].next, buf[b].prev);
    SetNext(one, one[b].prev, one[b].next)
  }

  function PushFront(buf: seq<Buf>, b: nat): (r: seq<Buf>)
    requires LinksInRange(buf) && b < NBUF
    ensures LinksInRange(r)
  {
    var one := SetPrev(SetNext(buf, b, buf[HEAD].next), b, HEAD);
    var two := SetPrev(one, one[HEAD].next, b);
    SetNext(two, HEAD, b)
  }

  /** Two stores take one buffer out of the ring and leave all else linked as before. */
  lemma UnlinkRing(buf: seq<Buf>, ring: seq<nat>, k: nat)
    requires Ring(buf, ring) && 1 <= k < |ring| - 1
    ensures Ring(Unlink(buf, ring[k]), ring[..k] + ring[k + 1..])
  {
    UnlinkNexts(buf, ring, k);
    UnlinkPrevs(buf, ring, k);
  }

  lemma UnlinkNexts(buf: seq<Buf>, ring: seq<nat>, k: nat)
    requires Ring(buf, ring) && 1 <= k < |ring| - 1
    ensures var r, u := ring[..k] + ring[k + 1..], Unlink(buf, ring[k]);
            forall j :: 0 <= j < |r| - 1 ==> u[r[j]].next == r[j + 1]
  {
    var b := ring[k];
    assert buf[b].next == ring[k + 1] && buf[b].prev == ring[k - 1];
    var r, u := ring[..k] + ring[k + 1..], Unlink(buf, b);
    forall j | 0 <= j < |r| - 1
      ensures u[r[j]].next == r[j + 1]
    {
      var o := if j < k then j else j + 1;
      assert r[j] == ring[o];
      if j == k - 1 {
        assert u[ring[k - 1]].next == ring[k + 1];
      } else {
        assert ring[o] != ring[k - 1];
        assert buf[ring[o]].next == ring[o + 1];
      }
    }
  }

  lemma UnlinkPrevs(buf: seq<Buf>, ring: seq<nat>, k: nat)
    requires Ring(buf, ring) && 1 <= k < |ring| - 1
    ensures var r, u := ring[..k] + ring[k + 1..], Unlink(buf, ring[k]);
            forall j :: 1 <= j < |r| ==> u[r[j]].prev == r[j - 1]
  {
    var b := ring[k];
    assert buf[b].next == ring[k + 1] && buf[b].prev == ring[k - 1];
    var r, u := ring[..k] + ring[k + 1..], Unlink(buf, b);
    forall j | 1 <= j < |r|
      ensures u[r[j]].prev == r[j - 1]
    {
      var o := if j < k then j else j + 1;
      assert r[j] == ring[o];
      if j == k {
        assert u[ring[k + 1]].prev == ring[k - 1];
      } else {
        assert ring[o] != ring[k + 1];
        assert buf[ring[o]].prev == ring[o - 1];
      }
    }
  }

  lemma PushFrontRing(buf: seq<Buf>, ring: seq<nat>, b: nat)
    requires Ring(buf, ring) && b < NBUF && b !in ring
    ensures Ring(PushFront(buf, b), [HEAD, b] + ring[1..])
  {
    assert buf[HEAD].next == ring[1] by {
      assert buf[ring[0]].next == ring[1];
    }
    var r := [HEAD, b] + ring[1..];
    var u := PushFront(buf, b);
    forall j | 0 <= j < |r| - 1
      ensures u[r[j]].next == r[j + 1]
    {
      if j >= 2 {
        assert r[j] == ring[j - 1] && r[j + 1] == ring[j];
        assert ring[j - 1] != b;
        assert buf[ring[j - 1]].next == ring[j];
      }
    }
    forall j | 1 <= j < |r|
      ensures u[r[j]].prev == r[j - 1]
    {
      if j >= 3 {
        assert r[j] == ring[j - 1] && r[j - 1] == ring[j - 2];
        assert buf[ring[j - 1]].prev == ring[j - 2];
        assert ring[j - 1] != ring[1];
      }
    }
  }

  // ---------------------------------------------------------------- the contents

  /** What a reader of block b gets: contents that were changed and never logged hide the others while
    * their buffer is cached. */
  function Seen(flat: Disk, loose: map<nat, Block>, b: nat): Block
    requires b < |flat|
  {
    if b in loose then loose[b] else flat[b]
  }

  /**
    The cache stands for one flat array of blocks, and for the loose contents over it. slot[b] is the
    buffer caching b, or HEAD; a buffer nobody references is clean, or loose over a clean block,
    which is what lets bget recycle it.
   */
  ghost predicate Coherent(buf: seq<Buf>, disk: Disk, flat: Disk, refs: seq<nat>, slot: seq<nat>,
                           loose: map<nat, Block>)
  {
    && |buf| == NBUF + 1
    && |flat| == |disk| && |refs| == |disk| && |slot| == |disk|
    && (forall i :: 0 <= i < NBUF ==> BufOk(buf[i], i, disk, flat, refs, slot, loose))
    && (forall b :: 0 <= b < |disk| ==> BlockOk(buf, disk, flat, refs, slot, loose, b))
    && (forall b :: b in loose ==> b < |disk|)
  }

  ghost predicate BufOk(e: Buf, i: nat, disk: Disk, flat: Disk, refs: seq<nat>, slot: seq<nat>, loose: map<nat, Block>)
    requires |flat| == |disk| && |refs| == |disk| && |slot| == |disk|
  {
    if e.dev == 0 then e.refcnt == 0 && !e.valid
    else
      && e.dev == ROOTDEV && e.blockno < |disk|
      && slot[e.blockno] == i
      && refs[e.blockno] == e.refcnt
      && (e.valid ==> e.data == Seen(flat, loose, e.blockno))
      && (!e.valid ==> flat[e.blockno] == disk[e.blockno] && e.blockno !in loose)
      && (e.refcnt == 0 ==> flat[e.blockno] == disk[e.blockno])
  }

  ghost predicate BlockOk(buf: seq<Buf>, disk: Disk, flat: Disk, refs: seq<nat>, slot: seq<nat>, loose: map<nat, Block>,
                          b: nat)
    requires |buf| == NBUF + 1
    requires |flat| == |disk| && |refs| == |disk| && |slot| == |disk| && b < |disk|
  {
    && slot[b] <= NBUF
    && (slot[b] < NBUF ==> buf[slot[b]].dev == ROOTDEV && buf[slot[b]].blockno == b)
    && (slot[b] == NBUF ==> refs[b] == 0 && flat[b] == disk[b] && b !in loose)
  }

  lemma BufAt(buf: seq<Buf>, disk: Disk, flat: Disk, refs: seq<nat>, slot: seq<nat>, loose: map<nat, Block>, i: nat)
    requires Coherent(buf, disk, flat, refs, slot, loose) && i < NBUF
    ensures |buf| == NBUF + 1 && |flat| == |refs| == |slot| == |disk|
    ensures BufOk(buf[i], i, disk, flat, refs, slot, loose)
  {
  }

  lemma BlockAt(buf: seq<Buf>, disk: Disk, flat: Disk, refs: seq<nat>, slot: seq<nat>, loose: map<nat, Block>, b: nat)
    requires Coherent(buf, disk, flat, refs, slot, loose) && b < |disk|
    ensures |buf| == NBUF + 1 && |flat| == |refs| == |slot| == |disk|
    ensures BlockOk(buf, disk, flat, refs, slot, loose, b)
  {
  }

  predicate SameContents(e: Buf, e': Buf) {
    && e'.valid == e.valid && e'.dev == e.dev && e'.blockno == e.blockno
    && e'.refcnt == e.refcnt && e'.data == e.data
  }

  predicate SameButLinks(buf: seq<Buf>, buf': seq<Buf>) {
    |buf'| == |buf| && forall i :: 0 <= i < |buf| ==> SameContents(buf[i], buf'[i])
  }

  lemma UnlinkOnlyLinks(buf: seq<Buf>, b: nat)
    requires LinksInRange(buf) && b < NBUF
    ensures SameButLinks(buf, Unlink(buf, b))
  {
    var one := SetPrev(buf, buf[b].next, buf[b].prev);
    assert SameButLinks(buf, one);
    assert SameButLinks(one, SetNext(one, one[b].prev, one[b].next));
  }

  lemma PushFrontOnlyLinks(buf: seq<Buf>, b: nat)
    requires LinksInRange(buf) && b < NBUF
    ensures SameButLinks(buf, PushFront(buf, b))
  {
    var one := SetPrev(SetNext(buf, b, buf[HEAD].next), b, HEAD);
    var two := SetPrev(one, one[HEAD].next, b);
    assert SameButLinks(buf, one);
    assert SameButLinks(one, two);
    assert SameButLinks(two, SetNext(two, HEAD, b));
  }

  /** Neither predicate looks at the list pointers. */
  lemma CoherentIgnoresLinks(buf: seq<Buf>, buf': seq<Buf>, disk: Disk, flat: Disk, refs: seq<nat>, slot: seq<nat>,
                             loose: map<nat, Block>)
    requires Coherent(buf, disk, flat, refs, slot, loose)
    requires SameButLinks(buf, buf')
    ensures Coherent(buf', disk, flat, refs, slot, loose)
  {
    forall i | 0 <= i < NBUF
      ensures BufOk(buf'[i], i, disk, flat, refs, slot, loose)
    {
      assert BufOk(buf[i], i, disk, flat, refs, slot, loose);
    }
    forall b | 0 <= b < |disk|
      ensures BlockOk(buf', disk, flat, refs, slot, loose, b)
    {
      assert BlockOk(buf, disk, flat, refs, slot, loose, b);
    }
  }

  function Referenced(refs: seq<nat>): set<nat> {
    set b | 0 <= b < |refs| && refs[b] > 0
  }

  /** The blocks held by the referenced ones among the first n buffers. */
  function BusyBlocks(buf: seq<Buf>, n: nat): set<nat>
    requires n <= |buf|
  {
    set i | 0 <= i < n && buf[i].refcnt > 0 :: buf[i].blockno
  }

  lemma {:induction false} AllBusySize(buf: seq<Buf>, disk: Disk, flat: Disk, refs: seq<nat>, slot: seq<nat>,
                                       loose: map<nat, Block>, n: nat)
    requires Coherent(buf, disk, flat, refs, slot, loose) && n <= NBUF
    requires forall i :: 0 <= i < NBUF ==> buf[i].refcnt > 0
    ensures |BusyBlocks(buf, n)| == n
  {
    if n == 0 {
      assert BusyBlocks(buf, 0) == {};
    } else {
      hide Coherent;
      AllBusySize(buf, disk, flat, refs, slot, loose, n - 1);
      BufAt(buf, disk, flat, refs, slot, loose, n - 1);
      assert BusyBlocks(buf, n) == BusyBlocks(buf, n - 1) + {buf[n - 1].blockno};
      forall i | 0 <= i < n - 1
        ensures buf[i].blockno != buf[n - 1].blockno
      {
        BufAt(buf, disk, flat, refs, slot, loose, i);
      }
    }
  }

  lemma {:induction false} IdleSize(buf: seq<Buf>, idle: nat, n: nat)
    requires n <= |buf| && idle < |buf| && buf[idle].refcnt == 0
    ensures |BusyBlocks(buf, n)| <= n - if idle < n then 1 else 0
  {
    if n == 0 {
      assert BusyBlocks(buf, 0) == {};
    } else {
      IdleSize(buf, idle, n - 1);
      if buf[n - 1].refcnt > 0 {
        assert BusyBlocks(buf, n) == BusyBlocks(buf, n - 1) + {buf[n - 1].blockno};
      } else {
        assert BusyBlocks(buf, n) == BusyBlocks(buf, n - 1);
      }
    }
  }

  /** The referenced blocks are those of the referenced buffers. */
  lemma ReferencedAreBusy(buf: seq<Buf>, disk: Disk, flat: Disk, refs: seq<nat>, slot: seq<nat>, loose: map<nat, Block>)
    requires Coherent(buf, disk, flat, refs, slot, loose)
    ensures Referenced(refs) == BusyBlocks(buf, NBUF)
  {
    forall b | b in Referenced(refs)
      ensures b in BusyBlocks(buf, NBUF)
    {
      BlockAt(buf, disk, flat, refs, slot, loose, b);
      BufAt(buf, disk, flat, refs, slot, loose, slot[b]);
    }
    forall b | b in BusyBlocks(buf, NBUF)
      ensures b in Referenced(refs)
    {
      var i :| 0 <= i < NBUF && buf[i].refcnt > 0 && buf[i].blockno == b;
      BufAt(buf, disk, flat, refs, slot, loose, i);
    }
  }

  /** No buffer can be recycled exactly when NBUF different blocks are referenced. */
  lemma AllReferencedIff(buf: seq<Buf>, disk: Disk, flat: Disk, refs: seq<nat>, slot: seq<nat>, loose: map<nat, Block>)
    requires Coherent(buf, disk, flat, refs, slot, loose)
    ensures (forall i :: 0 <= i < NBUF ==> buf[i].refcnt > 0) <==> |Referenced(refs)| >= NBUF
  {
    ReferencedAreBusy(buf, disk, flat, refs, slot, loose);
    if idle :| 0 <= idle < NBUF && buf[idle].refcnt == 0 {
      IdleSize(buf, idle, NBUF);
    } else {
      AllBusySize(buf, disk, flat, refs, slot, loose, NBUF);
    }
  }

  // ---------------------------------------------------------------- the cache

  /** binit's loop: every buffer goes to the front of the list. */
  method LinkAll() returns (b: seq<Buf>, ghost ord: seq<nat>)
    ensures |ord| == NBUF && Ring(b, [HEAD] + ord + [HEAD])
    ensures forall j :: 0 <= j < NBUF ==> j in ord
    ensures forall j :: 0 <= j < |ord| ==> ord[j] < NBUF
    ensures forall j :: 0 <= j < NBUF ==> !b[j].valid && b[j].dev == 0 && b[j].refcnt == 0
  {
    var head := Buf(false, 0, 0, 0, HEAD, HEAD, Zero());
    b := seq(NBUF, i => Buf(false, 0, 0, 0, 0, 0, Zero())) + [head];
    ord := [];
    for i := 0 to NBUF
      invariant |ord| == i
      invariant Ring(b, [HEAD] + ord + [HEAD])
      invariant forall j :: 0 <= j < i ==> j in ord
      invariant forall j :: 0 <= j < |ord| ==> ord[j] < i
      invariant forall j :: 0 <= j < NBUF ==> !b[j].valid && b[j].dev == 0 && b[j].refcnt == 0
    {
      ghost var ring := [HEAD] + ord + [HEAD];
      PushFrontRing(b, ring, i);
      assert b[ring[0]].next == ring[1];
      assert [HEAD, i] + ring[1..] == [HEAD] + ([i] + ord) + [HEAD];
      b := PushFront(b, i);
      ord := [i] + ord;
    }
  }

  /** order is the list without its head: a permutation of the buffers, latest release first. */
  ghost predicate Lru(buf: seq<Buf>, order: seq<nat>, stamp: seq<nat>, clock: nat) {
    && Ring(buf, [HEAD] + order + [HEAD])
    && |order| == NBUF && (forall k :: 0 <= k < NBUF ==> order[k] < NBUF)
    && (forall i :: 0 <= i < NBUF ==> i in order)
    && |stamp| == NBUF
    && (forall i :: 0 <= i < NBUF ==> stamp[i] < clock)
    && (forall j, k :: 0 <= j < k < NBUF ==> stamp[order[k]] <= stamp[order[j]])
  }

  /** The loose contents left when buffer e is recycled. */
  function Recycled(loose: map<nat, Block>, e: Buf): map<nat, Block> {
    if e.dev == 0 then loose else loose - {e.blockno}
  }

  /** One link forwards, one backwards. */
  lemma NextAt(buf: seq<Buf>, order: seq<nat>, stamp: seq<nat>, clock: nat, k: nat)
    requires Lru(buf, order, stamp, clock) && k <= NBUF
    ensures |buf| == NBUF + 1 && |order| == NBUF && (k < NBUF ==> order[k] < NBUF)
    ensures var from := if k == 0 then HEAD else order[k - 1];
            from <= NBUF && buf[from].next == if k == NBUF then HEAD else order[k]
    ensures var to := if k == NBUF then HEAD else order[k];
            to <= NBUF && buf[to].prev == if k == 0 then HEAD else order[k - 1]
  {
    var ring := [HEAD] + order + [HEAD];
    assert ring[k] == (if k == 0 then HEAD else order[k - 1]) && ring[k + 1] == if k == NBUF then HEAD else order[k];
  }

  lemma AllListed(buf: seq<Buf>, order: seq<nat>, stamp: seq<nat>, clock: nat, i: nat) returns (k: nat)
    requires Lru(buf, order, stamp, clock) && i < NBUF
    ensures k < NBUF && |order| == NBUF && order[k] == i
  {
    hide Ring;
    assert i in order;
    k :| 0 <= k < |order| && order[k] == i;
  }

  /** From place k to the end of the list nothing was released later than order[k]. */
  lemma OldestIdle(buf: seq<Buf>, order: seq<nat>, stamp: seq<nat>, clock: nat, k: nat)
    requires Lru(buf, order, stamp, clock) && k < NBUF && |buf| == NBUF + 1 && |order| == |stamp| == NBUF
    requires order[k] < NBUF && forall j :: k < j < NBUF ==> order[j] < NBUF && buf[order[j]].refcnt > 0
    ensures forall i :: 0 <= i < NBUF && buf[i].refcnt == 0 ==> stamp[order[k]] <= stamp[i]
  {
    forall i | 0 <= i < NBUF && buf[i].refcnt == 0
      ensures stamp[order[k]] <= stamp[i]
    {
      var j := AllListed(buf, order, stamp, clock, i);
    }
  }

  class Cache {
    var buf: seq<Buf>
    var disk: Disk

    ghost var order: seq<nat>    // the buffers from head.next to head.prev
    ghost var stamp: seq<nat>    // when each buffer was last released by its last user, 0 for never
    ghost var clock: nat
    ghost var flat: Disk         // each block as its last writer to log it left it
    ghost var loose: map<nat, Block> // cached contents that were changed and then released unlogged
    ghost var refs: seq<nat>     // reference count of each block
    ghost var slot: seq<nat>
    ghost var writes: seq<Write> // every block write issued to the disk

    ghost predicate Valid()
      reads this
    {
      && |buf| == NBUF + 1
      && |flat| == |disk| && |refs| == |disk| && |slot| == |disk|
      && Lru(buf, order, stamp, clock)
      && Coherent(buf, disk, flat, refs, slot, loose)
    }

    /** What a reader of block b gets now. */
    ghost function Contents(b: nat): Block
      requires b < |flat|
      reads this
    {
      Seen(flat, loose, b)
    }

    constructor (disk: Disk)
      ensures Valid()
      ensures this.disk == disk && flat == disk && writes == [] && loose == map[]
      ensures refs == seq(|disk|, i => 0)
    {
      var b;
      ghost var ord;
      b, ord := LinkAll();
      this.buf := b;
      this.disk := disk;
      order, stamp, clock := ord, seq(NBUF, i => 0), 1;
      flat, refs, slot := disk, seq(|disk|, i => 0), seq(|disk|, i => HEAD);
      loose, writes := map[], [];
    }

    /** No buffer can be recycled. */
    ghost predicate AllBusy()
      reads this
    {
      forall i :: 0 <= i < NBUF && i < |buf| ==> buf[i].refcnt > 0
    }

    /** Every buffer is referenced and none of them holds blockno: the panic of bget. */
    ghost predicate Full(blockno: nat)
      reads this
    {
      (blockno < |refs| ==> refs[blockno] == 0) && |Referenced(refs)| >= NBUF
    }

    /** Locate blockno or recycle the least recently released buffer; HEAD stands for the panic. */
    method Bget(dev: nat, blockno: nat) returns (b: nat)
      requires Valid() && dev == ROOTDEV && blockno < |disk|
      modifies this`buf, this`refs, this`slot, this`loose
      ensures Valid()
      ensures b == HEAD <==> old(slot[blockno] == HEAD && AllBusy())
      ensures b == HEAD <==> old(Full(blockno))
      ensures b == HEAD ==> unchanged(this)
      ensures b != HEAD ==> b < NBUF && slot[blockno] == b && refs == old(refs)[blockno := old(refs)[blockno] + 1]
      ensures b != HEAD ==> buf == old(buf)[b := buf[b]] && buf[b].dev == dev && buf[b].blockno == blockno
      ensures b != HEAD && old(buf)[b].refcnt > 0 ==> old(buf)[b].blockno == blockno
      ensures b != HEAD && old(slot)[blockno] != HEAD ==> loose == old(loose)
      ensures b != HEAD && old(slot)[blockno] == HEAD ==>
                && !buf[b].valid && old(buf)[b].refcnt == 0 && loose == Recycled(old(loose), old(buf)[b])
                && forall i :: 0 <= i < NBUF && old(buf)[i].refcnt == 0 ==> stamp[b] <= stamp[i]
    {
      hide Lru, Coherent, BufOk, BlockOk, Referenced, Recycled;
      Stamps(buf, order, stamp, clock);
      NextAt(buf, order, stamp, clock, 0);
      b := buf[HEAD].next;
      ghost var k := 0;
      while b != HEAD
        invariant 0 <= k <= NBUF && |order| == NBUF && b == if k < NBUF then order[k] else HEAD
        invariant unchanged(this)
        invariant forall j :: 0 <= j < k ==> order[j] < NBUF && !Caches(buf[order[j]], dev, blockno)
        decreases NBUF - k
      {
        NextAt(buf, order, stamp, clock, k);
        if buf[b].dev == dev && buf[b].blockno == blockno {
          Hit(b, dev, blockno);
          return;
        }
        NextAt(buf, order, stamp, clock, k + 1);
        b := buf[b].next;
        k := k + 1;
      }
      forall i | 0 <= i < NBUF
        ensures !Caches(buf[i], dev, blockno)
      {
        var j := AllListed(buf, order, stamp, clock, i);
      }
      NotCached(buf, disk, flat, refs, slot, loose, blockno);
      AllReferencedIff(buf, disk, flat, refs, slot, loose);
      b := Recycle(dev, blockno);
    }

    /** bget's first loop has found the block's buffer. */
    method Hit(b: nat, dev: nat, blockno: nat)
      requires Valid() && dev == ROOTDEV && blockno < |disk| && b < NBUF && Caches(buf[b], dev, blockno)
      modifies this`buf, this`refs
      ensures Valid() && slot[blockno] == b && !old(Full(blockno))
      ensures refs == old(refs)[blockno := old(refs)[blockno] + 1]
      ensures buf == old(buf)[b := old(buf)[b].(refcnt := old(buf)[b].refcnt + 1)]
    {
      hide Lru, Coherent;
      BufAt(buf, disk, flat, refs, slot, loose, b);
      AllReferencedIff(buf, disk, flat, refs, slot, loose);
      LruStill(buf, b, buf[b].(refcnt := buf[b].refcnt + 1), order, stamp, clock);
      RefCoherent(buf, disk, flat, refs, slot, loose, b, buf[b].refcnt + 1);
      buf := buf[b := buf[b].(refcnt := buf[b].refcnt + 1)];
      refs := refs[blockno := refs[blockno] + 1];
    }

    /** The recycled buffer takes on its new block. */
    method Claim(b: nat, dev: nat, blockno: nat)
      requires Valid() && dev == ROOTDEV && blockno < |disk| && slot[blockno] == HEAD
      requires b < NBUF && buf[b].refcnt == 0
      modifies this`buf, this`slot, this`refs, this`loose
      ensures Valid()
      ensures slot[blockno] == b && refs == old(refs)[blockno := old(refs)[blockno] + 1]
      ensures buf == old(buf)[b := old(buf)[b].(dev := dev, blockno := blockno, valid := false, refcnt := 1)]
      ensures loose == Recycled(old(loose), old(buf)[b])
    {
      hide Lru, Coherent, Recycled;
      var e := buf[b].(dev := dev, blockno := blockno, valid := false, refcnt := 1);
      BufAt(buf, disk, flat, refs, slot, loose, b);
      BlockAt(buf, disk, flat, refs, slot, loose, blockno);
      LruStill(buf, b, e, order, stamp, clock);
      RecycledCoherent(buf, disk, flat, refs, slot, loose, b, blockno);
      loose := Recycled(loose, buf[b]);
      slot := (if buf[b].dev == 0 then slot else slot[buf[b].blockno := HEAD])[blockno := b];
      refs := refs[blockno := 1];
      buf := buf[b := e];
    }

    method Recycle(dev: nat, blockno: nat) returns (b: nat)
      requires Valid() && dev == ROOTDEV && blockno < |disk| && slot[blockno] == HEAD
      modifies this`buf, this`refs, this`slot, this`loose
      ensures Valid()
      ensures b == HEAD <==> old(AllBusy())
      ensures b == HEAD ==> unchanged(this)
      ensures b != HEAD ==> b < NBUF && slot[blockno] == b && refs == old(refs)[blockno := old(refs)[blockno] + 1]
      ensures b != HEAD ==> buf == old(buf)[b := buf[b]] && buf[b].dev == dev && buf[b].blockno == blockno
      ensures b != HEAD ==> !buf[b].valid && old(buf)[b].refcnt == 0 && loose == Recycled(old(loose), old(buf)[b])
      ensures b != HEAD ==> forall i :: 0 <= i < NBUF && old(buf)[i].refcnt == 0 ==> stamp[b] <= stamp[i]
    {
      hide Lru, Coherent, Recycled;
      Stamps(buf, order, stamp, clock);
      NextAt(buf, order, stamp, clock, NBUF);
      b := buf[HEAD].prev;
      ghost var k := NBUF;
      while b != HEAD
        invariant 0 <= k <= NBUF && |order| == NBUF && b == if k > 0 then order[k - 1] else HEAD
        invariant unchanged(this)
        invariant forall j :: k <= j < NBUF ==> order[j] < NBUF && buf[order[j]].refcnt > 0
        decreases k
      {
        NextAt(buf, order, stamp, clock, k - 1);
        if buf[b].refcnt == 0 {
          OldestIdle(buf, order, stamp, clock, k - 1);
          Claim(b, dev, blockno);
          return;
        }
        b := buf[b].prev;
        k := k - 1;
      }
      forall i | 0 <= i < NBUF
        ensures buf[i].refcnt > 0
      {
        var j := AllListed(buf, order, stamp, clock, i);
      }
    }

    /** A referenced, valid buffer; its contents are what every reader of the block sees. Only a panic
      * when every buffer is referenced and none holds the block; only loose contents may go. */
    method Bread(dev: nat, blockno: nat) returns (b: nat)
      requires Valid() && dev == ROOTDEV && blockno < |disk|
      modifies this`buf, this`refs, this`slot, this`loose
      ensures Valid()
      ensures b == HEAD <==> old(Full(blockno))
      ensures b == HEAD ==> unchanged(this)
      ensures b != HEAD ==>
                Held(b) && buf[b].blockno == blockno && buf[b].data == old(Contents(blockno)) == Contents(blockno)
      ensures b != HEAD ==> refs == old(refs)[blockno := old(refs)[blockno] + 1]
      ensures b != HEAD ==> forall i :: 0 <= i < NBUF && i != b ==> buf[i] == old(buf)[i]
      ensures b != HEAD && old(buf)[b].refcnt > 0 ==> old(buf)[b].blockno == blockno
      ensures b != HEAD ==>
                loose == if old(slot)[blockno] == HEAD then Recycled(old(loose), old(buf)[b]) else old(loose)
      ensures Fewer(loose, old(loose))
    {
      hide Lru, Coherent, Referenced;
      BlockAt(buf, disk, flat, refs, slot, loose, blockno);
      if slot[blockno] < NBUF {
        BufAt(buf, disk, flat, refs, slot, loose, slot[blockno]);
      }
      b := Bget(dev, blockno);
      if b == HEAD {
        return;
      }
      BufAt(buf, disk, flat, refs, slot, loose, b);
      if !buf[b].valid {
        Fill(b);
      }
    }

    /** bread's disk read. */
    method Fill(b: nat)
      requires Valid() && b < NBUF && buf[b].dev == ROOTDEV && buf[b].blockno < |disk| && !buf[b].valid
      requires buf[b].refcnt > 0
      modifies this`buf
      ensures Held(b) && buf == old(buf)[b := old(buf)[b].(valid := true, data := disk[old(buf)[b].blockno])]
      ensures disk[buf[b].blockno] == flat[buf[b].blockno] && buf[b].blockno !in loose
    {
      hide Lru, Coherent;
      var x := buf[b].blockno;
      BufAt(buf, disk, flat, refs, slot, loose, b);
      LruStill(buf, b, buf[b].(valid := true, data := disk[x]), order, stamp, clock);
      DataCoherent(buf, disk, flat, refs, slot, loose, b, disk[x]);
      assert flat[x := disk[x]] == flat && loose - {x} == loose;
      buf := buf[b := buf[b].(valid := true, data := disk[x])];
    }

    /** Buffer b is assigned to a block, valid, and has at least one reference. */
    ghost predicate Held(b: nat)
      reads this
    {
      && Valid() && |buf| == NBUF + 1 && b < NBUF
      && buf[b].dev == ROOTDEV && buf[b].blockno < |disk| && buf[b].valid && buf[b].refcnt > 0
    }

    lemma HeldFacts(b: nat)
      requires Held(b)
      ensures refs[buf[b].blockno] == buf[b].refcnt && buf[b].data == Contents(buf[b].blockno)
    {
      BufAt(buf, disk, flat, refs, slot, loose, b);
    }

    /** The holder of a buffer changes its data in place. */
    method Store(b: nat, data: Block)
      requires Held(b)
      modifies this`buf, this`flat, this`loose
      ensures Held(b) && buf[b].blockno == old(buf)[b].blockno && buf[b].data == data
      ensures flat == old(flat)[buf[b].blockno := data] && loose == old(loose) - {buf[b].blockno}
      ensures forall i :: 0 <= i < NBUF && i != b ==> buf[i] == old(buf)[i]
    {
      hide Lru, Coherent;
      LruStill(buf, b, buf[b].(valid := true, data := data), order, stamp, clock);
      DataCoherent(buf, disk, flat, refs, slot, loose, b, data);
      buf := buf[b := buf[b].(valid := true, data := data)];
      flat := flat[buf[b].blockno := data];
      loose := loose - {buf[b].blockno};
    }

    /** The disk takes the buffer's contents; no reader can tell. */
    method Bwrite(b: nat)
      requires Held(b)
      modifies this`disk, this`writes, this`flat, this`loose
      ensures Held(b)
      ensures disk == old(disk)[buf[b].blockno := buf[b].data]
      ensures flat == old(flat)[buf[b].blockno := buf[b].data] && loose == old(loose) - {buf[b].blockno}
      ensures buf[b].blockno !in old(loose) ==> flat == old(flat) && loose == old(loose)
      ensures writes == old(writes) + [Write(buf[b].blockno, buf[b].data)]
    {
      hide Lru, Coherent;
      HeldFacts(b);
      WrittenCoherent(buf, disk, flat, refs, slot, loose, b);
      assert buf[b].blockno !in loose ==>
               flat[buf[b].blockno := buf[b].data] == flat && loose - {buf[b].blockno} == loose;
      disk := disk[buf[b].blockno := buf[b].data];
      flat := flat[buf[b].blockno := buf[b].data];
      loose := loose - {buf[b].blockno};
      writes := writes + [Write(buf[b].blockno, buf[b].data)];
    }

    /** Nobody will log what the holder has put into this buffer; no code stands for this step. */
    ghost method Loosen(b: nat)
      requires Held(b)
      modifies this`flat, this`loose
      ensures Held(b) && flat == old(flat)[buf[b].blockno := disk[buf[b].blockno]]
      ensures loose == old(loose)[buf[b].blockno := buf[b].data]
      ensures forall x :: 0 <= x < |flat| ==> Contents(x) == old(Contents(x))
    {
      hide Lru, Coherent;
      LooseCoherent(buf, disk, flat, refs, slot, loose, b);
      flat := flat[buf[b].blockno := disk[buf[b].blockno]];
      loose := loose[buf[b].blockno := buf[b].data];
    }

    /** A holder takes loose contents up again, to log them; no code stands for this step. */
    ghost method Adopt(b: nat)
      requires Held(b)
      modifies this`flat, this`loose
      ensures Held(b) && flat == old(flat)[buf[b].blockno := buf[b].data] && loose == old(loose) - {buf[b].blockno}
      ensures buf[b].data == old(Contents(buf[b].blockno))
    {
      hide Lru, Coherent;
      HeldFacts(b);
      DataCoherent(buf, disk, flat, refs, slot, loose, b, buf[b].data);
      assert buf[b := buf[b].(valid := true, data := buf[b].data)] == buf;
      flat := flat[buf[b].blockno := buf[b].data];
      loose := loose - {buf[b].blockno};
    }

    /** Will dropping this reference leave changed contents behind that nobody has logged? */
    ghost predicate LastDirty(b: nat)
      reads this
    {
      Held(b) && refs[buf[b].blockno] == 1 && flat[buf[b].blockno] != disk[buf[b].blockno]
    }

    /** One reference less; contents that would be left behind unlogged become loose. */
    method Drop(b: nat)
      requires Held(b)
      modifies this`buf, this`refs, this`flat, this`loose
      ensures Valid() && refs == old(refs)[old(buf)[b].blockno := old(refs)[old(buf)[b].blockno] - 1]
      ensures buf == old(buf)[b := old(buf)[b].(refcnt := old(buf)[b].refcnt - 1)]
      ensures old(LastDirty(b)) ==> flat == old(flat)[buf[b].blockno := disk[buf[b].blockno]]
      ensures old(LastDirty(b)) ==> loose == old(loose)[buf[b].blockno := buf[b].data]
      ensures !old(LastDirty(b)) ==> flat == old(flat) && loose == old(loose)
      ensures forall x :: 0 <= x < |flat| ==> Contents(x) == old(Contents(x))
    {
      hide Lru, Coherent;
      HeldFacts(b);
      if refs[buf[b].blockno] == 1 && flat[buf[b].blockno] != disk[buf[b].blockno] {
        Loosen(b);
      }
      LruStill(buf, b, buf[b].(refcnt := buf[b].refcnt - 1), order, stamp, clock);
      RefCoherent(buf, disk, flat, refs, slot, loose, b, buf[b].refcnt - 1);
      buf := buf[b := buf[b].(refcnt := buf[b].refcnt - 1)];
      refs := refs[buf[b].blockno := buf[b].refcnt];
    }

    /** Drop one reference; on the last one the buffer moves to the head of the list, and contents
      * that were changed and not logged become loose: seen until the buffer is recycled, then lost. */
    method Brelse(b: nat)
      requires Held(b)
      modifies this`buf, this`refs, this`flat, this`loose, this`order, this`stamp, this`clock
      ensures Valid()
      ensures old(LastDirty(b)) ==> flat == old(flat)[old(buf)[b].blockno := disk[old(buf)[b].blockno]]
      ensures old(LastDirty(b)) ==> loose == old(loose)[old(buf)[b].blockno := old(buf)[b].data]
      ensures !old(LastDirty(b)) ==> flat == old(flat) && loose == old(loose)
      ensures forall x :: 0 <= x < |flat| ==> Contents(x) == old(Contents(x))
      ensures refs == old(refs)[old(buf)[b].blockno := old(refs)[old(buf)[b].blockno] - 1]
      ensures forall i :: 0 <= i < NBUF && i != b ==> SameContents(old(buf)[i], buf[i])
      ensures old(buf)[b].refcnt > 1 ==> order == old(order) && stamp == old(stamp)
      ensures old(buf)[b].refcnt == 1 ==>
                && order == [b] + Remove(old(order), b)
                && stamp[b] == old(clock) && forall i :: 0 <= i < NBUF && i != b ==> stamp[i] == old(stamp)[i]
    {
      hide Lru, Coherent;
      Stamps(buf, order, stamp, clock);
      var k := AllListed(buf, order, stamp, clock, b);
      Drop(b);
      if buf[b].refcnt == 0 {
        Requeue(b);
      }
    }

    method Requeue(b: nat)
      requires Valid() && b < NBUF
      modifies this`buf, this`order, this`stamp, this`clock
      ensures Valid() && SameButLinks(old(buf), buf)
      ensures b in old(order) && order == [b] + Remove(old(order), b)
      ensures stamp == old(stamp)[b := old(clock)]
    {
      hide Ring, Coherent, Remove, IndexOf, Unlink, PushFront;
      assert b in order;
      RequeueRing(buf, order, b);
      OrderDistinct(buf, order);
      RequeueMembers(order, b);
      RequeueStamps(order, stamp, clock, b);
      Relink(b);
      UnlinkOnlyLinks(old(buf), b);
      PushFrontOnlyLinks(Unlink(old(buf), b), b);
      CoherentIgnoresLinks(old(buf), buf, disk, flat, refs, slot, loose);
      order := [b] + Remove(order, b);
      stamp := stamp[b := clock];
      clock := clock + 1;
    }

    /** The pointer stores of brelse. */
    method Relink(b: nat)
      requires LinksInRange(buf) && b < NBUF
      modifies this`buf
      ensures LinksInRange(buf) && buf == PushFront(Unlink(old(buf), b), b)
    {
      buf := SetPrev(buf, buf[b].next, buf[b].prev);
      buf := SetNext(buf, buf[b].prev, buf[b].next);
      buf := SetNext(buf, b, buf[HEAD].next);
      buf := SetPrev(buf, b, HEAD);
      buf := SetPrev(buf, buf[HEAD].next, b);
      buf := SetNext(buf, HEAD, b);
    }

    method Bpin(b: nat)
      requires Held(b)
      modifies this`buf, this`refs
      ensures Held(b) && buf[b].blockno == old(buf)[b].blockno && buf[b].data == old(buf)[b].data
      ensures refs == old(refs)[buf[b].blockno := old(refs)[buf[b].blockno] + 1]
      ensures forall i :: 0 <= i < NBUF && i != b ==> buf[i] == old(buf)[i]
    {
      hide Lru, Coherent;
      HeldFacts(b);
      LruStill(buf, b, buf[b].(refcnt := buf[b].refcnt + 1), order, stamp, clock);
      RefCoherent(buf, disk, flat, refs, slot, loose, b, buf[b].refcnt + 1);
      buf := buf[b := buf[b].(refcnt := buf[b].refcnt + 1)];
      refs := refs[buf[b].blockno := buf[b].refcnt];
    }

    method Bunpin(b: nat)
      requires Held(b)
      modifies this`buf, this`refs, this`flat, this`loose
      ensures Valid() && refs == old(refs)[old(buf)[b].blockno := old(refs)[old(buf)[b].blockno] - 1]
      ensures buf == old(buf)[b := old(buf)[b].(refcnt := old(buf)[b].refcnt - 1)]
      ensures old(refs)[old(buf)[b].blockno] > 1 ==> Held(b)
      ensures old(LastDirty(b)) ==> flat == old(flat)[buf[b].blockno := disk[buf[b].blockno]]
      ensures old(LastDirty(b)) ==> loose == old(loose)[buf[b].blockno := buf[b].data]
      ensures !old(LastDirty(b)) ==> flat == old(flat) && loose == old(loose)
    {
      hide Lru, Coherent;
      HeldFacts(b);
      Drop(b);
    }
  }

  /** Buffer e caches this block. */
  predicate Caches(e: Buf, dev: nat, blockno: nat) {
    e.dev == dev && e.blockno == blockno
  }

  /** Loose contents may be lost, and never appear or change. */
  predicate Fewer(loose: map<nat, Block>, was: map<nat, Block>) {
    forall x :: x in loose ==> x in was && loose[x] == was[x]
  }

  lemma Stamps(buf: seq<Buf>, order: seq<nat>, stamp: seq<nat>, clock: nat)
    requires Lru(buf, order, stamp, clock)
    ensures |order| == |stamp| == NBUF && forall k :: 0 <= k < NBUF ==> order[k] < NBUF
  {
  }

  lemma NotCached(buf: seq<Buf>, disk: Disk, flat: Disk, refs: seq<nat>, slot: seq<nat>, loose: map<nat, Block>,
                  blockno: nat)
    requires Coherent(buf, disk, flat, refs, slot, loose) && blockno < |disk|
    requires forall i :: 0 <= i < NBUF ==> !Caches(buf[i], ROOTDEV, blockno)
    ensures slot[blockno] == HEAD && refs[blockno] == 0
  {
    BlockAt(buf, disk, flat, refs, slot, loose, blockno);
  }

  /** Unlinking a buffer and pushing it in front turns the list into the same list with it moved. */
  lemma RequeueRing(buf: seq<Buf>, order: seq<nat>, b: nat)
    requires Ring(buf, [HEAD] + order + [HEAD]) && b in order
    ensures b < NBUF
    ensures Ring(Unlink(buf, b), [HEAD] + Remove(order, b) + [HEAD])
    ensures Ring(PushFront(Unlink(buf, b), b), [HEAD] + ([b] + Remove(order, b)) + [HEAD])
  {
    hide Ring, Unlink, PushFront;
    var ring := [HEAD] + order + [HEAD];
    var k := IndexOf(order, b);
    var rest := [HEAD] + Remove(order, b) + [HEAD];
    assert ring[k + 1] == b;
    RingNames(buf, ring);
    UnlinkRing(buf, ring, k + 1);
    assert ring[..k + 1] + ring[k + 2..] == rest;
    assert b !in rest by {
      forall j | 0 <= j < |rest|
        ensures rest[j] != b
      {
        assert rest[j] == ring[if j <= k then j else j + 1];
      }
    }
    PushFrontRing(Unlink(buf, b), rest, b);
    assert [HEAD, b] + rest[1..] == [HEAD] + ([b] + Remove(order, b)) + [HEAD];
  }

  lemma RingNames(buf: seq<Buf>, ring: seq<nat>)
    requires Ring(buf, ring)
    ensures LinksInRange(buf)
    ensures forall k :: 1 <= k < |ring| - 1 ==> ring[k] < NBUF
    ensures forall j, k :: 1 <= j < k < |ring| - 1 ==> ring[j] != ring[k]
  {
  }

  lemma OrderDistinct(buf: seq<Buf>, order: seq<nat>)
    requires Ring(buf, [HEAD] + order + [HEAD])
    ensures Distinct(order)
    ensures LinksInRange(buf)
  {
    var ring := [HEAD] + order + [HEAD];
    assert forall j :: 0 <= j < |order| ==> order[j] == ring[j + 1];
  }

  /** Where each element of the moved list comes from. */
  lemma RequeueIndex(order: seq<nat>, b: nat, j: nat)
    requires b in order && Distinct(order) && j < |order|
    ensures var r := [b] + Remove(order, b);
            && |r| == |order|
            && r[j] == (if j == 0 then b else order[if j <= IndexOf(order, b) then j - 1 else j])
            && (j > 0 ==> r[j] != b)
  {
  }

  /** The moved list is again a permutation of the buffers. */
  lemma RequeueMembers(order: seq<nat>, b: nat)
    requires b in order && Distinct(order)
    ensures var r := [b] + Remove(order, b);
            |r| == |order| && (forall x :: x in order ==> x in r) && (forall x :: x in r ==> x in order)
  {
    hide Remove;
    var r := [b] + Remove(order, b);
    var k := IndexOf(order, b);
    forall x | x in order
      ensures x in r
    {
      var j := IndexOf(order, x);
      RequeueIndex(order, b, if j < k then j + 1 else if j == k then 0 else j);
    }
    forall x | x in r
      ensures x in order
    {
      var j :| 0 <= j < |r| && r[j] == x;
      RequeueIndex(order, b, 0);
      RequeueIndex(order, b, j);
    }
    RequeueIndex(order, b, 0);
  }

  /** … and again sorted by time of last release. */
  lemma RequeueStamps(order: seq<nat>, stamp: seq<nat>, clock: nat, b: nat)
    requires |order| == NBUF && |stamp| == NBUF && b in order && Distinct(order)
    requires forall k :: 0 <= k < NBUF ==> order[k] < NBUF
    requires forall i :: 0 <= i < NBUF ==> stamp[i] < clock
    requires forall j, k :: 0 <= j < k < NBUF ==> stamp[order[k]] <= stamp[order[j]]
    ensures var order' := [b] + Remove(order, b);
            var stamp' := stamp[b := clock];
            && |order'| == NBUF
            && (forall k :: 0 <= k < NBUF ==> order'[k] < NBUF)
            && (forall j, k :: 0 <= j < k < NBUF ==> stamp'[order'[k]] <= stamp'[order'[j]])
  {
    hide Remove, IndexOf;
    RequeueIndex(order, b, 0);
    var order' := [b] + Remove(order, b);
    forall k | 0 <= k < NBUF
      ensures |order'| == NBUF && order'[k] < NBUF
    {
      RequeueIndex(order, b, k);
    }
    forall j, k | 0 <= j < k < NBUF
      ensures stamp[b := clock][order'[k]] <= stamp[b := clock][order'[j]]
    {
      RequeueIndex(order, b, j);
      RequeueIndex(order, b, k);
    }
  }

  ghost function Remove(s: seq<nat>, x: nat): seq<nat>
    requires x in s
  {
    s[..IndexOf(s, x)] + s[IndexOf(s, x) + 1..]
  }

  /** Changing a referenced buffer's data changes the flat contents of its block and no other. */
  lemma DataCoherent(buf: seq<Buf>, disk: Disk, flat: Disk, refs: seq<nat>, slot: seq<nat>, loose: map<nat, Block>,
                     b: nat, data: Block)
    requires Coherent(buf, disk, flat, refs, slot, loose)
    requires b < NBUF && buf[b].dev == ROOTDEV && buf[b].blockno < |disk| && buf[b].refcnt > 0
    ensures Coherent(buf[b := buf[b].(valid := true, data := data)], disk, flat[buf[b].blockno := data], refs, slot,
                     loose - {buf[b].blockno})
  {
    var buf' := buf[b := buf[b].(valid := true, data := data)];
    var x := buf[b].blockno;
    var flat', loose' := flat[x := data], loose - {x};
    BufAt(buf, disk, flat, refs, slot, loose, b);
    forall i | 0 <= i < NBUF
      ensures BufOk(buf'[i], i, disk, flat', refs, slot, loose')
    {
      BufAt(buf, disk, flat, refs, slot, loose, i);
    }
    forall y | 0 <= y < |disk|
      ensures BlockOk(buf', disk, flat', refs, slot, loose', y)
    {
      BlockAt(buf, disk, flat, refs, slot, loose, y);
    }
  }

  /** Contents nobody will log become loose over what is on disk; readers see no difference. */
  lemma LooseCoherent(buf: seq<Buf>, disk: Disk, flat: Disk, refs: seq<nat>, slot: seq<nat>, loose: map<nat, Block>,
                      b: nat)
    requires Coherent(buf, disk, flat, refs, slot, loose)
    requires b < NBUF && buf[b].dev == ROOTDEV && buf[b].blockno < |disk| && buf[b].valid
    ensures Coherent(buf, disk, flat[buf[b].blockno := disk[buf[b].blockno]], refs, slot,
                     loose[buf[b].blockno := buf[b].data])
    ensures Seen(flat, loose, buf[b].blockno) == buf[b].data
  {
    var x := buf[b].blockno;
    var flat', loose' := flat[x := disk[x]], loose[x := buf[b].data];
    BufAt(buf, disk, flat, refs, slot, loose, b);
    forall i | 0 <= i < NBUF
      ensures BufOk(buf[i], i, disk, flat', refs, slot, loose')
    {
      BufAt(buf, disk, flat, refs, slot, loose, i);
    }
    forall y | 0 <= y < |disk|
      ensures BlockOk(buf, disk, flat', refs, slot, loose', y)
    {
      BlockAt(buf, disk, flat, refs, slot, loose, y);
    }
  }

  lemma WrittenCoherent(buf: seq<Buf>, disk: Disk, flat: Disk, refs: seq<nat>, slot: seq<nat>, loose: map<nat, Block>,
                        b: nat)
    requires Coherent(buf, disk, flat, refs, slot, loose)
    requires b < NBUF && buf[b].dev == ROOTDEV && buf[b].blockno < |disk| && buf[b].valid
    ensures Coherent(buf, disk[buf[b].blockno := buf[b].data], flat[buf[b].blockno := buf[b].data], refs, slot,
                     loose - {buf[b].blockno})
  {
    var x := buf[b].blockno;
    var disk', flat', loose' := disk[x := buf[b].data], flat[x := buf[b].data], loose - {x};
    BufAt(buf, disk, flat, refs, slot, loose, b);
    forall i | 0 <= i < NBUF
      ensures BufOk(buf[i], i, disk', flat', refs, slot, loose')
    {
      BufAt(buf, disk, flat, refs, slot, loose, i);
    }
    forall y | 0 <= y < |disk|
      ensures BlockOk(buf, disk', flat', refs, slot, loose', y)
    {
      BlockAt(buf, disk, flat, refs, slot, loose, y);
    }
  }

  lemma Rering(buf: seq<Buf>, buf': seq<Buf>, ring: seq<nat>)
    requires Ring(buf, ring) && |buf'| == |buf|
    requires forall i :: 0 <= i <= NBUF ==> buf'[i].prev == buf[i].prev && buf'[i].next == buf[i].next
    ensures Ring(buf', ring)
  {
  }

  /** A buffer whose links stay leaves the list as it was. */
  lemma LruStill(buf: seq<Buf>, b: nat, e: Buf, order: seq<nat>, stamp: seq<nat>, clock: nat)
    requires Lru(buf, order, stamp, clock) && b < NBUF && |buf| == NBUF + 1
    requires e.prev == buf[b].prev && e.next == buf[b].next
    ensures Lru(buf[b := e], order, stamp, clock)
  {
    hide Ring;
    Rering(buf, buf[b := e], [HEAD] + order + [HEAD]);
  }

  /** Taking or dropping references keeps the cache coherent as long as the last one leaves it clean. */
  lemma RefCoherent(buf: seq<Buf>, disk: Disk, flat: Disk, refs: seq<nat>, slot: seq<nat>, loose: map<nat, Block>,
                    b: nat, c: nat)
    requires Coherent(buf, disk, flat, refs, slot, loose)
    requires b < NBUF && buf[b].dev == ROOTDEV && buf[b].blockno < |disk|
    requires c > 0 || flat[buf[b].blockno] == disk[buf[b].blockno]
    ensures Coherent(buf[b := buf[b].(refcnt := c)], disk, flat, refs[buf[b].blockno := c], slot, loose)
  {
    var buf' := buf[b := buf[b].(refcnt := c)];
    var refs' := refs[buf[b].blockno := c];
    BufAt(buf, disk, flat, refs, slot, loose, b);
    forall i | 0 <= i < NBUF
      ensures BufOk(buf'[i], i, disk, flat, refs', slot, loose)
    {
      BufAt(buf, disk, flat, refs, slot, loose, i);
    }
    forall y | 0 <= y < |disk|
      ensures BlockOk(buf', disk, flat, refs', slot, loose, y)
    {
      BlockAt(buf, disk, flat, refs, slot, loose, y);
    }
  }

  /** A recycled buffer takes its loose contents with it. */
  lemma RecycledCoherent(buf: seq<Buf>, disk: Disk, flat: Disk, refs: seq<nat>, slot: seq<nat>, loose: map<nat, Block>,
                         b: nat, blockno: nat)
    requires Coherent(buf, disk, flat, refs, slot, loose)
    requires b < NBUF && buf[b].refcnt == 0 && blockno < |disk| && slot[blockno] == HEAD
    ensures var e := buf[b];
            Coherent(buf[b := e.(dev := ROOTDEV, blockno := blockno, valid := false, refcnt := 1)], disk, flat,
                     refs[blockno := 1], (if e.dev == 0 then slot else slot[e.blockno := HEAD])[blockno := b],
                     Recycled(loose, e))
  {
    var e := buf[b];
    var buf' := buf[b := e.(dev := ROOTDEV, blockno := blockno, valid := false, refcnt := 1)];
    var refs' := refs[blockno := 1];
    var slot' := (if e.dev == 0 then slot else slot[e.blockno := HEAD])[blockno := b];
    var loose' := Recycled(loose, e);
    BufAt(buf, disk, flat, refs, slot, loose, b);
    BlockAt(buf, disk, flat, refs, slot, loose, blockno);
    forall i | 0 <= i < NBUF
      ensures BufOk(buf'[i], i, disk, flat, refs', slot', loose')
    {
      BufAt(buf, disk, flat, refs, slot, loose, i);
    }
    forall y | 0 <= y < |disk|
      ensures BlockOk(buf', disk, flat, refs', slot', loose', y)
    {
      BlockAt(buf, disk, flat, refs, slot, loose, y);
    }
  }
}
