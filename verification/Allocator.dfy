/** The Kernighan and Ritchie allocator of user/umalloc.c. Addresses count headers of 16 bytes; the
  * static header base lies below the heap. */
module Allocator {
  /** The address of base; 0 is the null pointer. */
  const BASE: int := 1
  const HEADER: nat := 16
  const MIN_CHUNK: nat := 4096

  // ---------------------------------------------------------------- the free list

  /** The successor in the circular list. */
  function After(list: seq<int>, i: nat): int
    requires i < |list|
  {
    if i + 1 < |list| then list[i + 1] else list[0]
  }

  /** list starts at base and is in address order. */
  ghost predicate Sorted(list: seq<int>) {
    list != [] && list[0] == BASE && forall i, j :: 0 <= i < j < |list| ==> list[i] < list[j]
  }

  /** The links make list circular, except that the one at index g is still to be written. */
  ghost predicate Links(ptr: map<int, int>, list: seq<int>, g: int) {
    && (forall i :: 0 <= i < |list| ==> list[i] in ptr)
    && (forall i, j :: 0 <= i < j < |list| && j == i + 1 && i != g ==> ptr[list[i]] == list[j])
    && (g != |list| - 1 && list != [] ==> ptr[list[|list| - 1]] == list[0])
  }

  /** Free blocks are in address order, and adjacent ones have been merged, except perhaps the one
    * at index g with the next. */
  ghost predicate Merged(size: map<int, int>, list: seq<int>, g: int) {
    && (forall i :: 0 <= i < |list| ==> list[i] in size && (if i == 0 then size[list[i]] == 0 else size[list[i]] >= 1))
    && (forall i, j :: 0 <= i < j < |list| ==>
          list[i] + size[list[i]] <= list[j] && (list[i] + size[list[i]] == list[j] ==> i == g))
  }

  ghost predicate Ring(ptr: map<int, int>, size: map<int, int>, list: seq<int>, g: int) {
    Sorted(list) && Links(ptr, list, g) && Merged(size, list, g)
  }

  // ---------------------------------------------------------------- ownership

  /** The headers of all blocks, live and free; base is none. */
  function Blocks(list: seq<int>, live: map<int, int>): set<int> {
    live.Keys + (set x | x in list && x != BASE)
  }

  /** A unit's owner is a block that contains it. */
  ghost predicate Housed(size: map<int, int>, blocks: set<int>, owner: map<int, int>) {
    forall u :: u in owner ==> owner[u] in blocks && owner[u] in size && owner[u] <= u < owner[u] + size[owner[u]]
  }

  /** A block owns all of its units. */
  ghost predicate Holds(size: map<int, int>, blocks: set<int>, owner: map<int, int>) {
    && (forall a :: a in blocks ==> a in size && size[a] >= 1)
    && (forall a, u :: a in blocks && a <= u < a + size[a] ==> u in owner && owner[u] == a)
  }

  /** Every unit obtained from the system lies in exactly one block. */
  ghost predicate Owned(size: map<int, int>, blocks: set<int>, owner: map<int, int>) {
    Housed(size, blocks, owner) && Holds(size, blocks, owner)
  }

  /** The units from lo up to hi now belong to a. */
  function Relabel(owner: map<int, int>, lo: int, hi: int, a: int): (r: map<int, int>)
    ensures r.Keys == owner.Keys
    ensures forall u :: u in owner ==> r[u] == if lo <= u < hi then a else owner[u]
  {
    map u | u in owner :: if lo <= u < hi then a else owner[u]
  }

  /** Blocks do not overlap. */
  lemma Disjoint(size: map<int, int>, blocks: set<int>, owner: map<int, int>, a: int, b: int)
    requires Owned(size, blocks, owner) && a in blocks && b in blocks && a < b
    ensures a + size[a] <= b
  {
    assert owner[b] == b;
  }

  /** Block a swallows its neighbour b. */
  lemma Absorb(size: map<int, int>, blocks: set<int>, owner: map<int, int>, a: int, b: int)
    requires Owned(size, blocks, owner) && a in blocks && b in blocks && a + size[a] == b
    ensures Owned(size[a := size[a] + size[b]], blocks - {b}, Relabel(owner, b, b + size[b], a))
  {
    var size', owner' := size[a := size[a] + size[b]], Relabel(owner, b, b + size[b], a);
    AbsorbHoused(size, size', blocks, owner, owner', a, b);
    AbsorbHolds(size, size', blocks, owner, owner', a, b);
  }

  lemma AbsorbHoused(size: map<int, int>, size': map<int, int>, blocks: set<int>, owner: map<int, int>,
                     owner': map<int, int>, a: int, b: int)
    requires Owned(size, blocks, owner) && a in blocks && b in blocks && a in size && b in size && a + size[a] == b
    requires size' == size[a := size[a] + size[b]]
    requires owner'.Keys == owner.Keys
    requires forall u :: u in owner ==> owner'[u] == if b <= u < b + size[b] then a else owner[u]
    ensures Housed(size', blocks - {b}, owner')
  {
    forall u | u in owner'
      ensures owner'[u] in blocks - {b} && owner'[u] in size' && owner'[u] <= u < owner'[u] + size'[owner'[u]]
    {
      var c := owner[u];
      assert c in blocks && c <= u < c + size[c];
      assert b <= u < b + size[b] <==> c == b;
    }
  }

  lemma AbsorbHolds(size: map<int, int>, size': map<int, int>, blocks: set<int>, owner: map<int, int>,
                    owner': map<int, int>, a: int, b: int)
    requires Holds(size, blocks, owner) && a in blocks && b in blocks && a + size[a] == b
    requires size' == size[a := size[a] + size[b]]
    requires owner'.Keys == owner.Keys
    requires forall u :: u in owner ==> owner'[u] == if b <= u < b + size[b] then a else owner[u]
    ensures Holds(size', blocks - {b}, owner')
  {
    forall c, u | c in blocks - {b} && c <= u < c + size'[c]
      ensures u in owner' && owner'[u] == c
    {
      var d := if c == a && u >= b then b else c;
      assert d in blocks && d <= u < d + size[d];
      assert u in owner && owner[u] == d;
      assert b <= u < b + size[b] ==> owner[u] == b;
    }
  }

  /** The tail of block a, from t on, becomes a block of its own. */
  lemma Split(size: map<int, int>, blocks: set<int>, owner: map<int, int>, a: int, t: int)
    requires Owned(size, blocks, owner) && a in blocks && a < t < a + size[a]
    ensures t !in blocks
    ensures Owned(size[a := t - a][t := a + size[a] - t], blocks + {t}, Relabel(owner, t, a + size[a], t))
  {
    assert owner[t] == a;
    var size', owner' := size[a := t - a][t := a + size[a] - t], Relabel(owner, t, a + size[a], t);
    SplitHolds(size, size', blocks, owner, owner', a, t);
    SplitHoused(size, size', blocks, owner, owner', a, t);
  }

  lemma SplitHolds(size: map<int, int>, size': map<int, int>, blocks: set<int>, owner: map<int, int>,
                   owner': map<int, int>, a: int, t: int)
    requires Holds(size, blocks, owner) && a in blocks && a < t < a + size[a] && t !in blocks
    requires size' == size[a := t - a][t := a + size[a] - t]
    requires owner'.Keys == owner.Keys
    requires forall u :: u in owner ==> owner'[u] == if t <= u < a + size[a] then t else owner[u]
    ensures Holds(size', blocks + {t}, owner')
  {
    forall c, u | c in blocks + {t} && c <= u < c + size'[c]
      ensures u in owner' && owner'[u] == c
    {
      var b := if c == t then a else c;
      assert b in blocks && b <= u < b + size[b];
      assert u in owner && owner[u] == b;
      assert t <= u < a + size[a] ==> owner[u] == a;
    }
  }

  lemma SplitHoused(size: map<int, int>, size': map<int, int>, blocks: set<int>, owner: map<int, int>,
                    owner': map<int, int>, a: int, t: int)
    requires Owned(size, blocks, owner) && a in blocks && a < t < a + size[a] && t !in blocks
    requires size' == size[a := t - a][t := a + size[a] - t]
    requires owner'.Keys == owner.Keys
    requires forall u :: u in owner ==> owner'[u] == if t <= u < a + size[a] then t else owner[u]
    ensures Housed(size', blocks + {t}, owner')
  {
    forall u | u in owner'
      ensures owner'[u] in blocks + {t} && owner'[u] in size' && owner'[u] <= u < owner'[u] + size'[owner'[u]]
    {
      var c := owner[u];
      assert c in blocks && c <= u < c + size[c];
      assert t <= u < a + size[a] ==> c == a;
    }
  }

  /** The n units from lo on, all in one block. */
  function Chunk(lo: int, n: nat): (r: map<int, int>)
    ensures forall u :: u in r <==> lo <= u < lo + n
    ensures forall u :: u in r ==> r[u] == lo
  {
    if n == 0 then map[] else Chunk(lo, n - 1)[lo + n - 1 := lo]
  }

  /** n fresh units above everything else make a block. */
  lemma Extend(size: map<int, int>, blocks: set<int>, owner: map<int, int>, h: int, n: nat)
    requires Owned(size, blocks, owner) && n >= 1 && forall u :: u in owner ==> u < h
    ensures h !in blocks && Owned(size[h := n], blocks + {h}, owner + Chunk(h, n))
  {
    assert h in blocks ==> h in owner;
    ExtendHolds(size, size[h := n], blocks, owner, Chunk(h, n), h, n);
    ExtendHoused(size, size[h := n], blocks, owner, Chunk(h, n), h, n);
  }

  lemma ExtendHoused(size: map<int, int>, size': map<int, int>, blocks: set<int>, owner: map<int, int>,
                     chunk: map<int, int>, h: int, n: nat)
    requires Owned(size, blocks, owner) && h !in blocks && size' == size[h := n]
    requires (forall u :: u in chunk <==> h <= u < h + n) && forall u :: u in chunk ==> chunk[u] == h
    ensures Housed(size', blocks + {h}, owner + chunk)
  {
    var owner' := owner + chunk;
    forall u | u in owner'
      ensures owner'[u] in blocks + {h} && owner'[u] in size' && owner'[u] <= u < owner'[u] + size'[owner'[u]]
    {
      if u !in chunk {
        assert owner[u] in blocks;
      }
    }
  }

  lemma ExtendHolds(size: map<int, int>, size': map<int, int>, blocks: set<int>, owner: map<int, int>,
                    chunk: map<int, int>, h: int, n: nat)
    requires Owned(size, blocks, owner) && h !in blocks && n >= 1 && size' == size[h := n]
    requires forall u :: u in owner ==> u < h
    requires (forall u :: u in chunk <==> h <= u < h + n) && forall u :: u in chunk ==> chunk[u] == h
    ensures Holds(size', blocks + {h}, owner + chunk)
  {
    forall c, u | c in blocks + {h} && c <= u < c + size'[c]
      ensures u in owner + chunk && (owner + chunk)[u] == c
    {
      if c == h {
        assert u in chunk;
      } else {
        assert c in blocks && u in owner && owner[u] == c && u !in chunk;
      }
    }
  }

  // ---------------------------------------------------------------- free

  /** The list position after which a block at bp belongs. */
  predicate Gap(list: seq<int>, g: nat, bp: int) {
    g < |list| && list[g] < bp && (g + 1 < |list| ==> bp < list[g + 1])
  }

  lemma {:induction false} GapExists(list: seq<int>, bp: int) returns (g: nat)
    requires list != [] && list[0] < bp && bp !in list
    requires forall i, j :: 0 <= i < j < |list| ==> list[i] < list[j]
    ensures Gap(list, g, bp)
  {
    g := |list| - 1;
    while list[g] > bp
      invariant g < |list| && (g + 1 < |list| ==> bp < list[g + 1])
    {
      g := g - 1;
    }
  }

  /** The freed block bp fits between its neighbours. */
  lemma FitsGap(ptr: map<int, int>, size: map<int, int>, list: seq<int>, live: map<int, int>, owner: map<int, int>,
                g: nat, bp: int)
    requires Ring(ptr, size, list, -1) && Owned(size, Blocks(list, live), owner) && bp in live && Gap(list, g, bp)
    ensures list[g] + size[list[g]] <= bp && (g + 1 < |list| ==> bp + size[bp] <= list[g + 1])
  {
    if g > 0 {
      assert list[0] < list[g];
      Disjoint(size, Blocks(list, live), owner, list[g], bp);
    }
    if g + 1 < |list| {
      assert list[0] < list[g + 1];
      Disjoint(size, Blocks(list, live), owner, bp, list[g + 1]);
    }
  }

  function Inserted(list: seq<int>, g: nat, bp: int): (r: seq<int>)
    requires g < |list|
    ensures |r| == |list| + 1
  {
    list[..g + 1] + [bp] + list[g + 1..]
  }

  function Dropped(list: seq<int>, k: nat): (r: seq<int>)
    requires k < |list|
    ensures |r| == |list| - 1
  {
    list[..k] + list[k + 1..]
  }

  lemma InsertedAt(list: seq<int>, g: nat, bp: int, i: nat)
    requires g < |list| && i <= |list|
    ensures Inserted(list, g, bp)[i] == if i <= g then list[i] else if i == g + 1 then bp else list[i - 1]
  {
  }

  lemma DroppedAt(list: seq<int>, k: nat, i: nat)
    requires k < |list| && i < |list| - 1
    ensures Dropped(list, k)[i] == if i < k then list[i] else list[i + 1]
  {
  }

  lemma SortedDistinct(list: seq<int>)
    requires Sorted(list)
    ensures forall i, j :: 0 <= i < |list| && 0 <= j < |list| && i != j ==> list[i] != list[j]
  {
    forall i, j | 0 <= i < |list| && 0 <= j < |list| && i != j
      ensures list[i] != list[j]
    {
      if i < j {
        assert list[i] < list[j];
      } else {
        assert list[j] < list[i];
      }
    }
  }

  lemma InsertedSorted(list: seq<int>, g: nat, bp: int)
    requires Sorted(list) && Gap(list, g, bp)
    ensures Sorted(Inserted(list, g, bp))
  {
    hide Inserted;
    GapSplits(list, g, bp);
    var r := Inserted(list, g, bp);
    InsertedAt(list, g, bp, 0);
    forall i, j | 0 <= i < j < |r|
      ensures r[i] < r[j]
    {
      InsertedAt(list, g, bp, i);
      InsertedAt(list, g, bp, j);
    }
  }

  lemma GapSplits(list: seq<int>, g: nat, bp: int)
    requires Sorted(list) && Gap(list, g, bp)
    ensures forall i :: 0 <= i < |list| ==> if i <= g then list[i] < bp else bp < list[i]
  {
    forall i | 0 <= i < |list|
      ensures if i <= g then list[i] < bp else bp < list[i]
    {
      assert i < g ==> list[i] < list[g];
      assert i > g + 1 ==> list[g + 1] < list[i];
    }
  }

  lemma ReplacedSorted(list: seq<int>, g: nat, bp: int)
    requires Sorted(list) && Gap(list, g, bp) && g + 1 < |list|
    ensures Sorted(list[g + 1 := bp])
  {
    GapSplits(list, g, bp);
  }

  lemma DroppedSorted(list: seq<int>, k: nat)
    requires Sorted(list) && 0 < k < |list|
    ensures Sorted(Dropped(list, k))
  {
    hide Dropped;
    var r := Dropped(list, k);
    DroppedAt(list, k, 0);
    forall i, j | 0 <= i < j < |r|
      ensures r[i] < r[j]
    {
      DroppedAt(list, k, i);
      DroppedAt(list, k, j);
    }
  }

  /** First half of free, when the next block is not adjacent: bp goes in after position g. */
  lemma LinkFree(ptr: map<int, int>, size: map<int, int>, list: seq<int>, g: nat, bp: int)
    requires Ring(ptr, size, list, -1) && Gap(list, g, bp) && bp in size && size[bp] >= 1
    requires list[g] + size[list[g]] <= bp && (g + 1 < |list| ==> bp + size[bp] < list[g + 1])
    ensures Ring(ptr[bp := After(list, g)], size, Inserted(list, g, bp), g)
  {
    InsertedSorted(list, g, bp);
    GapSplits(list, g, bp);
    LinkFreeLinks(ptr, list, g, bp);
    LinkFreeSizes(size, list, g, bp);
  }

  lemma LinkFreeLinks(ptr: map<int, int>, list: seq<int>, g: nat, bp: int)
    requires Sorted(list) && Links(ptr, list, -1) && g < |list| && bp !in list
    ensures Links(ptr[bp := After(list, g)], Inserted(list, g, bp), g)
  {
    SortedDistinct(list);
    hide Sorted, Inserted;
    var r, ptr' := Inserted(list, g, bp), ptr[bp := After(list, g)];
    forall i | 0 <= i < |r|
      ensures r[i] in ptr'
    {
      InsertedAt(list, g, bp, i);
    }
    forall i, j | 0 <= i < j < |r| && j == i + 1 && i != g
      ensures ptr'[r[i]] == r[j]
    {
      InsertedAt(list, g, bp, i);
      InsertedAt(list, g, bp, j);
      assert i <= g ==> list[i] in list;
    }
    InsertedAt(list, g, bp, |list|);
    InsertedAt(list, g, bp, 0);
    assert list[|list| - 1] in list;
  }

  lemma LinkFreeSizes(size: map<int, int>, list: seq<int>, g: nat, bp: int)
    requires Merged(size, list, -1) && g < |list| && bp in size && size[bp] >= 1
    requires forall i :: 0 <= i < |list| ==> if i <= g then list[i] < bp else bp < list[i]
    requires list[g] + size[list[g]] <= bp && (g + 1 < |list| ==> bp + size[bp] < list[g + 1])
    ensures Merged(size, Inserted(list, g, bp), g)
  {
    hide Inserted;
    var r := Inserted(list, g, bp);
    forall i | 0 <= i < |r|
      ensures r[i] in size && (if i == 0 then size[r[i]] == 0 else size[r[i]] >= 1)
    {
      InsertedAt(list, g, bp, i);
    }
    forall i, j | 0 <= i < j < |r|
      ensures r[i] + size[r[i]] <= r[j] && (r[i] + size[r[i]] == r[j] ==> i == g)
    {
      InsertedAt(list, g, bp, i);
      InsertedAt(list, g, bp, j);
      if j == g + 1 && i < g {
        assert list[i] + size[list[i]] < list[g];
      } else if i == g + 1 && j > g + 2 {
        assert list[g + 1] + size[list[g + 1]] < list[j - 1];
      }
    }
  }

  lemma MergeNextLinks(ptr: map<int, int>, list: seq<int>, k: nat, bp: int)
    requires Sorted(list) && Links(ptr, list, -1) && 0 < k < |list| && bp !in list
    ensures Links(ptr[bp := After(list, k)], list[k := bp], k - 1)
  {
    SortedDistinct(list);
    hide Sorted;
    assert forall i :: 0 <= i < |list| ==> list[i] in list;
  }

  lemma MergeNextSizes(size: map<int, int>, list: seq<int>, k: nat, bp: int, n: int)
    requires Merged(size, list, -1) && 0 < k < |list| && bp !in list && n >= 1
    requires list[k - 1] + size[list[k - 1]] <= bp && bp + n == list[k]
    ensures Merged(size[bp := n + size[list[k]]], list[k := bp], k - 1)
  {
    var r, size' := list[k := bp], size[bp := n + size[list[k]]];
    forall i | 0 <= i < |r|
      ensures r[i] in size' && size'[r[i]] == if i == k then n + size[list[k]] else size[list[i]]
    {
      assert list[i] in list;
    }
    forall i, j | 0 <= i < j < |r|
      ensures r[i] + size'[r[i]] <= r[j] && (r[i] + size'[r[i]] == r[j] ==> i == k - 1)
    {
      if j == k && i < k - 1 {
        assert list[i] + size[list[i]] < list[k - 1];
      }
    }
  }

  /** First half of free, when the next block is adjacent: bp takes its place. */
  lemma MergeNext(ptr: map<int, int>, size: map<int, int>, list: seq<int>, g: nat, bp: int)
    requires Ring(ptr, size, list, -1) && Gap(list, g, bp) && bp in size && size[bp] >= 1
    requires g + 1 < |list| && list[g] + size[list[g]] <= bp && bp + size[bp] == list[g + 1]
    ensures Ring(ptr[bp := After(list, g + 1)], size[bp := size[bp] + size[list[g + 1]]], list[g + 1 := bp], g)
  {
    ReplacedSorted(list, g, bp);
    GapSplits(list, g, bp);
    MergeNextLinks(ptr, list, g + 1, bp);
    MergeNextSizes(size, list, g + 1, bp, size[bp]);
  }

  /** Second half of free: the block before is linked to bp, or swallows it. */
  lemma LinkPrev(ptr: map<int, int>, size: map<int, int>, list: seq<int>, g: nat)
    requires Ring(ptr, size, list, g) && g + 1 < |list| && list[g] + size[list[g]] < list[g + 1]
    ensures Ring(ptr[list[g] := list[g + 1]], size, list, -1)
  {
    SortedDistinct(list);
  }

  lemma MergePrevLinks(ptr: map<int, int>, list: seq<int>, k: nat)
    requires Sorted(list) && Links(ptr, list, k - 1) && 0 < k < |list|
    ensures Links(ptr[list[k - 1] := After(list, k)], Dropped(list, k), -1)
  {
    SortedDistinct(list);
    hide Sorted, Dropped;
    var r, ptr' := Dropped(list, k), ptr[list[k - 1] := After(list, k)];
    forall i | 0 <= i < |r|
      ensures r[i] in ptr'
    {
      DroppedAt(list, k, i);
    }
    forall i, j | 0 <= i < j < |r| && j == i + 1
      ensures ptr'[r[i]] == r[j]
    {
      DroppedAt(list, k, i);
      DroppedAt(list, k, j);
    }
    DroppedAt(list, k, |r| - 1);
    DroppedAt(list, k, 0);
  }

  lemma MergePrevSizes(size: map<int, int>, list: seq<int>, k: nat)
    requires Sorted(list) && Merged(size, list, k - 1) && 1 < k < |list| && list[k - 1] + size[list[k - 1]] == list[k]
    ensures Merged(size[list[k - 1] := size[list[k - 1]] + size[list[k]]], Dropped(list, k), -1)
  {
    SortedDistinct(list);
    hide Sorted, Dropped;
    var r, size' := Dropped(list, k), size[list[k - 1] := size[list[k - 1]] + size[list[k]]];
    forall i | 0 <= i < |r|
      ensures r[i] in size' && (if i == 0 then size'[r[i]] == 0 else size'[r[i]] >= 1)
    {
      DroppedAt(list, k, i);
    }
    forall i, j | 0 <= i < j < |r|
      ensures r[i] + size'[r[i]] < r[j]
    {
      DroppedAt(list, k, i);
      DroppedAt(list, k, j);
      if i == k - 1 {
        assert list[k] + size[list[k]] < list[j + 1];
      }
    }
  }

  lemma MergePrev(ptr: map<int, int>, size: map<int, int>, list: seq<int>, g: nat)
    requires Ring(ptr, size, list, g) && g > 0 && g + 1 < |list| && list[g] + size[list[g]] == list[g + 1]
    ensures Ring(ptr[list[g] := After(list, g + 1)], size[list[g] := size[list[g]] + size[list[g + 1]]],
                 Dropped(list, g + 1), -1)
  {
    DroppedSorted(list, g + 1);
    MergePrevLinks(ptr, list, g + 1);
    MergePrevSizes(size, list, g + 1);
  }

  // ---------------------------------------------------------------- malloc

  /** An exact fit leaves the list. */
  lemma TakeWhole(ptr: map<int, int>, size: map<int, int>, list: seq<int>, k: nat)
    requires Ring(ptr, size, list, -1) && 0 < k < |list|
    ensures Ring(ptr[list[k - 1] := After(list, k)], size, Dropped(list, k), -1)
  {
    DroppedSorted(list, k);
    MergePrevLinks(ptr, list, k);
    hide Sorted, Dropped, Links;
    var r := Dropped(list, k);
    forall i | 0 <= i < |r|
      ensures r[i] in size && (if i == 0 then size[r[i]] == 0 else size[r[i]] >= 1)
    {
      DroppedAt(list, k, i);
    }
    forall i, j | 0 <= i < j < |r|
      ensures r[i] + size[r[i]] < r[j]
    {
      DroppedAt(list, k, i);
      DroppedAt(list, k, j);
    }
  }

  /** A larger block keeps its head, and its tail is taken. */
  lemma TakeTail(ptr: map<int, int>, size: map<int, int>, list: seq<int>, k: nat, n: int)
    requires Ring(ptr, size, list, -1) && 0 < k < |list| && 1 <= n < size[list[k]]
    requires list[k] + size[list[k]] - n !in list
    ensures Ring(ptr, size[list[k] := size[list[k]] - n][list[k] + size[list[k]] - n := n], list, -1)
  {
    SortedDistinct(list);
    hide Sorted;
    assert forall i :: 0 <= i < |list| ==> list[i] in list;
  }

  // ---------------------------------------------------------------- the set of blocks

  lemma BlocksDropped(list: seq<int>, live: map<int, int>, k: nat)
    requires Sorted(list) && 0 < k < |list| && list[k] !in live
    ensures Blocks(Dropped(list, k), live) == Blocks(list, live) - {list[k]}
  {
    SortedDistinct(list);
    hide Dropped, Sorted;
    forall x
      ensures x in Dropped(list, k) <==> x in list && x != list[k]
    {
      InDroppedHere(list, k, x);
    }
  }

  lemma InDroppedHere(list: seq<int>, k: nat, x: int)
    requires k < |list| && forall i, j :: 0 <= i < |list| && 0 <= j < |list| && i != j ==> list[i] != list[j]
    ensures x in Dropped(list, k) <==> x in list && x != list[k]
  {
    hide Dropped;
    var r := Dropped(list, k);
    if x in r {
      var i :| 0 <= i < |r| && r[i] == x;
      DroppedAt(list, k, i);
    }
    if x in list && x != list[k] {
      var i :| 0 <= i < |list| && list[i] == x;
      DroppedAt(list, k, if i < k then i else i - 1);
    }
  }

  lemma BlocksFreed(list: seq<int>, live: map<int, int>, g: nat, bp: int)
    requires g < |list| && bp in live && bp != BASE
    ensures Blocks(Inserted(list, g, bp), live - {bp}) == Blocks(list, live)
  {
    assert list == list[..g + 1] + list[g + 1..];
    assert forall x :: x in Inserted(list, g, bp) <==> x in list || x == bp;
  }

  lemma BlocksReplaced(list: seq<int>, live: map<int, int>, k: nat, bp: int)
    requires Sorted(list) && 0 < k < |list| && bp in live && bp != BASE && list[k] !in live
    ensures Blocks(list[k := bp], live - {bp}) == Blocks(list, live) - {list[k]}
  {
    SortedDistinct(list);
    hide Sorted;
    var r := list[k := bp];
    forall x
      ensures x in r <==> (x in list && x != list[k]) || x == bp
    {
      if x in list && x != list[k] {
        var i :| 0 <= i < |list| && list[i] == x;
        assert r[i] == x;
      }
      assert r[k] == bp;
    }
  }

  /** Live blocks keep the size they were given, and are not on the list. */
  ghost predicate LiveOk(size: map<int, int>, list: seq<int>, live: map<int, int>) {
    forall a :: a in live ==> a in size && size[a] == live[a] && a !in list && a > BASE
  }

  /** The free list and the blocks, between calls. */
  ghost predicate State(ptr: map<int, int>, size: map<int, int>, list: seq<int>, live: map<int, int>,
                        owner: map<int, int>)
  {
    Ring(ptr, size, list, -1) && Owned(size, Blocks(list, live), owner) && LiveOk(size, list, live)
  }

  /** bp is on the list right after p, which does not link to it yet. */
  ghost predicate Half(ptr: map<int, int>, size: map<int, int>, list: seq<int>, live: map<int, int>,
                       owner: map<int, int>, p: int, bp: int, g: int)
  {
    && Ring(ptr, size, list, g) && 0 <= g < |list| - 1 && list[g] == p && list[g + 1] == bp
    && p in size && bp in size && bp in ptr && p + size[p] <= bp
    && Owned(size, Blocks(list, live), owner) && LiveOk(size, list, live)
  }

  lemma HalfMerged(ptr: map<int, int>, size: map<int, int>, list: seq<int>, live: map<int, int>, owner: map<int, int>,
                   g: nat, bp: int)
    requires State(ptr, size, list, live, owner) && bp in live && Gap(list, g, bp)
    requires g + 1 < |list| && bp in size && bp + size[bp] == list[g + 1]
    ensures var next := list[g + 1];
            next in size && size[next] >= 1 &&
            Half(ptr[bp := After(list, g + 1)], size[bp := size[bp] + size[next]], list[g + 1 := bp], live - {bp},
                 Relabel(owner, next, next + size[next], bp), list[g], bp, g)
  {
    hide *;
    FreedFacts(ptr, size, list, live, owner, g, bp);
    var next := list[g + 1];
    MergeNext(ptr, size, list, g, bp);
    Absorb(size, Blocks(list, live), owner, bp, next);
    BlocksReplaced(list, live, g + 1, bp);
    LiveReplaced(size, list, live, g + 1, bp, size[bp] + size[next]);
    MakeHalf(ptr[bp := After(list, g + 1)], size[bp := size[bp] + size[next]], list[g + 1 := bp], live - {bp},
             Relabel(owner, next, next + size[next], bp), list[g], bp, g);
  }

  lemma FreeFacts(ptr: map<int, int>, size: map<int, int>, list: seq<int>, live: map<int, int>, owner: map<int, int>,
                  bp: int)
    requires State(ptr, size, list, live, owner) && bp in live
    ensures bp > BASE && bp !in list
  {
  }

  /** What is known of the block to be freed and its neighbours. */
  lemma FreedFacts(ptr: map<int, int>, size: map<int, int>, list: seq<int>, live: map<int, int>, owner: map<int, int>,
                   g: nat, bp: int)
    requires State(ptr, size, list, live, owner) && bp in live && Gap(list, g, bp)
    ensures g < |list| && list[g] in size && list[g] in ptr && list[g] != bp && list[g] + size[list[g]] <= bp
    ensures bp > BASE && bp !in list && bp in size && size[bp] == live[bp] >= 1 && bp in Blocks(list, live)
    ensures Ring(ptr, size, list, -1) && Sorted(list) && Owned(size, Blocks(list, live), owner)
    ensures LiveOk(size, list, live)
    ensures ptr[list[g]] == After(list, g) == if g + 1 < |list| then list[g + 1] else BASE
    ensures g + 1 < |list| ==>
      var next := list[g + 1];
      && next in size && next in ptr && size[next] >= 1 && bp + size[bp] <= next && next !in live
      && next in Blocks(list, live)
      && ptr[next] == After(list, g + 1)
  {
    LiveFree(size, list, live, owner, bp);
    FitsGap(ptr, size, list, live, owner, g, bp);
    AtGap(ptr, size, list, g);
    GapAbove(list, g, bp);
    GapFacts(ptr, size, list, g);
    if g + 1 < |list| {
      AfterFree(ptr, size, list, live, owner, g + 1);
    }
  }

  lemma MakeHalf(ptr: map<int, int>, size: map<int, int>, list: seq<int>, live: map<int, int>, owner: map<int, int>,
                 p: int, bp: int, g: nat)
    requires Ring(ptr, size, list, g) && g + 1 < |list| && list[g] == p && list[g + 1] == bp
    requires p in size && bp in size && bp in ptr && p + size[p] <= bp
    requires Owned(size, Blocks(list, live), owner) && LiveOk(size, list, live)
    ensures Half(ptr, size, list, live, owner, p, bp, g)
  {
    hide Ring, Owned, Blocks, LiveOk;
  }

  lemma LiveReplaced(size: map<int, int>, list: seq<int>, live: map<int, int>, k: nat, bp: int, n: int)
    requires LiveOk(size, list, live) && bp in live && k < |list|
    ensures LiveOk(size[bp := n], list[k := bp], live - {bp})
  {
  }

  lemma GapFacts(ptr: map<int, int>, size: map<int, int>, list: seq<int>, g: nat)
    requires Ring(ptr, size, list, -1) && g < |list|
    ensures list[g] in size && list[g] in ptr
    ensures g + 1 < |list| ==> list[g + 1] in size && size[list[g + 1]] >= 1
  {
  }

  lemma HalfLinked(ptr: map<int, int>, size: map<int, int>, list: seq<int>, live: map<int, int>, owner: map<int, int>,
                   g: nat, bp: int)
    requires State(ptr, size, list, live, owner) && bp in live && Gap(list, g, bp)
    requires bp in size && (g + 1 < |list| ==> bp + size[bp] != list[g + 1])
    ensures Half(ptr[bp := After(list, g)], size, Inserted(list, g, bp), live - {bp}, owner, list[g], bp, g)
  {
    hide *;
    FreedFacts(ptr, size, list, live, owner, g, bp);
    LinkFree(ptr, size, list, g, bp);
    BlocksFreed(list, live, g, bp);
    LiveLinked(size, list, live, g, bp);
    InsertedAt(list, g, bp, g);
    InsertedAt(list, g, bp, g + 1);
    MakeHalf(ptr[bp := After(list, g)], size, Inserted(list, g, bp), live - {bp}, owner, list[g], bp, g);
  }

  lemma HalfIn(ptr: map<int, int>, size: map<int, int>, list: seq<int>, live: map<int, int>, owner: map<int, int>,
               p: int, bp: int, g: nat)
    requires Half(ptr, size, list, live, owner, p, bp, g)
    ensures p in size && bp in size && bp in ptr && g + 1 < |list| && list[g] == p && list[g + 1] == bp && size[p] >= 0
  {
  }

  lemma WholeMerged(ptr: map<int, int>, size: map<int, int>, list: seq<int>, live: map<int, int>, owner: map<int, int>,
                    p: int, bp: int, g: nat)
    requires Half(ptr, size, list, live, owner, p, bp, g) && p + size[p] == bp
    ensures ptr[bp] == After(list, g + 1) && size[bp] >= 1
    ensures State(ptr[p := ptr[bp]], size[p := size[p] + size[bp]], Dropped(list, g + 1), live,
                  Relabel(owner, bp, bp + size[bp], p))
    ensures g < |Dropped(list, g + 1)| && Dropped(list, g + 1)[g] == p && size[p] >= 0
  {
    hide *;
    HalfParts(ptr, size, list, live, owner, p, bp, g);
    HalfFacts(ptr, size, list, live, owner, g);
    MergePrev(ptr, size, list, g);
    Absorb(size, Blocks(list, live), owner, p, bp);
    BlocksDropped(list, live, g + 1);
    LiveDropped(size, list, live, g + 1, p, size[p] + size[bp]);
    MakeState(ptr[p := ptr[bp]], size[p := size[p] + size[bp]], Dropped(list, g + 1), live,
              Relabel(owner, bp, bp + size[bp], p));
  }

  lemma HalfParts(ptr: map<int, int>, size: map<int, int>, list: seq<int>, live: map<int, int>, owner: map<int, int>,
                  p: int, bp: int, g: nat)
    requires Half(ptr, size, list, live, owner, p, bp, g)
    ensures g + 1 < |list| && list[g] == p && list[g + 1] == bp && p in size && bp in size && bp in ptr
    ensures p + size[p] <= bp && p in list && size[p] >= 0
    ensures Ring(ptr, size, list, g) && Sorted(list) && Owned(size, Blocks(list, live), owner)
    ensures LiveOk(size, list, live)
  {
  }

  lemma LiveDropped(size: map<int, int>, list: seq<int>, live: map<int, int>, k: nat, p: int, n: int)
    requires LiveOk(size, list, live) && k < |list| && p in list
    ensures LiveOk(size[p := n], Dropped(list, k), live)
  {
  }

  lemma WholeLinked(ptr: map<int, int>, size: map<int, int>, list: seq<int>, live: map<int, int>, owner: map<int, int>,
                    p: int, bp: int, g: nat)
    requires Half(ptr, size, list, live, owner, p, bp, g) && p + size[p] != bp
    ensures State(ptr[p := bp], size, list, live, owner)
  {
    LinkPrev(ptr, size, list, g);
  }

  lemma TakeFacts(ptr: map<int, int>, size: map<int, int>, list: seq<int>, live: map<int, int>, owner: map<int, int>,
                  k: nat)
    requires State(ptr, size, list, live, owner) && 0 < k < |list|
    ensures list[k] in ptr && ptr[list[k]] == After(list, k) && list[k] > BASE && list[k] !in live
    ensures list[k - 1] >= BASE && k - 1 < |Dropped(list, k)| && Dropped(list, k)[k - 1] == list[k - 1]
  {
    LinkAt(ptr, list, k);
    Order(list, k - 1);
    DroppedAt(list, k, k - 1);
    assert list[0] < list[k];
  }

  lemma TakenWhole(ptr: map<int, int>, size: map<int, int>, list: seq<int>, live: map<int, int>, owner: map<int, int>,
                   k: nat, n: nat)
    requires State(ptr, size, list, live, owner) && 0 < k < |list| && list[k] in size && size[list[k]] == n >= 1
    ensures State(ptr[list[k - 1] := After(list, k)], size, Dropped(list, k), live[list[k] := n], owner)
  {
    hide *;
    var p, list' := list[k], Dropped(list, k);
    StateParts(ptr, size, list, live, owner);
    TakeFacts(ptr, size, list, live, owner, k);
    TakeWhole(ptr, size, list, k);
    BlocksDropped(list, live, k);
    BlocksAdd(list', live, p, n);
    AfterFree(ptr, size, list, live, owner, k);
    assert Blocks(list', live[p := n]) == Blocks(list, live);
    LiveTaken(size, list, live, k, n);
    MakeState(ptr[list[k - 1] := After(list, k)], size, list', live[p := n], owner);
  }

  lemma TakenTail(ptr: map<int, int>, size: map<int, int>, list: seq<int>, live: map<int, int>, owner: map<int, int>,
                  k: nat, t: int)
    requires State(ptr, size, list, live, owner) && 0 < k < |list| && list[k] in size
    requires list[k] < t < list[k] + size[list[k]]
    ensures var p := list[k];
            State(ptr, size[p := t - p][t := p + size[p] - t], list, live[t := p + size[p] - t],
                  Relabel(owner, t, p + size[p], t))
    ensures t !in live && t > BASE
  {
    hide *;
    var p := list[k];
    var n := p + size[p] - t;
    StateParts(ptr, size, list, live, owner);
    TakeFacts(ptr, size, list, live, owner, k);
    AfterFree(ptr, size, list, live, owner, k);
    Split(size, Blocks(list, live), owner, p, t);
    NotBlock(list, live, t);
    TakeTail(ptr, size, list, k, n);
    BlocksAdd(list, live, t, n);
    LiveSplit(size, list, live, p, t, n);
    MakeState(ptr, size[p := t - p][t := n], list, live[t := n], Relabel(owner, t, p + size[p], t));
  }

  lemma StateParts(ptr: map<int, int>, size: map<int, int>, list: seq<int>, live: map<int, int>, owner: map<int, int>)
    requires State(ptr, size, list, live, owner)
    ensures Ring(ptr, size, list, -1) && Sorted(list) && Owned(size, Blocks(list, live), owner)
    ensures LiveOk(size, list, live)
  {
  }

  lemma MakeState(ptr: map<int, int>, size: map<int, int>, list: seq<int>, live: map<int, int>, owner: map<int, int>)
    requires Ring(ptr, size, list, -1) && Owned(size, Blocks(list, live), owner) && LiveOk(size, list, live)
    ensures State(ptr, size, list, live, owner)
  {
  }

  lemma BlocksAdd(list: seq<int>, live: map<int, int>, a: int, n: int)
    ensures Blocks(list, live[a := n]) == Blocks(list, live) + {a}
  {
  }

  lemma NotBlock(list: seq<int>, live: map<int, int>, t: int)
    requires t !in Blocks(list, live) && t > BASE
    ensures t !in live && t !in list
  {
  }

  lemma LiveTaken(size: map<int, int>, list: seq<int>, live: map<int, int>, k: nat, n: nat)
    requires LiveOk(size, list, live) && Sorted(list) && 0 < k < |list| && list[k] in size && size[list[k]] == n
    ensures LiveOk(size, Dropped(list, k), live[list[k] := n])
  {
    SortedDistinct(list);
    Order(list, k);
    assert list[0] < list[k];
    hide Sorted;
    forall x
      ensures x in Dropped(list, k) <==> x in list && x != list[k]
    {
      InDroppedHere(list, k, x);
    }
  }

  lemma LiveSplit(size: map<int, int>, list: seq<int>, live: map<int, int>, p: int, t: int, n: int)
    requires LiveOk(size, list, live) && p !in live && t !in list && t > BASE && t !in live
    ensures LiveOk(size[p := t - p][t := n], list, live[t := n])
  {
  }

  /** Fresh memory joins as a live block, ready to be freed. */
  lemma NewChunk(ptr: map<int, int>, size: map<int, int>, list: seq<int>, live: map<int, int>, owner: map<int, int>,
                 hp: int, n: nat, top: int)
    requires State(ptr, size, list, live, owner) && n >= 1 && BASE < top <= hp
    requires forall u :: u in owner ==> BASE < u < top
    ensures State(ptr, size[hp := n], list, live[hp := n], owner + Chunk(hp, n))
    ensures hp !in live && hp > BASE
    ensures forall u :: u in owner + Chunk(hp, n) ==> BASE < u < hp + n
    ensures (owner + Chunk(hp, n)).Keys == owner.Keys + Chunk(hp, n).Keys
  {
    StateParts(ptr, size, list, live, owner);
    assert hp !in owner;
    hide *;
    Extend(size, Blocks(list, live), owner, hp, n);
    NotBlock(list, live, hp);
    BlocksAdd(list, live, hp, n);
    RingElsewhere(ptr, size, list, hp, n);
    LiveNew(size, list, live, hp, n);
    ChunkBounds(owner, hp, n, top);
    MakeState(ptr, size[hp := n], list, live[hp := n], owner + Chunk(hp, n));
  }

  lemma RingElsewhere(ptr: map<int, int>, size: map<int, int>, list: seq<int>, a: int, n: int)
    requires Ring(ptr, size, list, -1) && a !in list
    ensures Ring(ptr, size[a := n], list, -1)
  {
    assert forall i :: 0 <= i < |list| ==> list[i] in list;
  }

  lemma LiveNew(size: map<int, int>, list: seq<int>, live: map<int, int>, a: int, n: int)
    requires LiveOk(size, list, live) && a !in live && a !in list && a > BASE
    ensures LiveOk(size[a := n], list, live[a := n])
  {
  }

  lemma ChunkBounds(owner: map<int, int>, hp: int, n: nat, top: int)
    requires BASE < top <= hp && forall u :: u in owner ==> BASE < u < top
    ensures forall u :: u in owner + Chunk(hp, n) ==> BASE < u < hp + n
    ensures (owner + Chunk(hp, n)).Keys == owner.Keys + Chunk(hp, n).Keys
    ensures hp > BASE && hp !in owner && forall u :: u in owner ==> u < hp
  {
  }

  /** The search has come from just behind f round to k without meeting a block of n units. */
  ghost predicate NoFit(size: map<int, int>, list: seq<int>, f: nat, k: nat, n: int) {
    forall i :: 0 <= i < |list| && (if f < k then f < i < k else i > f || i < k) ==>
      list[i] in size && size[list[i]] < n
  }

  lemma AtStop(ptr: map<int, int>, size: map<int, int>, list: seq<int>, live: map<int, int>, owner: map<int, int>,
               k: nat)
    requires State(ptr, size, list, live, owner) && k < |list|
    ensures list[k] in ptr && list[k] in size && ptr[list[k]] == if k + 1 < |list| then list[k + 1] else list[0]
    ensures k == 0 ==> size[list[k]] == 0
    ensures forall j :: 0 <= j < |list| && list[j] == list[k] ==> j == k
  {
    LinkAt(ptr, list, k);
    SortedDistinct(list);
  }

  lemma NextStop(ptr: map<int, int>, size: map<int, int>, list: seq<int>, live: map<int, int>, owner: map<int, int>,
                 f: nat, k: nat, n: int)
    requires State(ptr, size, list, live, owner) && f < |list| && k < |list| && list[k] != list[f]
    requires NoFit(size, list, f, k, n) && list[k] in size && size[list[k]] < n
    ensures NoFit(size, list, f, if k + 1 < |list| then k + 1 else 0, n)
  {
  }

  /** Back at f: there is no block of n units. */
  lemma NoneFits(ptr: map<int, int>, size: map<int, int>, list: seq<int>, live: map<int, int>, owner: map<int, int>,
                 f: nat, k: nat, n: int)
    requires State(ptr, size, list, live, owner) && f < |list| && k < |list| && list[k] == list[f]
    requires NoFit(size, list, f, k, n) && list[k] in size && size[list[k]] < n
    ensures forall i :: 0 <= i < |list| ==> list[i] in size && size[list[i]] < n
  {
    AtStop(ptr, size, list, live, owner, k);
  }

  // ---------------------------------------------------------------- the allocator

  /** malloc's size in headers for a request in bytes. */
  function Units(nbytes: nat): (n: nat)
    ensures n >= 1
  {
    (nbytes + HEADER - 1) / HEADER + 1
  }

  /** The block of a request holds its header and at least the bytes asked for, with less than
    * one header to spare. */
  lemma UnitsSuffice(nbytes: nat)
    ensures (Units(nbytes) - 1) * HEADER >= nbytes
    ensures (Units(nbytes) - 1) * HEADER < nbytes + HEADER
  {
  }

  /** Some free block has n units. */
  ghost predicate FitsIn(freep: int, size: map<int, int>, list: seq<int>, n: int) {
    freep != 0 && exists k :: 0 <= k < |list| && list[k] in size && size[list[k]] >= n
  }

  lemma UnitsIs(nbytes: nat, n: nat)
    requires n == (nbytes + HEADER - 1) / HEADER + 1
    ensures n == Units(nbytes)
  {
  }

  lemma UnitsBound(nbytes: nat)
    requires nbytes <= 0xffff_ffff
    ensures 1 <= Units(nbytes) <= 0x1000_0001
  {
  }

  /** The conversion of sbrk's argument to int. */
  function ToInt(x: nat): int {
    (x + 0x8000_0000) % 0x1_0000_0000 - 0x8000_0000
  }

  /** The units obtained so far lie between base and top. */
  ghost predicate Within(owner: map<int, int>, top: int) {
    forall u :: u in owner ==> BASE < u < top
  }

  lemma WithinKept(owner: map<int, int>, owner': map<int, int>, top: int)
    requires Within(owner, top) && owner'.Keys == owner.Keys
    ensures Within(owner', top)
  {
    assert forall u :: u in owner' ==> u in owner'.Keys;
  }

  /** The number of units morecore asks for. */
  function ChunkUnits(n: nat): nat {
    if n < MIN_CHUNK then MIN_CHUNK else n
  }

  /** sbrk gets at least what morecore meant exactly while the size fits an int. */
  lemma SbrkEnoughIff(n: nat)
    requires n <= 0x1000_0001
    ensures ToInt(ChunkUnits(n) * HEADER) % HEADER == 0
    ensures ChunkUnits(n) <= ToInt(ChunkUnits(n) * HEADER) / HEADER <==> n < 0x800_0000
    ensures n < 0x800_0000 ==> ToInt(ChunkUnits(n) * HEADER) == ChunkUnits(n) * HEADER > 0
  {
  }

  class Heap {
    var ptr: map<int, int>
    var size: map<int, int>
    var freep: int
    /** The end of the process's memory, in units. */
    var brk: int

    ghost var list: seq<int>
    /** Header and size of every block handed out. */
    ghost var live: map<int, int>
    /** The block of every unit obtained so far. */
    ghost var owner: map<int, int>
    /** The end of the memory the allocator believes it has. */
    ghost var top: int

    ghost predicate Valid()
      reads this
    {
      && top > BASE && Within(owner, top)
      && (if freep == 0 then live == map[] && owner == map[] else freep in list && State(ptr, size, list, live, owner))
    }

    /** The memory handed out really belongs to the process. */
    ghost predicate Backed()
      reads this
    {
      top <= brk
    }

    ghost predicate Fits(n: int)
      reads this
    {
      FitsIn(freep, size, list, n)
    }

    constructor (start: int)
      requires start > BASE
      ensures Valid() && Backed() && live == map[] && owner == map[] && freep == 0
    {
      ptr, size, freep, brk := map[], map[], 0, start;
      list, live, owner, top := [BASE], map[], map[], start;
    }

    /** free's loop: it comes round to the gap bp belongs in. */
    method Search(bp: int) returns (p: int, ghost g: nat)
      requires State(ptr, size, list, live, owner) && freep in list && bp > BASE && bp !in list
      ensures Gap(list, g, bp) && p == list[g]
    {
      hide *;
      StateParts(ptr, size, list, live, owner);
      SearchStart(ptr, size, list);
      g := GapExists(list, bp);
      p := freep;
      ghost var k :| 0 <= k < |list| && list[k] == freep;
      ghost var n := |list|;
      SearchTurn(ptr, size, list, bp, g, k);
      while !(bp > p && bp < ptr[p])
        invariant 0 <= k < n && p == list[k] && p in ptr
        invariant bp > p && bp < ptr[p] ==> k == g
        decreases if k <= g then g - k else n - k + g
      {
        SearchTurn(ptr, size, list, bp, g, k);
        if p >= ptr[p] && (bp > p || bp < ptr[p]) {
          break;
        }
        p := ptr[p];
        k := if k + 1 < n then k + 1 else 0;
        SearchTurn(ptr, size, list, bp, g, k);
      }
    }

    /** free. The block's units go back to the free list, which stays merged and in order; no
      * other live block changes. */
    method Free(bp: int)
      requires Valid() && bp in live
      modifies this`ptr, this`size, this`freep, this`list, this`live, this`owner
      ensures Valid() && freep != 0 && live == old(live) - {bp} && owner.Keys == old(owner.Keys)
      ensures Fits(old(live)[bp])
    {
      FreeFacts(ptr, size, list, live, owner, bp);
      hide State, Half, Gap, FitsIn, Within;
      var p;
      ghost var g;
      p, g := Search(bp);
      Rejoin(p, bp, g);
      WithinKept(old(owner), owner, top);
    }

    /** The block at bp goes back into the list behind p. */
    method Rejoin(p: int, bp: int, ghost g: nat)
      requires State(ptr, size, list, live, owner) && bp in live && Gap(list, g, bp) && g < |list| && p == list[g]
      modifies this`ptr, this`size, this`freep, this`list, this`live, this`owner
      ensures State(ptr, size, list, live, owner) && freep == p && freep != 0 && freep in list
      ensures live == old(live) - {bp} && owner.Keys == old(owner.Keys) && Fits(old(live)[bp])
    {
      hide *;
      LinkNext(p, bp, g);
      ghost var n := size[bp];
      LinkBack(p, bp, g);
      FitsLess(n, old(live)[bp]);
    }

    /** The block is joined to the one after it, or linked to it. */
    method LinkNext(p: int, bp: int, ghost g: nat)
      requires State(ptr, size, list, live, owner) && bp in live && Gap(list, g, bp) && g < |list| && p == list[g]
      modifies this`ptr, this`size, this`list, this`live, this`owner
      ensures Half(ptr, size, list, live, owner, p, bp, g)
      ensures live == old(live) - {bp} && owner.Keys == old(owner.Keys) && bp in size && size[bp] >= old(live)[bp]
    {
      hide *;
      FreedFacts(ptr, size, list, live, owner, g, bp);
      var next := ptr[p];
      if bp + size[bp] == next {
        HalfMerged(ptr, size, list, live, owner, g, bp);
        owner := Relabel(owner, next, next + size[next], bp);
        size := size[bp := size[bp] + size[next]];
        ptr := ptr[bp := ptr[next]];
        list := list[g + 1 := bp];
      } else {
        HalfLinked(ptr, size, list, live, owner, g, bp);
        ptr := ptr[bp := next];
        list := Inserted(list, g, bp);
      }
      live := live - {bp};
    }

    lemma FitsHere(k: nat, n: int)
      requires freep != 0 && k < |list| && list[k] in size && size[list[k]] >= n
      ensures Fits(n)
    {
    }

    /** The block before is joined to the freed one, or linked to it. */
    method LinkBack(p: int, bp: int, ghost g: nat)
      requires Half(ptr, size, list, live, owner, p, bp, g) && bp in size
      modifies this`ptr, this`size, this`list, this`owner, this`freep
      ensures State(ptr, size, list, live, owner) && freep == p && p in list && p >= BASE && p != 0
      ensures owner.Keys == old(owner.Keys) && Fits(old(size)[bp])
    {
      hide *;
      HalfIn(ptr, size, list, live, owner, p, bp, g);
      if p + size[p] == bp {
        WholeMerged(ptr, size, list, live, owner, p, bp, g);
        owner := Relabel(owner, bp, bp + size[bp], p);
        size := size[p := size[p] + size[bp]];
        ptr := ptr[p := ptr[bp]];
        list := Dropped(list, g + 1);
        assert list[g] == p;
      } else {
        WholeLinked(ptr, size, list, live, owner, p, bp, g);
        ptr := ptr[p := bp];
        assert list[g + 1] == bp && list[g] == p;
      }
      freep := p;
      OnList(ptr, size, list, live, owner, p);
      FitsHere(if old(size)[p] + p == bp then g else g + 1, old(size)[bp]);
    }

    /** The part of malloc that hands out n units of the free block p, which follows prevp. */
    method Take(prevp: int, p: int, n: nat, ghost k: nat) returns (r: int)
      requires State(ptr, size, list, live, owner) && 0 < k < |list| && list[k] == p && list[k - 1] == prevp
      requires p in size && size[p] >= n >= 1
      modifies this`ptr, this`size, this`freep, this`list, this`live, this`owner
      ensures State(ptr, size, list, live, owner) && freep == prevp && prevp in list && prevp >= BASE
      ensures r > BASE && r !in old(live) && live == old(live)[r := n] && owner.Keys == old(owner.Keys)
    {
      hide *;
      TakeFacts(ptr, size, list, live, owner, k);
      if size[p] == n {
        TakenWhole(ptr, size, list, live, owner, k, n);
        ptr := ptr[prevp := ptr[p]];
        list := Dropped(list, k);
        r := p;
      } else {
        r := p + (size[p] - n);
        TakenTail(ptr, size, list, live, owner, k, r);
        owner := Relabel(owner, r, p + size[p], r);
        size := size[p := size[p] - n];
        size := size[r := n];
      }
      live := live[r := n];
      freep := prevp;
    }

    /** morecore. sbrk converts the size in bytes to an int, so a request of 2^27 units or more
      * gets less memory than its header claims. room says whether the system has that much. */
    method Morecore(n: nat, room: bool) returns (p: int)
      requires Valid() && freep != 0 && Backed() && 1 <= n <= 0x1000_0001
      modifies this
      ensures Valid() && freep != 0 && live == old(live)
      ensures p == 0 <==> ToInt(ChunkUnits(n) * HEADER) > 0 && !room
      ensures p == 0 ==>
                && owner == old(owner) && brk == old(brk) && top == old(top) && list == old(list) && size == old(size)
                && ptr == old(ptr) && freep == old(freep)
      ensures p != 0 ==> p == freep && Fits(n) && owner.Keys == old(owner.Keys) + Chunk(old(brk), ChunkUnits(n)).Keys
      ensures p != 0 ==> (Backed() <==> n < 0x800_0000)
    {
      hide State, Chunk, ToInt, ChunkUnits, FitsIn;
      SbrkEnoughIff(n);
      var nu := if n < MIN_CHUNK then MIN_CHUNK else n;
      NuIs(n, nu);
      var hp := Sbrk(nu, room);
      if hp == -1 {
        return 0;
      }
      Adopt(hp, nu);
      Free(hp);
      FitsLess(nu, n);
      p := freep;
    }

    lemma NuIs(n: nat, nu: nat)
      requires nu == if n < MIN_CHUNK then MIN_CHUNK else n
      ensures nu == ChunkUnits(n) && nu >= n && nu >= 1
    {
    }

    lemma FitsLess(m: int, n: int)
      requires Fits(m) && m >= n
      ensures Fits(n)
    {
    }

    /** sbrk(nu * sizeof(Header)): the old end of memory, or -1. A negative size takes memory away, unless it
      * is more than there is: the new end then wraps around and the old one stays. */
    method Sbrk(nu: nat, room: bool) returns (hp: int)
      modifies this`brk
      ensures hp == (if ToInt(nu * HEADER) > 0 && !room then -1 else old(brk))
      ensures var end := old(brk) + ToInt(nu * HEADER) / HEADER;
              brk == if (ToInt(nu * HEADER) > 0 && !room) || end < 0 then old(brk) else end
    {
      var delta := ToInt(nu * HEADER);
      if delta > 0 && !room {
        return -1;
      }
      hp := brk;
      if brk + delta / HEADER >= 0 {
        brk := brk + delta / HEADER;
      }
    }

    /** Somebody else takes memory from the system: the next chunk will not be adjacent. */
    method GrownElsewhere(n: nat)
      requires Valid() && Backed()
      modifies this`brk
      ensures Valid() && Backed() && brk == old(brk) + n
    {
      brk := brk + n;
    }

    /** The header of the new memory is written: it becomes one block. */
    method Adopt(hp: int, nu: nat)
      requires Valid() && freep != 0 && hp >= top && nu >= 1
      modifies this`size, this`live, this`owner, this`top
      ensures Valid() && hp in live && hp !in old(live) && live == old(live)[hp := nu]
      ensures owner.Keys == old(owner.Keys) + Chunk(hp, nu).Keys && top == hp + nu
    {
      hide State, Chunk;
      NewChunk(ptr, size, list, live, owner, hp, nu, top);
      size := size[hp := nu];
      live := live[hp := nu];
      owner := owner + Chunk(hp, nu);
      top := hp + nu;
    }

    /** malloc's first call sets up base. */
    method Start()
      requires Valid() && freep == 0
      modifies this`ptr, this`size, this`freep, this`list
      ensures Valid() && freep == BASE && list == [BASE] && live == old(live) && owner == old(owner)
      ensures forall n: int :: n >= 1 ==> !Fits(n)
    {
      ptr := ptr[BASE := BASE];
      freep := BASE;
      size := size[BASE := 0];
      list := [BASE];
      assert Blocks(list, live) == {};
    }

    /** malloc. It hands out a block of the right number of units that no live block uses; it asks
      * the system for memory only when no free block is large enough, and fails only when the
      * system refuses. The memory handed out is really there exactly when no chunk of 2^27 units
      * or more had to be asked for. */
    method Malloc(nbytes: nat, room: bool) returns (r: int)
      requires Valid() && Backed() && nbytes <= 0xffff_ffff
      modifies this
      ensures Valid()
      ensures r == 0 <==> !old(Fits(Units(nbytes))) && ToInt(ChunkUnits(Units(nbytes)) * HEADER) > 0 && !room
      ensures r == 0 ==> live == old(live) && owner == old(owner) && brk == old(brk)
      ensures r != 0 ==> r !in old(live) && live == old(live)[r := Units(nbytes)]
      ensures old(Fits(Units(nbytes))) ==> owner.Keys == old(owner.Keys) && brk == old(brk)
      ensures r != 0 && !old(Fits(Units(nbytes))) ==>
                owner.Keys == old(owner.Keys) + Chunk(old(brk), ChunkUnits(Units(nbytes))).Keys
      ensures Backed() <==> old(Fits(Units(nbytes))) || r == 0 || Units(nbytes) < 0x800_0000
    {
      hide State, Chunk, ToInt, ChunkUnits, Units, NoFit, FitsIn;
      UnitsBound(nbytes);
      FitsStarted(Units(nbytes));
      var n := (nbytes + HEADER - 1) / HEADER + 1;
      UnitsIs(nbytes, n);
      if freep == 0 {
        Start();
      }
      var prevp := freep;
      var p;
      ghost var f, k, grown := 0, 0, false;
      f, p, k := FirstStop(n);
      ghost var fits := old(Fits(n));
      while true
        invariant Valid() && freep != 0 && 0 <= f < |list| && list[f] == freep && 0 <= k < |list| && list[k] == p
        invariant list[if k > 0 then k - 1 else |list| - 1] == prevp
        invariant NoFit(size, list, f, k, n)
        invariant live == old(live)
        invariant grown ==>
                    && Fits(n) && !fits && owner.Keys == old(owner.Keys) + Chunk(old(brk), ChunkUnits(n)).Keys
                    && (Backed() <==> n < 0x800_0000)
        invariant grown ==> !(ToInt(ChunkUnits(n) * HEADER) > 0 && !room)
        invariant !grown ==> owner == old(owner) && brk == old(brk) && Backed() && (Fits(n) <==> fits)
        decreases if grown then 0 else 1, if k <= f then f - k else |list| - k + f
      {
        AtStop(ptr, size, list, live, owner, k);
        if size[p] >= n {
          FitsAt(k, n);
          r := Take(prevp, p, n, k);
          return;
        }
        if p == freep {
          NoneFits(ptr, size, list, live, owner, f, k, n);
          FitsNone(n);
          p := Morecore(n, room);
          if p == 0 {
            return 0;
          }
          grown := true;
          prevp := freep;
          f, p, k := FirstStop(n);
        } else {
          NextStop(ptr, size, list, live, owner, f, k, n);
          prevp := p;
          p := ptr[p];
          k := if k + 1 < |list| then k + 1 else 0;
        }
      }
    }

    /** The block after freep, where malloc's search starts. */
    method FirstStop(n: int) returns (ghost f: nat, p: int, ghost k: nat)
      requires Valid() && freep != 0
      ensures f < |list| && list[f] == freep && k < |list| && list[k] == p && NoFit(size, list, f, k, n)
      ensures list[if k > 0 then k - 1 else |list| - 1] == freep
    {
      f :| 0 <= f < |list| && list[f] == freep;
      AtStop(ptr, size, list, live, owner, f);
      p := ptr[freep];
      k := if f + 1 < |list| then f + 1 else 0;
    }

    lemma FitsNone(n: int)
      requires Valid() && freep != 0 && forall i :: 0 <= i < |list| ==> list[i] in size && size[list[i]] < n
      ensures !Fits(n)
    {
    }

    lemma FitsStarted(n: int)
      ensures freep == 0 ==> !Fits(n)
    {
    }

    lemma FitsAt(k: nat, n: int)
      requires Valid() && freep != 0 && k < |list| && list[k] in size && size[list[k]] >= n
      ensures Fits(n)
    {
    }
  }

  lemma SearchStart(ptr: map<int, int>, size: map<int, int>, list: seq<int>)
    requires Ring(ptr, size, list, -1)
    ensures list != [] && list[0] == BASE && forall i, j :: 0 <= i < j < |list| ==> list[i] < list[j]
  {
  }

  /** At position k, free's loop stops exactly when k is the gap. */
  lemma SearchTurn(ptr: map<int, int>, size: map<int, int>, list: seq<int>, bp: int, g: nat, k: nat)
    requires Ring(ptr, size, list, -1) && Gap(list, g, bp) && k < |list| && bp !in list
    ensures list[k] in ptr && ptr[list[k]] == if k + 1 < |list| then list[k + 1] else list[0]
    ensures var p := list[k]; (bp > p && bp < ptr[p]) || (p >= ptr[p] && (bp > p || bp < ptr[p])) <==> k == g
  {
    GapSplits(list, g, bp);
    LinkAt(ptr, list, k);
    Order(list, k);
    assert list[k] in list;
  }

  lemma LinkAt(ptr: map<int, int>, list: seq<int>, k: nat)
    requires Links(ptr, list, -1) && k < |list|
    ensures list[k] in ptr && ptr[list[k]] == if k + 1 < |list| then list[k + 1] else list[0]
  {
  }

  lemma Order(list: seq<int>, k: nat)
    requires Sorted(list) && k < |list|
    ensures list[0] == BASE <= list[k] && (k + 1 < |list| ==> list[k] < list[k + 1])
  {
    assert k > 0 ==> list[0] < list[k];
  }

  lemma LiveFree(size: map<int, int>, list: seq<int>, live: map<int, int>, owner: map<int, int>, bp: int)
    requires LiveOk(size, list, live) && Owned(size, Blocks(list, live), owner) && bp in live
    ensures bp > BASE && bp !in list && bp in size && size[bp] == live[bp] >= 1
  {
    assert bp in Blocks(list, live);
  }

  lemma OnList(ptr: map<int, int>, size: map<int, int>, list: seq<int>, live: map<int, int>, owner: map<int, int>,
               p: int)
    requires State(ptr, size, list, live, owner) && p in list
    ensures p >= BASE && p != 0 && p in size && p in ptr
  {
    var k :| 0 <= k < |list| && list[k] == p;
    Order(list, k);
  }

  lemma GapAbove(list: seq<int>, g: nat, bp: int)
    requires Gap(list, g, bp) && Sorted(list)
    ensures g < |list| && bp > BASE
  {
    Order(list, g);
  }

  lemma AtGap(ptr: map<int, int>, size: map<int, int>, list: seq<int>, g: nat)
    requires Ring(ptr, size, list, -1) && g < |list|
    ensures list[g] in ptr && list[g] in size && ptr[list[g]] == After(list, g) && BASE <= list[g]
    ensures ptr[list[g]] in ptr && ptr[list[g]] in size
    ensures After(list, g) == if g + 1 < |list| then list[g + 1] else BASE
    ensures g + 1 < |list| ==> ptr[ptr[list[g]]] == After(list, g + 1)
  {
    LinkAt(ptr, list, g);
    Order(list, g);
    if g + 1 < |list| {
      LinkAt(ptr, list, g + 1);
    }
  }

  /** The free block at k is a block, not a live one. */
  lemma AfterFree(ptr: map<int, int>, size: map<int, int>, list: seq<int>, live: map<int, int>, owner: map<int, int>,
                  k: nat)
    requires Ring(ptr, size, list, -1) && LiveOk(size, list, live) && 0 < k < |list|
    ensures list[k] in Blocks(list, live) && list[k] !in live && list[k] > BASE && list[k] in size
    ensures forall a :: a in live ==> a in Blocks(list, live)
  {
    Order(list, 0);
    assert list[0] < list[k];
  }

  lemma LiveLinked(size: map<int, int>, list: seq<int>, live: map<int, int>, g: nat, bp: int)
    requires LiveOk(size, list, live) && bp in live && g < |list|
    ensures LiveOk(size, Inserted(list, g, bp), live - {bp})
  {
    assert list == list[..g + 1] + list[g + 1..];
    assert forall x :: x in Inserted(list, g, bp) <==> x in list || x == bp;
  }

  lemma HalfFacts(ptr: map<int, int>, size: map<int, int>, list: seq<int>, live: map<int, int>, owner: map<int, int>,
                  g: nat)
    requires Ring(ptr, size, list, g) && g + 1 < |list| && LiveOk(size, list, live)
    requires Owned(size, Blocks(list, live), owner)
    requires list[g] + size[list[g]] <= list[g + 1]
    ensures Sorted(list) && list[g] + size[list[g]] == list[g + 1] ==> g > 0 && list[g] in Blocks(list, live)
    ensures list[g + 1] in Blocks(list, live) && list[g + 1] !in live && size[list[g + 1]] >= 1
    ensures list[g + 1] in ptr && ptr[list[g + 1]] == After(list, g + 1)
    ensures g > 0 ==> size[list[g]] >= 1
    ensures g < |Dropped(list, g + 1)| && Dropped(list, g + 1)[g] == list[g]
  {
    Order(list, g);
    DroppedAt(list, g + 1, g);
    assert g > 0 ==> list[0] < list[g];
    assert list[0] < list[g + 1];
  }

  /** malloc hands out a block whose memory the process does not have: sbrk takes the size for a negative one. */
  method BeyondBreak(start: int, nbytes: nat, room: bool) returns (h: Heap, r: int)
    requires start > BASE && 0x7fff_ffe1 <= nbytes <= 0xffff_fff0
    ensures h.Valid() && r != 0 && r in h.live && !h.Backed()
  {
    hide State, Chunk, NoFit, FitsIn;
    h := new Heap(start);
    SizeNegative(nbytes);
    h.FitsStarted(Units(nbytes));
    r := h.Malloc(nbytes, room);
  }

  lemma SizeNegative(nbytes: nat)
    requires 0x7fff_ffe1 <= nbytes <= 0xffff_fff0
    ensures Units(nbytes) >= 0x800_0000 && ToInt(ChunkUnits(Units(nbytes)) * HEADER) <= 0
  {
  }
}
