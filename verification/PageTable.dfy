/** Three-level page tables (kernel/vm.c; Sv39, section 4.4 of the RISC-V Privileged Architecture)
  * as partial maps from virtual page numbers to entries. Physical pages are known by number. */
module PageTable {
  import opened Blocks

  const PGSIZE: nat := 4096
  const ENTRIES: nat := 512
  /** MAXVA in pages. */
  const MAXPAGES: nat := 0x400_0000

  /** A page-table entry: PTE2PA and PTE_FLAGS of the 64-bit word. */
  datatype Pte = Pte(ppn: nat, flags: nat)
  {
    /** PTE_V, PTE_R, PTE_W and PTE_U. */
    predicate V() { flags % 2 == 1 }
    predicate R() { flags / 2 % 2 == 1 }
    predicate W() { flags / 4 % 2 == 1 }
    predicate U() { flags / 16 % 2 == 1 }
  }

  const NO_PTE := Pte(0, 0)

  type Table = s: seq<Pte> | |s| == ENTRIES witness seq(ENTRIES, _ => NO_PTE)
  type Page = s: seq<byte> | |s| == PGSIZE witness seq(PGSIZE, _ => 0)

  function ZeroTable(): (z: Table)
    ensures forall k :: 0 <= k < ENTRIES ==> z[k] == NO_PTE
  {
    seq(ENTRIES, _ => NO_PTE)
  }

  // ---------------------------------------------------------------- addresses

  /** PX: the index of a virtual address at a level. */
  function PX(level: nat, va: nat): (x: nat)
    requires level <= 2
    ensures x < ENTRIES
  {
    va / (if level == 0 then 0x1000 else if level == 1 then 0x20_0000 else 0x4000_0000) % ENTRIES
  }

  /** The three indices of a virtual page. */
  datatype Path = Path(i: nat, j: nat, k: nat)

  function PathOf(n: nat): (q: Path)
    ensures q.i < ENTRIES && q.j < ENTRIES && q.k < ENTRIES
  {
    Path(n / 0x4_0000 % ENTRIES, n / 0x200 % ENTRIES, n % ENTRIES)
  }

  /** The indices walk uses for an address are those of its page. */
  lemma PathOfAddress(va: nat)
    ensures PathOf(va / PGSIZE) == Path(PX(2, va), PX(1, va), PX(0, va))
  {
    assert va / 0x1000 / 0x4_0000 == va / 0x4000_0000;
    assert va / 0x1000 / 0x200 == va / 0x20_0000;
  }

  /** Distinct pages below MAXVA take distinct paths. */
  lemma PathInjective(m: nat, n: nat)
    requires m < MAXPAGES && n < MAXPAGES && PathOf(m) == PathOf(n)
    ensures m == n
  {
    Recomposed(m);
    Recomposed(n);
  }

  lemma Recomposed(n: nat)
    requires n < MAXPAGES
    ensures n == PathOf(n).i * 0x4_0000 + PathOf(n).j * 0x200 + PathOf(n).k
  {
    var h := n / 0x200;
    assert n == h * 0x200 + n % 0x200;
    assert h == h / 0x200 * 0x200 + h % 0x200;
    assert h / 0x200 == n / 0x4_0000 < ENTRIES;
  }

  // ---------------------------------------------------------------- one tree

  /** The shape of a page table: its root, the table behind each root entry, and the leaf table
    * behind each pair of indices. */
  datatype Tree = Tree(root: nat, mid: map<nat, nat>, leaf: map<(nat, nat), nat>)

  /** The entries of the upper levels, and which tables exist. */
  ghost predicate TreeOk(tables: map<nat, Table>, t: Tree) {
    && t.root in tables
    && (forall i :: i in t.mid ==> i < ENTRIES && t.mid[i] in tables && tables[t.root][i] == Pte(t.mid[i], 1))
    && (forall i :: 0 <= i < ENTRIES && tables[t.root][i].V() ==> i in t.mid)
    && (forall i, j :: (i, j) in t.leaf ==>
          i in t.mid && j < ENTRIES && t.leaf[(i, j)] in tables && tables[t.mid[i]][j] == Pte(t.leaf[(i, j)], 1))
    && (forall i, j :: i in t.mid && 0 <= j < ENTRIES && tables[t.mid[i]][j].V() ==> (i, j) in t.leaf)
  }

  /** No table is used twice. */
  ghost predicate Unshared(t: Tree) {
    && (forall i :: i in t.mid ==> t.mid[i] != t.root)
    && (forall b :: b in t.leaf ==> t.leaf[b] != t.root)
    && (forall i, b :: i in t.mid && b in t.leaf ==> t.mid[i] != t.leaf[b])
    && (forall i, j :: i in t.mid && j in t.mid && i != j ==> t.mid[i] != t.mid[j])
    && (forall a, b :: a in t.leaf && b in t.leaf && a != b ==> t.leaf[a] != t.leaf[b])
  }

  function Pages(t: Tree): set<nat> {
    {t.root} + t.mid.Values + t.leaf.Values
  }

  /** The entry for virtual page n, NO_PTE when there is no table for it. */
  function Entry(tables: map<nat, Table>, t: Tree, n: nat): Pte {
    var q := PathOf(n);
    if (q.i, q.j) in t.leaf && t.leaf[(q.i, q.j)] in tables then tables[t.leaf[(q.i, q.j)]][q.k] else NO_PTE
  }

  /** tables and tree before and after agree on every entry. */
  ghost predicate SameEntries(tables: map<nat, Table>, t: Tree, tables': map<nat, Table>, t': Tree) {
    forall n: nat :: n < MAXPAGES ==> Entry(tables', t', n) == Entry(tables, t, n)
  }

  /** Page p becomes an empty table, and entry x of page refers to it. */
  function Linked(tables: map<nat, Table>, page: nat, x: nat, p: nat): map<nat, Table>
    requires page in tables && x < ENTRIES
  {
    tables[p := ZeroTable()][page := tables[page][x := Pte(p, 1)]]
  }

  function WithMid(t: Tree, i: nat, p: nat): Tree {
    t.(mid := t.mid[i := p])
  }

  function WithLeaf(t: Tree, i: nat, j: nat, p: nat): Tree {
    t.(leaf := t.leaf[(i, j) := p])
  }

  /** A new second-level table changes no entry. */
  lemma GrowMid(tables: map<nat, Table>, t: Tree, i: nat, p: nat)
    requires TreeOk(tables, t) && Unshared(t) && i < ENTRIES && !tables[t.root][i].V() && p !in tables
    ensures TreeOk(Linked(tables, t.root, i, p), WithMid(t, i, p)) && Unshared(WithMid(t, i, p))
    ensures SameEntries(tables, t, Linked(tables, t.root, i, p), WithMid(t, i, p))
  {
    assert i !in t.mid;
    hide Pte.V;
    GrowMidTree(tables, t, i, p);
    GrowMidEntries(tables, t, i, p);
    hide SameEntries;
  }

  lemma GrowMidTree(tables: map<nat, Table>, t: Tree, i: nat, p: nat)
    requires TreeOk(tables, t) && Unshared(t) && i < ENTRIES && i !in t.mid && p !in tables
    ensures TreeOk(Linked(tables, t.root, i, p), WithMid(t, i, p))
  {
    hide Pte.V;
    FreshEntries();
  }

  /** A table that has just been zeroed holds no valid entry. */
  lemma FreshEntries()
    ensures !NO_PTE.V()
  {
  }

  lemma GrowMidEntries(tables: map<nat, Table>, t: Tree, i: nat, p: nat)
    requires TreeOk(tables, t) && Unshared(t) && i < ENTRIES && i !in t.mid && p !in tables
    ensures SameEntries(tables, t, Linked(tables, t.root, i, p), WithMid(t, i, p))
  {
    hide PathOf, Pte.V;
  }

  /** A new leaf table changes no entry: its entries are all invalid, as before. */
  lemma GrowLeaf(tables: map<nat, Table>, t: Tree, i: nat, j: nat, p: nat)
    requires TreeOk(tables, t) && Unshared(t) && i in t.mid && j < ENTRIES && !tables[t.mid[i]][j].V() && p !in tables
    ensures TreeOk(Linked(tables, t.mid[i], j, p), WithLeaf(t, i, j, p)) && Unshared(WithLeaf(t, i, j, p))
    ensures SameEntries(tables, t, Linked(tables, t.mid[i], j, p), WithLeaf(t, i, j, p))
  {
    assert (i, j) !in t.leaf;
    hide Pte.V;
    GrowLeafTree(tables, t, i, j, p);
    GrowLeafEntries(tables, t, i, j, p);
    hide SameEntries;
  }

  lemma GrowLeafTree(tables: map<nat, Table>, t: Tree, i: nat, j: nat, p: nat)
    requires TreeOk(tables, t) && Unshared(t) && i in t.mid && j < ENTRIES && p !in tables
    ensures TreeOk(Linked(tables, t.mid[i], j, p), WithLeaf(t, i, j, p))
  {
  }

  lemma GrowLeafEntries(tables: map<nat, Table>, t: Tree, i: nat, j: nat, p: nat)
    requires TreeOk(tables, t) && Unshared(t) && i in t.mid && j < ENTRIES && (i, j) !in t.leaf && p !in tables
    ensures SameEntries(tables, t, Linked(tables, t.mid[i], j, p), WithLeaf(t, i, j, p))
  {
    hide PathOf, Pte.V;
  }

  ghost predicate PutOnly(tables: map<nat, Table>, t: Tree, tables': map<nat, Table>, n: nat, pte: Pte) {
    forall m: nat :: m < MAXPAGES ==> Entry(tables', t, m) == if m == n then pte else Entry(tables, t, m)
  }

  /** Writing the entry of page n changes that entry alone. */
  lemma PutEntry(tables: map<nat, Table>, t: Tree, n: nat, pte: Pte)
    requires TreeOk(tables, t) && Unshared(t) && n < MAXPAGES && (PathOf(n).i, PathOf(n).j) in t.leaf
    ensures var q := PathOf(n);
            var p := t.leaf[(q.i, q.j)];
            var tables' := tables[p := tables[p][q.k := pte]];
            && TreeOk(tables', t)
            && PutOnly(tables, t, tables', n, pte)
  {
    hide PathOf;
    var q := PathOf(n);
    var p := t.leaf[(q.i, q.j)];
    var tables' := tables[p := tables[p][q.k := pte]];
    forall m: nat | m < MAXPAGES
      ensures Entry(tables', t, m) == if m == n then pte else Entry(tables, t, m)
    {
      if PathOf(m) == q {
        PathInjective(m, n);
      }
    }
  }

  /** Changes outside its pages do not concern a tree. */
  lemma Elsewhere(tables: map<nat, Table>, tables': map<nat, Table>, t: Tree)
    requires TreeOk(tables, t) && forall p :: p in Pages(t) && p in tables ==> p in tables' && tables'[p] == tables[p]
    ensures TreeOk(tables', t) && SameEntries(tables, t, tables', t)
  {
    hide PathOf;
  }

  // ---------------------------------------------------------------- many trees in one memory

  /** The page tables of all processes: each well formed, no two sharing a table. */
  ghost predicate Forest(tables: map<nat, Table>, trees: map<nat, Tree>) {
    && (forall r :: r in trees ==> trees[r].root == r && TreeOk(tables, trees[r]) && Unshared(trees[r]))
    && (forall r, s :: r in trees && s in trees && r != s ==> Pages(trees[r]) !! Pages(trees[s]))
  }

  /** Where every physical page is: page tables, user frames and the free list do not overlap. */
  ghost predicate PagesOk(tables: map<nat, Table>, data: map<nat, Page>, free: seq<nat>) {
    && tables.Keys !! data.Keys && 0 !in tables && 0 !in data
    && (forall p :: p in free ==> p != 0 && p !in tables && p !in data)
    && Distinct(free)
  }

  /** No page table's entries change. */
  ghost predicate Kept(tables: map<nat, Table>, trees: map<nat, Tree>, tables': map<nat, Table>,
                       trees': map<nat, Tree>)
  {
    trees'.Keys == trees.Keys && forall r :: r in trees ==> SameEntries(tables, trees[r], tables', trees'[r])
  }

  lemma PagesIn(tables: map<nat, Table>, t: Tree)
    requires TreeOk(tables, t)
    ensures forall p :: p in Pages(t) ==> p in tables
  {
    forall p | p in Pages(t)
      ensures p in tables
    {
      if p in t.mid.Values {
        var i :| i in t.mid && t.mid[i] == p;
      } else if p in t.leaf.Values {
        var b :| b in t.leaf && t.leaf[b] == p;
        assert (b.0, b.1) in t.leaf;
      }
    }
  }

  /** A change confined to tree r, and at most one fresh page p, leaves the other trees alone. */
  lemma ForestAfter(tables: map<nat, Table>, trees: map<nat, Tree>, r: nat, tables': map<nat, Table>, t': Tree, p: nat)
    requires Forest(tables, trees) && r in trees && t'.root == r && TreeOk(tables', t') && Unshared(t')
    requires Pages(t') <= Pages(trees[r]) + {p} && (p in Pages(trees[r]) || p !in tables)
    requires forall q :: q in tables && q !in Pages(trees[r]) && q != p ==> q in tables' && tables'[q] == tables[q]
    ensures Forest(tables', trees[r := t'])
    ensures forall s :: s in trees && s != r ==> SameEntries(tables, trees[s], tables', trees[s])
  {
    hide Pages, Unshared, TreeOk, SameEntries;
    forall s | s in trees && s != r
      ensures TreeOk(tables', trees[s]) && SameEntries(tables, trees[s], tables', trees[s])
      ensures Pages(trees[s]) !! Pages(t')
    {
      PagesIn(tables, trees[s]);
      assert Pages(trees[r]) !! Pages(trees[s]);
      Elsewhere(tables, tables', trees[s]);
    }
  }

  class Memory {
    var tables: map<nat, Table>
    var data: map<nat, Page>
    /** kalloc's free list. */
    var free: seq<nat>
    ghost var trees: map<nat, Tree>

    ghost predicate Valid()
      reads this
    {
      PagesOk(tables, data, free) && Forest(tables, trees)
    }

    constructor (pages: seq<nat>)
      requires Distinct(pages) && 0 !in pages
      ensures Valid() && tables == map[] && data == map[] && trees == map[] && free == pages
    {
      tables, data, free, trees := map[], map[], pages, map[];
    }

    /** kalloc; 0 when memory is used up. */
    method Kalloc() returns (p: nat)
      requires Valid()
      modifies this`free
      ensures Valid() && (p == 0 <==> old(free) == [])
      ensures p == 0 ==> free == []
      ensures p != 0 ==> p == old(free)[0] && free == old(free)[1..] && p !in free && p !in tables && p !in data
    {
      hide Forest;
      if free == [] {
        return 0;
      }
      p := free[0];
      Popped(free);
      free := free[1..];
    }

    lemma Popped(free: seq<nat>)
      requires Distinct(free) && free != []
      ensures Distinct(free[1..]) && free[0] !in free[1..] && free[0] in free
      ensures forall q :: q in free[1..] ==> q in free
    {
    }

    /** One level of walk. */
    method Descend(root: nat, level: nat, page: nat, va: nat, alloc: bool) returns (next: nat)
      requires Valid() && root in trees && 1 <= level <= 2 && At(tables, trees[root], level, va, page)
      modifies this`tables, this`free, this`trees
      ensures Valid() && root in trees && Kept(old(tables), old(trees), tables, trees)
      ensures free == old(free) || (old(free) != [] && free == old(free)[1..])
      ensures next != 0 ==> At(tables, trees[root], level - 1, va, next)
      ensures !alloc ==> tables == old(tables) && trees == old(trees) && free == old(free)
      ensures next == 0 ==>
                && tables == old(tables) && trees == old(trees) && free == old(free) && (alloc ==> free == [])
                && Missing(trees[root], va)
    {
      hide PX, Pages, SameEntries, Kept, At, Missing, Forest, GrownTree, Linked;
      var x := PX(level, va);
      AtTable(tables, trees, root, level, va, page);
      NoChange(tables, trees);
      var pte := tables[page][x];
      if pte.V() {
        return pte.ppn;
      }
      if !alloc {
        return 0;
      }
      var p := Kalloc();
      if p == 0 {
        return 0;
      }
      Grown(tables, trees, root, level, va, page, p);
      PagesLinked(tables, data, free, page, x, p);
      trees := trees[root := GrownTree(trees[root], level, va, p)];
      tables := LinkPage(tables, page, x, p);
      next := p;
    }

    /** walk below MAXVA. It returns the leaf table and index for va; allocating, it changes no
      * existing translation, and fails only when memory is used up. */
    method Walk(root: nat, va: nat, alloc: bool) returns (page: nat, x: nat)
      requires Valid() && root in trees && va / PGSIZE < MAXPAGES
      modifies this`tables, this`free, this`trees
      ensures Valid() && root in trees && Kept(old(tables), old(trees), tables, trees)
      ensures Tail(free, old(free))
      ensures !alloc ==> tables == old(tables) && trees == old(trees) && free == old(free)
      ensures !alloc ==> (page == 0 <==> Missing(trees[root], va))
      ensures alloc && page == 0 ==> free == []
      ensures page != 0 ==> x == PX(0, va) && At(tables, trees[root], 0, va, page) && page in tables
    {
      hide PX, At, Missing, Forest, PagesOk, Kept;
      page := root;
      AtRoot(tables, trees, root, va);
      NoChange(tables, trees);
      var level := 2;
      while level > 0
        invariant 0 <= level <= 2 && Valid() && root in trees && At(tables, trees[root], level, va, page)
        invariant Kept(old(tables), old(trees), tables, trees) && Tail(free, old(free))
        invariant !alloc ==> tables == old(tables) && trees == old(trees) && free == old(free)
      {
        ghost var was, wasTrees := tables, trees;
        page := Descend(root, level, page, va, alloc);
        KeptTwice(old(tables), old(trees), was, wasTrees, tables, trees);
        if page == 0 {
          return 0, 0;
        }
        level := level - 1;
      }
      AtLeaf(tables, trees, data, free, root, va, page);
      x := PX(0, va);
    }

    /** *pte = pte for the leaf entry of page n that walk has found. */
    method SetPte(root: nat, n: nat, page: nat, x: nat, pte: Pte)
      requires Valid() && root in trees && n < MAXPAGES && At(tables, trees[root], 0, n * PGSIZE, page)
      requires x == PX(0, n * PGSIZE)
      modifies this`tables
      ensures Valid() && Changed(old(tables), trees, tables, root, n, pte)
    {
      hide PX, At, Forest, PagesOk, Changed;
      PutIn(tables, trees, data, free, root, n, page, x, pte);
      tables := tables[page := tables[page][x := pte]];
    }

    /** mappages, within the conditions it panics without: pages from va on now map to pages from
      * pa on, and no other translation of any table changes. When memory runs out, done says how
      * many pages had been mapped. */
    method MapPages(root: nat, va: nat, size: nat, pa: nat, perm: nat) returns (ok: bool, ghost done: nat)
      requires Valid() && root in trees && va % PGSIZE == 0 && size % PGSIZE == 0 && size != 0
      requires (va + size) / PGSIZE <= MAXPAGES
      requires forall n: nat :: va / PGSIZE <= n < (va + size) / PGSIZE ==> !Entry(tables, trees[root], n).V()
      modifies this`tables, this`free, this`trees
      ensures Valid() && root in trees && Tail(free, old(free))
      ensures done <= size / PGSIZE && (ok <==> done == size / PGSIZE) && (!ok ==> free == [])
      ensures Span(old(tables), old(trees), tables, trees, root, va / PGSIZE, Mapping(pa / PGSIZE, done, perm))
    {
      hide PX, At, Forest, PagesOk, Kept, Changed, Span, Missing, Entry, Mapping;
      var a, last, p := va, va + size - PGSIZE, pa;
      done := 0;
      SpanNone(tables, trees, root, va / PGSIZE, pa / PGSIZE, perm);
      while true
        invariant Valid() && root in trees && Tail(free, old(free))
        invariant a == va + done * PGSIZE && p == pa + done * PGSIZE && 0 <= done < size / PGSIZE
        invariant Span(old(tables), old(trees), tables, trees, root, va / PGSIZE, Mapping(pa / PGSIZE, done, perm))
        decreases size / PGSIZE - done
      {
        var more := MapOne(root, a, p, perm, old(tables), old(trees), va / PGSIZE, pa / PGSIZE, done);
        if !more {
          return false, done;
        }
        done := done + 1;
        if a == last {
          break;
        }
        a := a + PGSIZE;
        p := p + PGSIZE;
      }
      ok := true;
    }

    /** One turn of mappages. */
    method MapOne(root: nat, a: nat, p: nat, perm: nat, ghost tables0: map<nat, Table>, ghost trees0: map<nat, Tree>,
                  ghost lo: nat, ghost ppn: nat, ghost done: nat)
      returns (ok: bool)
      requires Valid() && root in trees && a == (lo + done) * PGSIZE && p / PGSIZE == ppn + done && lo + done < MAXPAGES
      requires root in trees0 && !Entry(tables0, trees0[root], lo + done).V()
      requires Span(tables0, trees0, tables, trees, root, lo, Mapping(ppn, done, perm))
      modifies this`tables, this`free, this`trees
      ensures Valid() && root in trees && Tail(free, old(free)) && (!ok ==> free == [])
      ensures Span(tables0, trees0, tables, trees, root, lo, Mapping(ppn, if ok then done + 1 else done, perm))
    {
      hide PX, At, Forest, PagesOk, Kept, Changed, Span, Missing, Entry, Mapping;
      ghost var n := lo + done;
      var page, x := Walk(root, a, true);
      SpanKept(tables0, trees0, old(tables), old(trees), tables, trees, root, lo, Mapping(ppn, done, perm));
      if page == 0 {
        return false;
      }
      EntryAt(tables, trees, root, n, page, x);
      SpanFresh(tables0, trees0, tables, trees, root, lo, ppn, done, perm);
      if tables[page][x].V() {
        assert false;
      } else {
        ghost var was := tables;
        SetPte(root, a / PGSIZE, page, x, Pte(p / PGSIZE, OrV(perm)));
        SpanMapped(tables0, trees0, was, tables, trees, root, lo, ppn, done, perm);
        ok := true;
      }
    }

    /** copyout: done bytes of src reach the user's pages from dst on, each page's in its own
      * frame, and nothing else changes; it stops before the first page the user may not write. */
    method CopyOut(root: nat, dst: nat, src: seq<byte>) returns (ok: bool, ghost done: nat)
      requires Valid() && root in trees && UserBacked(tables, trees[root], data, dst, |src|)
      requires Injective(tables, trees[root], dst, |src|)
      modifies this
      ensures Valid() && tables == old(tables) && trees == old(trees) && free == old(free)
      ensures UserBacked(tables, trees[root], data, dst, |src|)
      ensures done <= |src| && (ok <==> done == |src|) && Stored(tables, trees[root], old(data), data, dst, src, done)
      ensures forall a :: dst <= a < dst + done ==> Writable(tables, trees[root], a)
      ensures !ok ==> !Writable(tables, trees[root], dst + done)
    {
      hide Forest, PagesOk, Writable, Stored, Injective, UserBacked, Entry;
      done := 0;
      var pos := 0;
      StoredNone(tables, trees[root], data, dst, src);
      while pos < |src|
        invariant 0 <= pos == done <= |src| && Valid() && tables == old(tables) && trees == old(trees)
        invariant free == old(free)
        invariant UserBacked(tables, trees[root], data, dst, |src|)
        invariant Stored(tables, trees[root], old(data), data, dst, src, done)
        invariant forall a :: dst <= a < dst + done ==> Writable(tables, trees[root], a)
        invariant pos < |src| ==> pos == 0 || (dst + pos) % PGSIZE == 0
      {
        var n := CopyOutPage(root, dst, src, pos, old(data));
        if n == 0 {
          return false, done;
        }
        pos := pos + n;
        done := pos;
      }
      ok := true;
    }

    /** One turn of copyout: the n bytes up to the end of a page; 0 when the page may not be written. */
    method CopyOutPage(root: nat, dst: nat, src: seq<byte>, pos: nat, ghost data0: map<nat, Page>) returns (n: nat)
      requires Valid() && root in trees && UserBacked(tables, trees[root], data, dst, |src|) && pos < |src|
      requires Injective(tables, trees[root], dst, |src|) && Stored(tables, trees[root], data0, data, dst, src, pos)
      requires pos == 0 || (dst + pos) % PGSIZE == 0
      requires forall a :: dst <= a < dst + pos ==> Writable(tables, trees[root], a)
      modifies this
      ensures Valid() && tables == old(tables) && trees == old(trees) && free == old(free)
      ensures UserBacked(tables, trees[root], data, dst, |src|) && pos + n <= |src|
      ensures n == 0 ==> !Writable(tables, trees[root], dst + pos)
      ensures Stored(tables, trees[root], data0, data, dst, src, pos + n)
      ensures forall a :: dst <= a < dst + pos + n ==> Writable(tables, trees[root], a)
      ensures pos + n < |src| && n > 0 ==> (dst + pos + n) % PGSIZE == 0
    {
      hide Forest, PagesOk, Stored, Injective, UserBacked, Entry, EntryOf, Writable, Readable, Patched;
      var va := dst + pos;
      var pte := UserPte(root, va, true);
      if pte == NO_PTE {
        return 0;
      }
      n := ChunkSize(va, |src| - pos);
      SameUserPage(tables, trees[root], data, va, n);
      Frame(root, dst, |src|, va);
      ghost var was := data;
      data := data[pte.ppn := Patched(data[pte.ppn], va % PGSIZE, src[pos..pos + n])];
      StoredMore(tables, trees[root], data0, was, data, dst, src, pos, n);
      SameFrames(tables, trees[root], was, data, free, dst, |src|);
    }

    /** How much of len bytes from va lies in va's page. */
    method ChunkSize(va: nat, len: nat) returns (n: nat)
      requires len > 0
      ensures 0 < n <= len && va % PGSIZE + n <= PGSIZE && (n < len ==> (va + n) % PGSIZE == 0)
    {
      var va0 := va / PGSIZE * PGSIZE;
      n := PGSIZE - (va - va0);
      if n > len {
        n := len;
      }
    }

    /** The user's leaf entry for va's page, if it may be read or, asked so, written; else NO_PTE. */
    method UserPte(root: nat, va: nat, write: bool) returns (pte: Pte)
      requires Valid() && root in trees
      modifies this`tables, this`trees, this`free
      ensures Valid() && tables == old(tables) && trees == old(trees) && free == old(free)
      ensures pte != NO_PTE <==> if write then Writable(tables, trees[root], va) else Readable(tables, trees[root], va)
      ensures pte != NO_PTE ==> pte == EntryOf(tables, trees[root], va)
    {
      hide Forest, PagesOk, Entry, PX, At, Missing;
      var va0 := va / PGSIZE * PGSIZE;
      if va0 / PGSIZE >= MAXPAGES {
        return NO_PTE;
      }
      var page, x := Walk(root, va0, false);
      if page == 0 {
        MissingEntry(tables, trees[root], va / PGSIZE);
        return NO_PTE;
      }
      EntryAt(tables, trees, root, va / PGSIZE, page, x);
      pte := tables[page][x];
      if !pte.V() || !pte.U() || (write && !pte.W()) {
        return NO_PTE;
      }
    }

    lemma Frame(root: nat, va: nat, len: nat, a: nat)
      requires Valid() && root in trees && UserBacked(tables, trees[root], data, va, len)
      requires va <= a < va + len && Readable(tables, trees[root], a)
      ensures EntryOf(tables, trees[root], a).ppn in data
    {
    }

    /** copyin. */
    method CopyIn(root: nat, src: nat, len: nat) returns (ok: bool, dst: seq<byte>)
      requires Valid() && root in trees && UserBacked(tables, trees[root], data, src, len)
      modifies this`tables, this`trees, this`free
      ensures Valid() && tables == old(tables) && trees == old(trees) && free == old(free)
      ensures |dst| <= len && (ok <==> |dst| == len) && Fetched(tables, trees[root], data, src, dst)
      ensures !ok ==> !Readable(tables, trees[root], src + |dst|)
    {
      hide Forest, PagesOk, UserBacked, Entry, EntryOf, Readable, Fetched;
      dst := [];
      FetchedNone(tables, trees[root], data, src);
      while |dst| < len
        invariant |dst| <= len && Valid() && tables == old(tables) && trees == old(trees) && free == old(free)
        invariant Fetched(tables, trees[root], data, src, dst)
        decreases len - |dst|
      {
        var va := src + |dst|;
        var pte := UserPte(root, va, false);
        if pte == NO_PTE {
          return false, dst;
        }
        var n := ChunkSize(va, len - |dst|);
        SameUserPage(tables, trees[root], data, va, n);
        Frame(root, src, len, va);
        var o := va % PGSIZE;
        FetchedMore(tables, trees[root], data, src, dst, data[pte.ppn][o..o + n]);
        dst := dst + data[pte.ppn][o..o + n];
      }
      ok := true;
    }

    /** What copyout wrote, copyin reads back, across page boundaries. */
    method RoundTrip(root: nat, va: nat, src: seq<byte>) returns (ok: bool, back: seq<byte>)
      requires Valid() && root in trees && UserBacked(tables, trees[root], data, va, |src|)
      requires Injective(tables, trees[root], va, |src|)
      modifies this
      ensures ok <==> forall a :: va <= a < va + |src| ==> Writable(old(tables), old(trees)[root], a)
      ensures ok ==> back == src
    {
      hide Forest, PagesOk, UserBacked, Entry, EntryOf, Fetched, Stored, Injective, Readable;
      ghost var done;
      back := [];
      ok, done := CopyOut(root, va, src);
      if ok {
        ghost var t := trees[root];
        assert forall a :: va <= a < va + |src| ==> Readable(tables, t, a) by {
          WritableReadable(tables, t, va, |src|);
        }
        var readBack;
        readBack, back := CopyIn(root, va, |src|);
        ReadsBack(tables, t, old(data), data, va, src, back);
      }
    }

    // -------------------------------------------------------------- removing and copying mappings

    /** uvmcreate: an empty page table; 0 when memory is used up. */
    method Create() returns (root: nat)
      requires Valid()
      modifies this`tables, this`free, this`trees
      ensures Valid() && (root == 0 <==> old(free) == [])
      ensures root == 0 ==> tables == old(tables) && trees == old(trees) && free == old(free)
      ensures root != 0 ==> root !in old(trees) && trees.Keys == old(trees).Keys + {root} && free == old(free)[1..]
      ensures root != 0 ==> forall n: nat :: Entry(tables, trees[root], n) == NO_PTE
      ensures forall r :: r in old(trees) ==> r in trees && SameEntries(old(tables), old(trees)[r], tables, trees[r])
    {
      hide Forest, PagesOk, SameEntries, Entry;
      KeptAll(tables, trees);
      root := Kalloc();
      if root == 0 {
        return;
      }
      Planted(tables, trees, root);
      PagesPlanted(tables, data, free, root);
      tables := tables[root := ZeroTable()];
      trees := trees[root := Tree(root, map[], map[])];
    }

    /** kfree of a user frame. */
    method Kfree(p: nat)
      requires PagesOk(tables, data, free) && p in data
      modifies this`data, this`free
      ensures PagesOk(tables, data, free) && data == old(data) - {p} && free == [p] + old(free)
    {
      data := data - {p};
      free := [p] + free;
    }

    /** uvmunmap: every mapped page in the range is unmapped, and with doFree its frame freed; no
      * other translation of any table changes. */
    method UnmapPages(root: nat, va: nat, npages: nat, doFree: bool)
      requires Valid() && root in trees && va % PGSIZE == 0 && va / PGSIZE + npages <= MAXPAGES
      requires doFree ==> Owns(data, Range(tables, trees[root], va / PGSIZE, npages))
      modifies this
      ensures Valid() && trees == old(trees)
      ensures Span(old(tables), trees, tables, trees, root, va / PGSIZE,
                   Cleared(Range(old(tables), trees[root], va / PGSIZE, npages)))
      ensures data == if doFree then old(data) - Frames(Range(old(tables), trees[root], va / PGSIZE, npages))
                      else old(data)
      ensures doFree ==> forall p :: p in Frames(Range(old(tables), trees[root], va / PGSIZE, npages)) ==> p in free
    {
      hide Forest, PagesOk, Span, Cleared, Frames, Entry, Owns;
      ghost var lo := va / PGSIZE;
      ghost var all := Range(tables, trees[root], lo, npages);
      ghost var k := 0;
      var a := va;
      NothingCleared(tables, trees, root, lo, all, data);
      while a < va + npages * PGSIZE
        invariant 0 <= k <= npages && a == va + k * PGSIZE && Valid() && trees == old(trees)
        invariant Span(old(tables), trees, tables, trees, root, lo, Cleared(all[..k]))
        invariant data == if doFree then old(data) - Frames(all[..k]) else old(data)
        invariant doFree ==> forall p :: p in Frames(all[..k]) ==> p in free
        decreases npages - k
      {
        UnmapOne(root, a, doFree, old(tables), old(data), lo, all, k);
        k := k + 1;
        a := a + PGSIZE;
      }
      assert all[..k] == all;
    }

    /** One turn of uvmunmap. */
    method UnmapOne(root: nat, a: nat, doFree: bool, ghost tables0: map<nat, Table>, ghost data0: map<nat, Page>,
                    ghost lo: nat, ghost all: seq<Pte>, ghost k: nat)
      requires Valid() && root in trees && k < |all| && a == (lo + k) * PGSIZE && lo + k < MAXPAGES
      requires all[k] == Entry(tables0, trees[root], lo + k)
      requires Span(tables0, trees, tables, trees, root, lo, Cleared(all[..k]))
      requires doFree ==> Owns(data0, all)
      requires data == if doFree then data0 - Frames(all[..k]) else data0
      requires doFree ==> forall p :: p in Frames(all[..k]) ==> p in free
      modifies this
      ensures Valid() && trees == old(trees)
      ensures Span(tables0, trees, tables, trees, root, lo, Cleared(all[..k + 1]))
      ensures data == if doFree then data0 - Frames(all[..k + 1]) else data0
      ensures doFree ==> forall p :: p in Frames(all[..k + 1]) ==> p in free
    {
      hide Forest, PagesOk, Span, Cleared, Frames, Entry, Owns, At, Missing, PX, Changed;
      var page, x := Walk(root, a, false);
      ClearedNext(tables0, tables, trees, root, lo, all, k, data0);
      if page == 0 {
        MissingEntry(tables, trees[root], lo + k);
        return;
      }
      EntryAt(tables, trees, root, lo + k, page, x);
      var pte := tables[page][x];
      if !pte.V() || pte.flags == 1 {
        return;
      }
      if doFree {
        FrameOwned(data0, all, k);
        Kfree(pte.ppn);
      }
      ghost var was := tables;
      SetPte(root, a / PGSIZE, page, x, NO_PTE);
      SpanPush(tables0, trees, was, tables, trees, root, lo, Cleared(all[..k]), NO_PTE);
    }

    /** uvmcopy of the first sz bytes, within the conditions it panics without. On success each
      * page of the child has the parent's contents and flags in a fresh frame of its own, and no
      * other translation or frame changes. On failure the copies made so far are unmapped and given
      * back, except those of entries with no flag but PTE_V, which uvmunmap passes over: they stay
      * mapped and in use. */
    method UvmCopy(parent: nat, child: nat, sz: nat) returns (ok: bool, ghost copied: seq<nat>)
      requires Valid() && parent in trees && child in trees && parent != child && PagesFor(sz) <= MAXPAGES
      requires Present(data, Range(tables, trees[parent], 0, PagesFor(sz)))
      requires forall n: nat :: n < PagesFor(sz) ==> !Entry(tables, trees[child], n).V()
      modifies this
      ensures Valid() && child in trees && |copied| <= PagesFor(sz) && (ok <==> |copied| == PagesFor(sz))
      ensures ok ==> Copies(old(tables), old(trees), old(data), tables, trees, data, parent, child, copied)
      ensures !ok ==>
                var es := Range(old(tables), old(trees)[parent], 0, |copied|);
                && Span(old(tables), old(trees), tables, trees, child, 0, Cleared(Onto(es, copied)))
                && LeftBehind(old(data), data, es, copied)
      ensures !ok && (forall e :: e in Range(old(tables), old(trees)[parent], 0, PagesFor(sz)) ==> Leaf(e)) ==>
        data == old(data) && Span(old(tables), old(trees), tables, trees, child, 0, seq(|copied|, _ => NO_PTE))
    {
      hide Forest, PagesOk, Span, Entry, Copies, Present, Cleared, Onto, LeftBehind, Frames, Owns,
        Leaf;
      copied := [];
      ghost var want := Range(tables, trees[parent], 0, PagesFor(sz));
      NothingCopied(tables, trees, data, parent, child);
      var i := 0;
      while i < sz
        invariant i == |copied| * PGSIZE && |copied| <= PagesFor(sz)
        invariant Valid() && parent in trees && child in trees
        invariant Copies(old(tables), old(trees), old(data), tables, trees, data, parent, child, copied)
        decreases PagesFor(sz) - |copied|
      {
        var p := CopyOne(parent, child, i, old(tables), old(trees), old(data), want, copied);
        if p == 0 {
          CopiesOwn(old(tables), old(trees), old(data), tables, trees, data, parent, child, copied);
          ghost var was, wasTrees, wasData := tables, trees, data;
          UnmapPages(child, 0, i / PGSIZE, true);
          CopiesUndone(old(tables), old(trees), old(data), was, wasTrees, wasData, tables, parent, child, want, copied);
          return false, copied;
        }
        copied := copied + [p];
        i := i + PGSIZE;
      }
      ok := true;
    }

    /** One turn of uvmcopy; 0 when memory is used up. */
    method CopyOne(parent: nat, child: nat, i: nat, ghost tables0: map<nat, Table>, ghost trees0: map<nat, Tree>,
                   ghost data0: map<nat, Page>, ghost want: seq<Pte>, ghost copied: seq<nat>)
      returns (p: nat)
      requires Valid() && parent in trees && child in trees && parent != child && parent in trees0 && child in trees0
      requires |copied| < |want| <= MAXPAGES && i == |copied| * PGSIZE
      requires want == Range(tables0, trees0[parent], 0, |want|) && Present(data0, want)
      requires !Entry(tables0, trees0[child], |copied|).V()
      requires Copies(tables0, trees0, data0, tables, trees, data, parent, child, copied)
      modifies this
      ensures Valid() && parent in trees && child in trees
      ensures Copies(tables0, trees0, data0, tables, trees, data, parent, child,
                     if p == 0 then copied else copied + [p])
    {
      hide Forest, PagesOk, Span, Entry, Copies, Present, At, PX, Missing, Mapping, Onto, Kept, Leaf;
      ghost var n := |copied|;
      CopyFacts(tables0, trees0, data0, tables, trees, data, parent, child, want, copied);
      var page, x := Walk(parent, i, false);
      if page == 0 {
        MissingEntry(tables, trees[parent], n);
        assert false;
      } else {
        EntryAt(tables, trees, parent, n, page, x);
        var pte := tables[page][x];
        ghost var before := data;
        p := Kalloc();
        if p == 0 {
          return 0;
        }
        FrameAdded(tables, data, free, p, data[pte.ppn]);
        data := data[p := data[pte.ppn]];
        ghost var was, wasTrees := tables, trees;
        var ok, done := MapPages(child, i, PGSIZE, p * PGSIZE, pte.flags);
        if !ok {
          NotMapped(tables0, trees0, data0, was, wasTrees, before, tables, trees, parent, child, copied, p, pte.flags);
          Kfree(p);
          assert data == before;
          return 0;
        }
        CopiesMore(tables0, trees0, data0, was, wasTrees, before, tables, trees, parent, child, want, copied, p);
      }
    }
  }

  /** The walk for va has reached page with this many levels to go. */
  ghost predicate At(tables: map<nat, Table>, t: Tree, level: nat, va: nat, page: nat) {
    if level == 2 then page == t.root
    else if level == 1 then PX(2, va) in t.mid && page == t.mid[PX(2, va)]
    else (PX(2, va), PX(1, va)) in t.leaf && page == t.leaf[(PX(2, va), PX(1, va))]
  }

  predicate Missing(t: Tree, va: nat) {
    (PX(2, va), PX(1, va)) !in t.leaf
  }

  lemma AtTable(tables: map<nat, Table>, trees: map<nat, Tree>, r: nat, level: nat, va: nat, page: nat)
    requires Forest(tables, trees) && r in trees && 1 <= level <= 2 && At(tables, trees[r], level, va, page)
    ensures page in tables
    ensures var pte := tables[page][PX(level, va)];
            && (pte.V() ==> At(tables, trees[r], level - 1, va, pte.ppn) && pte.ppn in tables)
            && (!pte.V() ==> Missing(trees[r], va))
  {
    hide PX;
  }

  function GrownTree(t: Tree, level: nat, va: nat, p: nat): Tree
    requires 1 <= level <= 2
  {
    if level == 2 then WithMid(t, PX(2, va), p) else WithLeaf(t, PX(2, va), PX(1, va), p)
  }

  lemma PagesLinked(tables: map<nat, Table>, data: map<nat, Page>, free: seq<nat>, page: nat, x: nat, p: nat)
    requires PagesOk(tables, data, free) && page in tables && x < ENTRIES && p != 0 && p !in data && p !in free
    ensures PagesOk(Linked(tables, page, x, p), data, free)
  {
  }

  method LinkPage(tables: map<nat, Table>, page: nat, x: nat, p: nat) returns (r: map<nat, Table>)
    requires page in tables && x < ENTRIES && p != page
    ensures r == Linked(tables, page, x, p)
  {
    r := tables[p := ZeroTable()];
    r := r[page := r[page][x := Pte(p, 1)]];
  }

  lemma NoChange(tables: map<nat, Table>, trees: map<nat, Tree>)
    ensures Kept(tables, trees, tables, trees)
  {
  }

  lemma Grown(tables: map<nat, Table>, trees: map<nat, Tree>, r: nat, level: nat, va: nat, page: nat, p: nat)
    requires Forest(tables, trees) && r in trees && 1 <= level <= 2 && At(tables, trees[r], level, va, page)
    requires page in tables && !tables[page][PX(level, va)].V() && p !in tables
    ensures var t' := GrownTree(trees[r], level, va, p);
            var tables' := Linked(tables, page, PX(level, va), p);
            && Forest(tables', trees[r := t']) && Kept(tables, trees, tables', trees[r := t'])
            && At(tables', t', level - 1, va, p)
  {
    hide PX, SameEntries, TreeOk, Unshared, Pages, Linked;
    var t, x := trees[r], PX(level, va);
    if level == 2 {
      GrowMid(tables, t, x, p);
    } else {
      GrowLeaf(tables, t, PX(2, va), x, p);
    }
    GrownPages(tables, t, level, va, page, p);
    ForestAfter(tables, trees, r, Linked(tables, page, x, p), GrownTree(t, level, va, p), p);
  }

  lemma GrownPages(tables: map<nat, Table>, t: Tree, level: nat, va: nat, page: nat, p: nat)
    requires 1 <= level <= 2 && At(tables, t, level, va, page) && page in tables
    ensures Pages(GrownTree(t, level, va, p)) <= Pages(t) + {p}
    ensures forall q :: q in tables && q !in Pages(t) && q != p ==>
      q in Linked(tables, page, PX(level, va), p) && Linked(tables, page, PX(level, va), p)[q] == tables[q]
  {
    hide PX;
    assert page in Pages(t);
  }

  /** free is what is left of a longer free list. */
  predicate Tail(free: seq<nat>, longer: seq<nat>) {
    |free| <= |longer| && free == longer[|longer| - |free|..]
  }

  lemma AtRoot(tables: map<nat, Table>, trees: map<nat, Tree>, r: nat, va: nat)
    requires Forest(tables, trees) && r in trees
    ensures At(tables, trees[r], 2, va, r)
  {
  }

  lemma AtLeaf(tables: map<nat, Table>, trees: map<nat, Tree>, data: map<nat, Page>, free: seq<nat>, r: nat, va: nat,
               page: nat)
    requires Forest(tables, trees) && PagesOk(tables, data, free) && r in trees && At(tables, trees[r], 0, va, page)
    ensures page in tables && page != 0 && !Missing(trees[r], va)
  {
    hide PX;
  }

  lemma KeptTwice(tables: map<nat, Table>, trees: map<nat, Tree>, tables1: map<nat, Table>, trees1: map<nat, Tree>,
                  tables2: map<nat, Table>, trees2: map<nat, Tree>)
    requires Kept(tables, trees, tables1, trees1) && Kept(tables1, trees1, tables2, trees2)
    ensures Kept(tables, trees, tables2, trees2)
  {
    hide Entry;
  }

  // ---------------------------------------------------------------- ranges of entries

  /** Entry n of tree r becomes pte; every other entry of every tree stays. */
  ghost predicate Changed(tables: map<nat, Table>, trees: map<nat, Tree>, tables': map<nat, Table>, r: nat, n: nat,
                          pte: Pte) {
    forall s, m: nat :: s in trees && m < MAXPAGES ==>
      Entry(tables', trees[s], m) == if s == r && m == n then pte else Entry(tables, trees[s], m)
  }

  /** Entries of tree r from page lo on become want; every other entry of every tree stays. */
  ghost predicate Span(tables: map<nat, Table>, trees: map<nat, Tree>, tables': map<nat, Table>, trees': map<nat, Tree>,
                       r: nat, lo: nat, want: seq<Pte>) {
    trees'.Keys == trees.Keys && forall s, m: nat :: s in trees && m < MAXPAGES ==>
      Entry(tables', trees'[s], m)
        == if s == r && lo <= m < lo + |want| then want[m - lo] else Entry(tables, trees[s], m)
  }

  /** perm | PTE_V. */
  function OrV(perm: nat): nat {
    if perm % 2 == 1 then perm else perm + 1
  }

  /** k entries for consecutive physical pages. */
  function Mapping(ppn: nat, k: nat, perm: nat): (m: seq<Pte>)
    ensures |m| == k && forall i :: 0 <= i < k ==> m[i] == Pte(ppn + i, OrV(perm))
  {
    seq(k, i requires 0 <= i < k => Pte(ppn + i, OrV(perm)))
  }

  lemma PutIn(tables: map<nat, Table>, trees: map<nat, Tree>, data: map<nat, Page>, free: seq<nat>, r: nat, n: nat,
              page: nat, x: nat, pte: Pte)
    requires Forest(tables, trees) && PagesOk(tables, data, free) && r in trees && n < MAXPAGES
    requires At(tables, trees[r], 0, n * PGSIZE, page) && x == PX(0, n * PGSIZE)
    ensures page in tables
    ensures var tables' := tables[page := tables[page][x := pte]];
            PagesOk(tables', data, free) && Forest(tables', trees) && Changed(tables, trees, tables', r, n, pte)
  {
    hide *;
    AtLeaf(tables, trees, data, free, r, n * PGSIZE, page);
    var t, tables' := trees[r], tables[page := tables[page][x := pte]];
    OfForest(tables, trees, r);
    PutHere(tables, t, n, page, x, pte);
    ForestAfter(tables, trees, r, tables', t, page);
    assert trees[r := t] == trees;
    ChangedFrom(tables, trees, tables', r, n, pte);
    PagesPut(tables, data, free, page, x, pte);
  }

  lemma OfForest(tables: map<nat, Table>, trees: map<nat, Tree>, r: nat)
    requires Forest(tables, trees) && r in trees
    ensures TreeOk(tables, trees[r]) && Unshared(trees[r]) && trees[r].root == r
  {
  }

  lemma PutHere(tables: map<nat, Table>, t: Tree, n: nat, page: nat, x: nat, pte: Pte)
    requires TreeOk(tables, t) && Unshared(t) && n < MAXPAGES && At(tables, t, 0, n * PGSIZE, page) && page in tables
    requires x == PX(0, n * PGSIZE)
    ensures TreeOk(tables[page := tables[page][x := pte]], t) && page in Pages(t)
    ensures PutOnly(tables, t, tables[page := tables[page][x := pte]], n, pte)
  {
    PathOfAddress(n * PGSIZE);
    hide PX, PathOf, TreeOk, Unshared, Entry;
    PutEntry(tables, t, n, pte);
  }

  lemma ChangedFrom(tables: map<nat, Table>, trees: map<nat, Tree>, tables': map<nat, Table>, r: nat, n: nat, pte: Pte)
    requires r in trees && forall s :: s in trees && s != r ==> SameEntries(tables, trees[s], tables', trees[s])
    requires PutOnly(tables, trees[r], tables', n, pte)
    ensures Changed(tables, trees, tables', r, n, pte)
  {
    hide Entry;
  }

  lemma PagesPut(tables: map<nat, Table>, data: map<nat, Page>, free: seq<nat>, page: nat, x: nat, pte: Pte)
    requires PagesOk(tables, data, free) && page in tables && x < ENTRIES
    ensures PagesOk(tables[page := tables[page][x := pte]], data, free)
  {
    assert tables[page := tables[page][x := pte]].Keys == tables.Keys;
  }

  lemma EntryAt(tables: map<nat, Table>, trees: map<nat, Tree>, r: nat, n: nat, page: nat, x: nat)
    requires r in trees && At(tables, trees[r], 0, n * PGSIZE, page) && page in tables && x == PX(0, n * PGSIZE)
    ensures tables[page][x] == Entry(tables, trees[r], n)
  {
    PathOfAddress(n * PGSIZE);
    hide PX, PathOf;
  }

  lemma SpanNone(tables: map<nat, Table>, trees: map<nat, Tree>, r: nat, lo: nat, ppn: nat, perm: nat)
    ensures Span(tables, trees, tables, trees, r, lo, Mapping(ppn, 0, perm))
  {
    hide Entry;
  }

  lemma SpanKept(tables: map<nat, Table>, trees: map<nat, Tree>, tables1: map<nat, Table>, trees1: map<nat, Tree>,
                 tables2: map<nat, Table>, trees2: map<nat, Tree>, r: nat, lo: nat, want: seq<Pte>)
    requires Span(tables, trees, tables1, trees1, r, lo, want) && Kept(tables1, trees1, tables2, trees2)
    ensures Span(tables, trees, tables2, trees2, r, lo, want)
  {
    hide Entry;
  }

  lemma SpanFresh(tables: map<nat, Table>, trees: map<nat, Tree>, tables1: map<nat, Table>, trees1: map<nat, Tree>,
                  r: nat, lo: nat, ppn: nat, done: nat, perm: nat)
    requires Span(tables, trees, tables1, trees1, r, lo, Mapping(ppn, done, perm)) && r in trees && lo + done < MAXPAGES
    ensures r in trees1 && Entry(tables1, trees1[r], lo + done) == Entry(tables, trees[r], lo + done)
  {
    hide Entry;
  }

  lemma SpanPush(tables: map<nat, Table>, trees: map<nat, Tree>, tables1: map<nat, Table>, tables2: map<nat, Table>,
                 trees1: map<nat, Tree>, r: nat, lo: nat, want: seq<Pte>, pte: Pte)
    requires Span(tables, trees, tables1, trees1, r, lo, want) && Changed(tables1, trees1, tables2, r, lo + |want|, pte)
    ensures Span(tables, trees, tables2, trees1, r, lo, want + [pte])
  {
    hide Entry;
  }

  lemma SpanMapped(tables: map<nat, Table>, trees: map<nat, Tree>, tables1: map<nat, Table>, tables2: map<nat, Table>,
                   trees1: map<nat, Tree>, r: nat, lo: nat, ppn: nat, done: nat, perm: nat)
    requires Span(tables, trees, tables1, trees1, r, lo, Mapping(ppn, done, perm))
    requires Changed(tables1, trees1, tables2, r, lo + done, Pte(ppn + done, OrV(perm)))
    ensures Span(tables, trees, tables2, trees1, r, lo, Mapping(ppn, done + 1, perm))
  {
    SpanPush(tables, trees, tables1, tables2, trees1, r, lo, Mapping(ppn, done, perm), Pte(ppn + done, OrV(perm)));
    assert Mapping(ppn, done + 1, perm) == Mapping(ppn, done, perm) + [Pte(ppn + done, OrV(perm))];
  }

  // ---------------------------------------------------------------- user memory

  function EntryOf(tables: map<nat, Table>, t: Tree, va: nat): Pte {
    Entry(tables, t, va / PGSIZE)
  }

  predicate Readable(tables: map<nat, Table>, t: Tree, va: nat) {
    va / PGSIZE < MAXPAGES && EntryOf(tables, t, va).V() && EntryOf(tables, t, va).U()
  }

  predicate Writable(tables: map<nat, Table>, t: Tree, va: nat) {
    Readable(tables, t, va) && EntryOf(tables, t, va).W()
  }

  /** Of len bytes from va, those the user can read are user memory. */
  ghost predicate UserBacked(tables: map<nat, Table>, t: Tree, data: map<nat, Page>, va: nat, len: nat) {
    forall a :: va <= a < va + len && Readable(tables, t, a) ==> EntryOf(tables, t, a).ppn in data
  }

  /** Different user pages among len bytes from va have different frames. */
  ghost predicate Injective(tables: map<nat, Table>, t: Tree, va: nat, len: nat) {
    forall a, b | va <= a < b < va + len && a / PGSIZE != b / PGSIZE ::
      Readable(tables, t, a) && Readable(tables, t, b) ==> EntryOf(tables, t, a).ppn != EntryOf(tables, t, b).ppn
  }

  function Patched(page: Page, o: nat, chunk: seq<byte>): (r: Page)
    requires o + |chunk| <= PGSIZE
    ensures forall k :: 0 <= k < PGSIZE ==> r[k] == if o <= k < o + |chunk| then chunk[k - o] else page[k]
  {
    page[..o] + chunk + page[o + |chunk|..]
  }

  /** The first done bytes of src are in the frames behind dst, and nothing else has changed. */
  ghost predicate Stored(tables: map<nat, Table>, t: Tree, data: map<nat, Page>, data': map<nat, Page>, dst: nat,
                         src: seq<byte>, done: nat)
    requires done <= |src|
  {
    && data'.Keys == data.Keys
    && (forall a :: dst <= a < dst + done ==>
          var p := EntryOf(tables, t, a).ppn;
          p in data' && data'[p][a % PGSIZE] == src[a - dst])
    && (forall p, o :: p in data && 0 <= o < PGSIZE && data'[p][o] != data[p][o] ==>
          exists a :: dst <= a < dst + done && EntryOf(tables, t, a).ppn == p && a % PGSIZE == o)
  }

  lemma StoredNone(tables: map<nat, Table>, t: Tree, data: map<nat, Page>, dst: nat, src: seq<byte>)
    ensures Stored(tables, t, data, data, dst, src, 0)
  {
  }

  lemma MissingEntry(tables: map<nat, Table>, t: Tree, n: nat)
    requires Missing(t, n * PGSIZE)
    ensures Entry(tables, t, n) == NO_PTE
  {
    PathOfAddress(n * PGSIZE);
    hide PX, PathOf;
  }

  /** Addresses in one page share their entry. */
  lemma SameUserPage(tables: map<nat, Table>, t: Tree, data: map<nat, Page>, va: nat, n: nat)
    requires va % PGSIZE + n <= PGSIZE
    ensures forall a :: va <= a < va + n ==> a / PGSIZE == va / PGSIZE && a % PGSIZE == va % PGSIZE + (a - va)
    ensures forall a :: va <= a < va + n ==> (Writable(tables, t, a) <==> Writable(tables, t, va))
    ensures Writable(tables, t, va) ==> Readable(tables, t, va)
  {
    hide Entry;
    forall a | va <= a < va + n
      ensures a / PGSIZE == va / PGSIZE && a % PGSIZE == va % PGSIZE + (a - va)
    {
    }
  }

  lemma WritableReadable(tables: map<nat, Table>, t: Tree, va: nat, len: nat)
    requires forall a :: va <= a < va + len ==> Writable(tables, t, a)
    ensures forall a :: va <= a < va + len ==> Readable(tables, t, a)
  {
    hide Readable;
    forall a | va <= a < va + len
      ensures Readable(tables, t, a)
    {
      assert Writable(tables, t, a);
    }
  }

  lemma SameFrames(tables: map<nat, Table>, t: Tree, data: map<nat, Page>, data': map<nat, Page>, free: seq<nat>,
                   va: nat, len: nat)
    requires data'.Keys == data.Keys
    ensures PagesOk(tables, data, free) ==> PagesOk(tables, data', free)
    ensures UserBacked(tables, t, data, va, len) ==> UserBacked(tables, t, data', va, len)
  {
  }

  /** One more page of src: no earlier byte was in its frame. */
  lemma StoredMore(tables: map<nat, Table>, t: Tree, data0: map<nat, Page>, data: map<nat, Page>, data': map<nat, Page>,
                   dst: nat, src: seq<byte>, pos: nat, n: nat)
    requires pos + n <= |src| && Stored(tables, t, data0, data, dst, src, pos) && Injective(tables, t, dst, |src|)
    requires 0 < n && (dst + pos) % PGSIZE + n <= PGSIZE && (pos == 0 || (dst + pos) % PGSIZE == 0)
    requires forall a :: dst <= a < dst + pos + n ==> Writable(tables, t, a)
    requires var p := EntryOf(tables, t, dst + pos).ppn;
             p in data && data' == data[p := Patched(data[p], (dst + pos) % PGSIZE, src[pos..pos + n])]
    ensures Stored(tables, t, data0, data', dst, src, pos + n)
  {
    hide Entry;
    var p, v := EntryOf(tables, t, dst + pos).ppn, dst + pos;
    var o := v % PGSIZE;
    SameUserPage(tables, t, data, v, n);
    hide EntryOf, Writable, Readable;
    StoredBytes(tables, t, data0, data, data', dst, src, pos, n, p);
    forall q, i | q in data0 && 0 <= i < PGSIZE && data'[q][i] != data0[q][i]
      ensures exists a :: dst <= a < dst + pos + n && EntryOf(tables, t, a).ppn == q && a % PGSIZE == i
    {
      if data[q][i] != data0[q][i] {
        var a :| dst <= a < dst + pos && EntryOf(tables, t, a).ppn == q && a % PGSIZE == i;
      } else {
        var a := v + (i - o);
        assert a % PGSIZE == i && EntryOf(tables, t, a).ppn == q;
      }
    }
  }

  lemma StoredBytes(tables: map<nat, Table>, t: Tree, data0: map<nat, Page>, data: map<nat, Page>,
                    data': map<nat, Page>, dst: nat, src: seq<byte>, pos: nat, n: nat, p: nat)
    requires pos + n <= |src| && Stored(tables, t, data0, data, dst, src, pos) && Injective(tables, t, dst, |src|)
    requires 0 < n && (dst + pos) % PGSIZE + n <= PGSIZE && (pos == 0 || (dst + pos) % PGSIZE == 0)
    requires forall a :: dst <= a < dst + pos + n ==> Writable(tables, t, a)
    requires p == EntryOf(tables, t, dst + pos).ppn && p in data
    requires data' == data[p := Patched(data[p], (dst + pos) % PGSIZE, src[pos..pos + n])]
    ensures forall a :: dst <= a < dst + pos + n ==>
          var q := EntryOf(tables, t, a).ppn;
          q in data' && data'[q][a % PGSIZE] == src[a - dst]
  {
    hide Entry;
    var v := dst + pos;
    SameUserPage(tables, t, data, v, n);
    forall a | dst <= a < dst + pos + n
      ensures var q := EntryOf(tables, t, a).ppn; q in data' && data'[q][a % PGSIZE] == src[a - dst]
    {
      assert Writable(tables, t, a) && Writable(tables, t, v);
      if a < v {
        assert a / PGSIZE != v / PGSIZE;
        assert EntryOf(tables, t, a).ppn != p;
      } else {
        assert a / PGSIZE == v / PGSIZE && a % PGSIZE == v % PGSIZE + (a - v);
        assert src[pos..pos + n][a - v] == src[a - dst];
      }
    }
  }

  /** dst holds the bytes behind src. */
  ghost predicate Fetched(tables: map<nat, Table>, t: Tree, data: map<nat, Page>, src: nat, dst: seq<byte>) {
    forall a :: src <= a < src + |dst| ==>
      var p := EntryOf(tables, t, a).ppn;
      p in data && dst[a - src] == data[p][a % PGSIZE]
  }

  lemma FetchedNone(tables: map<nat, Table>, t: Tree, data: map<nat, Page>, src: nat)
    ensures Fetched(tables, t, data, src, [])
  {
  }

  lemma FetchedMore(tables: map<nat, Table>, t: Tree, data: map<nat, Page>, src: nat, dst: seq<byte>, chunk: seq<byte>)
    requires Fetched(tables, t, data, src, dst) && (src + |dst|) % PGSIZE + |chunk| <= PGSIZE
    requires var va := src + |dst|;
             var p := EntryOf(tables, t, va).ppn;
             p in data && chunk == data[p][va % PGSIZE..va % PGSIZE + |chunk|]
    ensures Fetched(tables, t, data, src, dst + chunk)
  {
    hide Entry;
    var va := src + |dst|;
    SameUserPage(tables, t, data, va, |chunk|);
    forall a | src <= a < va + |chunk|
      ensures var p := EntryOf(tables, t, a).ppn; p in data && (dst + chunk)[a - src] == data[p][a % PGSIZE]
    {
      if a >= va {
        assert (dst + chunk)[a - src] == chunk[a - va];
      }
    }
  }

  lemma ReadsBack(tables: map<nat, Table>, t: Tree, data0: map<nat, Page>, data: map<nat, Page>, va: nat,
                  src: seq<byte>, back: seq<byte>)
    requires Stored(tables, t, data0, data, va, src, |src|) && Fetched(tables, t, data, va, back) && |back| == |src|
    ensures back == src
  {
    hide Entry, EntryOf;
    forall k | 0 <= k < |src|
      ensures back[k] == src[k]
    {
      assert EntryOf(tables, t, va + k).ppn in data;
    }
  }

  // ---------------------------------------------------------------- unmapping

  lemma Planted(tables: map<nat, Table>, trees: map<nat, Tree>, p: nat)
    requires Forest(tables, trees) && p !in tables
    ensures var t := Tree(p, map[], map[]);
            var tables' := tables[p := ZeroTable()];
            && p !in trees && Forest(tables', trees[p := t]) && (forall n: nat :: Entry(tables', t, n) == NO_PTE)
            && forall r :: r in trees ==> SameEntries(tables, trees[r], tables', trees[r])
  {
    hide PathOf, TreeOk, Unshared, SameEntries, Pages, Entry;
    var t, tables' := Tree(p, map[], map[]), tables[p := ZeroTable()];
    EmptyTree(tables', p);
    forall r | r in trees
      ensures r != p && TreeOk(tables', trees[r]) && SameEntries(tables, trees[r], tables', trees[r])
      ensures Pages(trees[r]) !! Pages(t)
    {
      PagesIn(tables, trees[r]);
      RootIn(trees[r]);
      Elsewhere(tables, tables', trees[r]);
    }
  }

  lemma PagesPlanted(tables: map<nat, Table>, data: map<nat, Page>, free: seq<nat>, p: nat)
    requires PagesOk(tables, data, free) && p != 0 && p !in free && p !in data
    ensures PagesOk(tables[p := ZeroTable()], data, free)
  {
  }

  lemma KeptAll(tables: map<nat, Table>, trees: map<nat, Tree>)
    ensures forall r :: r in trees ==> SameEntries(tables, trees[r], tables, trees[r])
  {
  }

  lemma RootIn(t: Tree)
    ensures t.root in Pages(t)
  {
  }

  lemma EmptyTree(tables: map<nat, Table>, p: nat)
    requires p in tables && tables[p] == ZeroTable()
    ensures var t := Tree(p, map[], map[]);
            TreeOk(tables, t) && Unshared(t) && Pages(t) == {p} && forall n: nat :: Entry(tables, t, n) == NO_PTE
  {
    hide PathOf;
  }

  /** The entries of pages lo to lo + k. */
  function Range(tables: map<nat, Table>, t: Tree, lo: nat, k: nat): (r: seq<Pte>)
    ensures |r| == k && forall i :: 0 <= i < k ==> r[i] == Entry(tables, t, lo + i)
  {
    seq(k, i requires 0 <= i < k => Entry(tables, t, lo + i))
  }

  /** A mapped page: uvmunmap passes over invalid entries and over ones with no other flag. */
  predicate Leaf(e: Pte) {
    e.V() && e.flags != 1
  }

  function Cleared(es: seq<Pte>): (r: seq<Pte>)
    ensures |r| == |es| && forall i :: 0 <= i < |es| ==> r[i] == if Leaf(es[i]) then NO_PTE else es[i]
  {
    seq(|es|, i requires 0 <= i < |es| => if Leaf(es[i]) then NO_PTE else es[i])
  }

  function Frames(es: seq<Pte>): set<nat> {
    set i | 0 <= i < |es| && Leaf(es[i]) :: es[i].ppn
  }

  /** The mapped pages have frames of their own. */
  ghost predicate Owns(data: map<nat, Page>, es: seq<Pte>) {
    && (forall i :: 0 <= i < |es| && Leaf(es[i]) ==> es[i].ppn in data)
    && (forall i, j :: 0 <= i < j < |es| && Leaf(es[i]) && Leaf(es[j]) ==> es[i].ppn != es[j].ppn)
  }

  lemma NothingCleared(tables: map<nat, Table>, trees: map<nat, Tree>, r: nat, lo: nat, all: seq<Pte>,
                       data: map<nat, Page>)
    ensures Span(tables, trees, tables, trees, r, lo, Cleared(all[..0])) && Frames(all[..0]) == {} && data - {} == data
  {
    hide Entry;
  }

  /** What clearing entry k adds. */
  lemma ClearedNext(tables0: map<nat, Table>, tables: map<nat, Table>, trees: map<nat, Tree>, r: nat, lo: nat,
                    all: seq<Pte>, k: nat, data: map<nat, Page>)
    requires r in trees && k < |all| && lo + k < MAXPAGES && all[k] == Entry(tables0, trees[r], lo + k)
    requires Span(tables0, trees, tables, trees, r, lo, Cleared(all[..k]))
    ensures Entry(tables, trees[r], lo + k) == all[k] && |Cleared(all[..k])| == k
    ensures Cleared(all[..k + 1]) == Cleared(all[..k]) + [if Leaf(all[k]) then NO_PTE else all[k]]
    ensures Frames(all[..k + 1]) == Frames(all[..k]) + if Leaf(all[k]) then {all[k].ppn} else {}
    ensures !Leaf(all[k]) ==> Span(tables0, trees, tables, trees, r, lo, Cleared(all[..k + 1]))
    ensures forall p :: data - Frames(all[..k]) - {p} == data - (Frames(all[..k]) + {p})
  {
    hide Entry, Leaf;
    assert all[..k + 1] == all[..k] + [all[k]];
    forall p: nat
      ensures data - Frames(all[..k]) - {p} == data - (Frames(all[..k]) + {p})
    {
    }
  }

  lemma FrameOwned(data: map<nat, Page>, all: seq<Pte>, k: nat)
    requires Owns(data, all) && k < |all| && Leaf(all[k])
    ensures all[k].ppn in data && all[k].ppn !in Frames(all[..k])
  {
    hide Leaf;
  }

  // ---------------------------------------------------------------- uvmcopy

  function PagesFor(sz: nat): (n: nat)
    ensures sz <= n * PGSIZE < sz + PGSIZE
  {
    (sz + PGSIZE - 1) / PGSIZE
  }

  /** Every entry is valid and refers to a user frame. */
  ghost predicate Present(data: map<nat, Page>, es: seq<Pte>) {
    forall i :: 0 <= i < |es| ==> es[i].V() && es[i].ppn in data
  }

  /** The child's entries: the parent's flags over the copies. */
  function Onto(es: seq<Pte>, copied: seq<nat>): (r: seq<Pte>)
    requires |es| == |copied|
    ensures |r| == |es| && forall i :: 0 <= i < |es| ==> r[i] == Pte(copied[i], es[i].flags)
  {
    seq(|es|, i requires 0 <= i < |es| => Pte(copied[i], es[i].flags))
  }

  /** Frames made, all different and new, each with the contents of its original; the others are as they were. */
  ghost predicate CopiedFrames(data0: map<nat, Page>, data: map<nat, Page>, es: seq<Pte>, copied: seq<nat>) {
    && |es| == |copied| && Distinct(copied)
    && data.Keys == data0.Keys + (set p | p in copied)
    && (forall p :: p in data0 ==> data[p] == data0[p])
    && (forall i :: 0 <= i < |copied| ==>
          copied[i] !in data0 && es[i].ppn in data0 && data[copied[i]] == data0[es[i].ppn])
  }

  /** The first pages of the parent have been copied to fresh frames that the child maps. */
  ghost predicate Copies(tables0: map<nat, Table>, trees0: map<nat, Tree>, data0: map<nat, Page>,
                         tables: map<nat, Table>, trees: map<nat, Tree>, data: map<nat, Page>, parent: nat, child: nat,
                         copied: seq<nat>)
    requires parent in trees0
  {
    var es := Range(tables0, trees0[parent], 0, |copied|);
    Span(tables0, trees0, tables, trees, child, 0, Onto(es, copied)) && CopiedFrames(data0, data, es, copied)
  }

  lemma NothingCopied(tables: map<nat, Table>, trees: map<nat, Tree>, data: map<nat, Page>, parent: nat, child: nat)
    requires parent in trees
    ensures Copies(tables, trees, data, tables, trees, data, parent, child, [])
  {
    hide Entry;
  }

  lemma CopyFacts(tables0: map<nat, Table>, trees0: map<nat, Tree>, data0: map<nat, Page>, tables: map<nat, Table>,
                  trees: map<nat, Tree>, data: map<nat, Page>, parent: nat, child: nat, want: seq<Pte>,
                  copied: seq<nat>)
    requires parent in trees0 && child in trees0 && parent != child && |copied| < |want| <= MAXPAGES
    requires want == Range(tables0, trees0[parent], 0, |want|) && Present(data0, want)
    requires Copies(tables0, trees0, data0, tables, trees, data, parent, child, copied)
    ensures var n := |copied|;
            && parent in trees && child in trees && Entry(tables, trees[parent], n) == want[n] && want[n].V()
            && want[n].ppn in data0 && want[n].ppn in data && data[want[n].ppn] == data0[want[n].ppn]
            && Entry(tables, trees[child], n) == Entry(tables0, trees0[child], n)
            && !NO_PTE.V()
  {
    hide Entry;
  }

  lemma FrameAdded(tables: map<nat, Table>, data: map<nat, Page>, free: seq<nat>, p: nat, page: Page)
    requires PagesOk(tables, data, free) && p != 0 && p !in free && p !in tables && p !in data
    ensures PagesOk(tables, data[p := page], free) && data[p := page] - {p} == data
  {
  }

  lemma SpanSpan(tables0: map<nat, Table>, trees0: map<nat, Tree>, tables1: map<nat, Table>, trees1: map<nat, Tree>,
                 tables2: map<nat, Table>, trees2: map<nat, Tree>, r: nat, lo: nat, a: seq<Pte>, b: seq<Pte>)
    requires Span(tables0, trees0, tables1, trees1, r, lo, a) && Span(tables1, trees1, tables2, trees2, r, lo + |a|, b)
    ensures Span(tables0, trees0, tables2, trees2, r, lo, a + b)
  {
    hide Entry;
  }

  lemma NotMapped(tables0: map<nat, Table>, trees0: map<nat, Tree>, data0: map<nat, Page>, tables1: map<nat, Table>,
                  trees1: map<nat, Tree>, data: map<nat, Page>, tables: map<nat, Table>, trees: map<nat, Tree>,
                  parent: nat, child: nat, copied: seq<nat>, p: nat, flags: nat)
    requires parent in trees0 && Copies(tables0, trees0, data0, tables1, trees1, data, parent, child, copied)
    requires Span(tables1, trees1, tables, trees, child, |copied|, Mapping(p, 0, flags))
    ensures trees.Keys == trees0.Keys
    ensures Copies(tables0, trees0, data0, tables, trees, data, parent, child, copied)
  {
    hide Entry, Span, CopiedFrames;
    var onto := Onto(Range(tables0, trees0[parent], 0, |copied|), copied);
    SpanSpan(tables0, trees0, tables1, trees1, tables, trees, child, 0, onto, Mapping(p, 0, flags));
    assert onto + Mapping(p, 0, flags) == onto;
    SpanKeys(tables0, trees0, tables, trees, child, 0, onto);
  }

  lemma SpanKeys(tables: map<nat, Table>, trees: map<nat, Tree>, tables': map<nat, Table>, trees': map<nat, Tree>,
                 r: nat, lo: nat, want: seq<Pte>)
    requires Span(tables, trees, tables', trees', r, lo, want)
    ensures trees'.Keys == trees.Keys
  {
  }

  lemma CopiesMore(tables0: map<nat, Table>, trees0: map<nat, Tree>, data0: map<nat, Page>, tables1: map<nat, Table>,
                   trees1: map<nat, Tree>, data: map<nat, Page>, tables: map<nat, Table>, trees: map<nat, Tree>,
                   parent: nat, child: nat, want: seq<Pte>, copied: seq<nat>, p: nat)
    requires parent in trees0 && |copied| < |want| && want == Range(tables0, trees0[parent], 0, |want|)
    requires Copies(tables0, trees0, data0, tables1, trees1, data, parent, child, copied)
    requires p !in data && want[|copied|].ppn in data0 && want[|copied|].ppn in data
    requires data[want[|copied|].ppn] == data0[want[|copied|].ppn] && want[|copied|].V()
    requires Span(tables1, trees1, tables, trees, child, |copied|, Mapping(p, 1, want[|copied|].flags))
    ensures trees.Keys == trees0.Keys
    ensures Copies(tables0, trees0, data0, tables, trees, data[p := data[want[|copied|].ppn]], parent, child,
                   copied + [p])
  {
    var n := |copied|;
    var es := Range(tables0, trees0[parent], 0, n);
    var es' := Range(tables0, trees0[parent], 0, n + 1);
    hide Entry, Span, CopiedFrames;
    assert es' == es + [want[n]];
    SpanSpan(tables0, trees0, tables1, trees1, tables, trees, child, 0, Onto(es, copied), Mapping(p, 1, want[n].flags));
    assert Onto(es', copied + [p]) == Onto(es, copied) + Mapping(p, 1, want[n].flags);
    OneFrame(data0, data, es, copied, want[n], p);
    SpanKeys(tables0, trees0, tables, trees, child, 0, Onto(es', copied + [p]));
  }

  lemma OneFrame(data0: map<nat, Page>, data: map<nat, Page>, es: seq<Pte>, copied: seq<nat>, e: Pte, p: nat)
    requires CopiedFrames(data0, data, es, copied) && p !in data && e.ppn in data0 && e.ppn in data
    requires data[e.ppn] == data0[e.ppn]
    ensures CopiedFrames(data0, data[p := data[e.ppn]], es + [e], copied + [p])
  {
    forall i | 0 <= i < |copied|
      ensures copied[i] in data && copied[i] != p
    {
    }
  }

  lemma CopiesOwn(tables0: map<nat, Table>, trees0: map<nat, Tree>, data0: map<nat, Page>, tables: map<nat, Table>,
                  trees: map<nat, Tree>, data: map<nat, Page>, parent: nat, child: nat, copied: seq<nat>)
    requires parent in trees0 && child in trees0 && |copied| <= MAXPAGES
    requires Copies(tables0, trees0, data0, tables, trees, data, parent, child, copied)
    ensures child in trees
    ensures var made := Range(tables, trees[child], 0, |copied|);
            made == Onto(Range(tables0, trees0[parent], 0, |copied|), copied) && Owns(data, made)
  {
    hide Entry;
  }

  lemma CopiesUndone(tables0: map<nat, Table>, trees0: map<nat, Tree>, data0: map<nat, Page>, tables1: map<nat, Table>,
                     trees1: map<nat, Tree>, data1: map<nat, Page>, tables: map<nat, Table>, parent: nat, child: nat,
                     want: seq<Pte>, copied: seq<nat>)
    requires parent in trees0 && child in trees0 && |copied| <= |want| <= MAXPAGES
    requires want == Range(tables0, trees0[parent], 0, |want|)
    requires Copies(tables0, trees0, data0, tables1, trees1, data1, parent, child, copied) && child in trees1
    requires Span(tables1, trees1, tables, trees1, child, 0, Cleared(Range(tables1, trees1[child], 0, |copied|)))
    ensures var es := Range(tables0, trees0[parent], 0, |copied|);
            && Span(tables0, trees0, tables, trees1, child, 0, Cleared(Onto(es, copied)))
            && LeftBehind(data0, data1 - Frames(Range(tables1, trees1[child], 0, |copied|)), es, copied)
    ensures (forall e :: e in want ==> Leaf(e)) ==>
      && data1 - Frames(Range(tables1, trees1[child], 0, |copied|)) == data0
      && Span(tables0, trees0, tables, trees1, child, 0, seq(|copied|, _ => NO_PTE))
  {
    CopiesOwn(tables0, trees0, data0, tables1, trees1, data1, parent, child, copied);
    CopiesLeft(tables0, trees0, data0, tables1, trees1, data1, tables, parent, child, copied);
    if forall e :: e in want ==> Leaf(e) {
      var made, es := Range(tables1, trees1[child], 0, |copied|), Range(tables0, trees0[parent], 0, |copied|);
      forall i | 0 <= i < |copied|
        ensures Leaf(made[i]) && made[i].ppn == copied[i]
      {
        assert es[i] == want[i] && want[i] in want;
      }
      hide Entry, Leaf;
      FramesAre(made, copied);
      assert Cleared(made) == seq(|copied|, _ => NO_PTE);
      GivenBack(data0, data1, es, copied);
      SpanOver(tables0, trees0, tables1, trees1, tables, child, Onto(es, copied), Cleared(made));
    }
  }

  /** The copies that stay in use after a failure: those of entries uvmunmap takes for no mapping. */
  ghost predicate LeftBehind(data0: map<nat, Page>, data: map<nat, Page>, es: seq<Pte>, copied: seq<nat>) {
    && |es| == |copied|
    && (forall p :: p in data0 ==> p in data && data[p] == data0[p])
    && data.Keys == data0.Keys + (set i | 0 <= i < |copied| && !Leaf(es[i]) :: copied[i])
  }

  lemma CopiesLeft(tables0: map<nat, Table>, trees0: map<nat, Tree>, data0: map<nat, Page>, tables1: map<nat, Table>,
                   trees1: map<nat, Tree>, data1: map<nat, Page>, tables: map<nat, Table>, parent: nat, child: nat,
                   copied: seq<nat>)
    requires parent in trees0 && child in trees0 && |copied| <= MAXPAGES
    requires Copies(tables0, trees0, data0, tables1, trees1, data1, parent, child, copied) && child in trees1
    requires Span(tables1, trees1, tables, trees1, child, 0, Cleared(Range(tables1, trees1[child], 0, |copied|)))
    ensures var es := Range(tables0, trees0[parent], 0, |copied|);
            && Span(tables0, trees0, tables, trees1, child, 0, Cleared(Onto(es, copied)))
            && LeftBehind(data0, data1 - Frames(Range(tables1, trees1[child], 0, |copied|)), es, copied)
  {
    CopiesOwn(tables0, trees0, data0, tables1, trees1, data1, parent, child, copied);
    hide Entry;
    var made, es := Range(tables1, trees1[child], 0, |copied|), Range(tables0, trees0[parent], 0, |copied|);
    SpanOver(tables0, trees0, tables1, trees1, tables, child, Onto(es, copied), Cleared(made));
    FramesLeft(data0, data1, es, copied);
  }

  lemma FramesLeft(data0: map<nat, Page>, data1: map<nat, Page>, es: seq<Pte>, copied: seq<nat>)
    requires CopiedFrames(data0, data1, es, copied)
    ensures LeftBehind(data0, data1 - Frames(Onto(es, copied)), es, copied)
  {
    var made := Onto(es, copied);
    forall i | 0 <= i < |copied|
      ensures Leaf(made[i]) == Leaf(es[i]) && made[i].ppn == copied[i]
    {
    }
    forall p | p in data1.Keys - Frames(made) && p !in data0
      ensures exists i :: 0 <= i < |copied| && !Leaf(es[i]) && copied[i] == p
    {
      var i :| 0 <= i < |copied| && copied[i] == p;
    }
  }

  lemma FramesAre(made: seq<Pte>, copied: seq<nat>)
    requires |made| == |copied| && forall i :: 0 <= i < |copied| ==> Leaf(made[i]) && made[i].ppn == copied[i]
    ensures Frames(made) == set p | p in copied
  {
    hide Leaf;
    forall p | p in copied
      ensures p in Frames(made)
    {
      var i :| 0 <= i < |copied| && copied[i] == p;
    }
  }

  lemma GivenBack(data0: map<nat, Page>, data: map<nat, Page>, es: seq<Pte>, copied: seq<nat>)
    requires CopiedFrames(data0, data, es, copied)
    ensures data - (set p | p in copied) == data0
  {
  }

  lemma SpanOver(tables0: map<nat, Table>, trees0: map<nat, Tree>, tables1: map<nat, Table>, trees1: map<nat, Tree>,
                 tables2: map<nat, Table>, r: nat, a: seq<Pte>, b: seq<Pte>)
    requires Span(tables0, trees0, tables1, trees1, r, 0, a) && Span(tables1, trees1, tables2, trees1, r, 0, b)
    requires |a| == |b|
    ensures Span(tables0, trees0, tables2, trees1, r, 0, b)
  {
    hide Entry;
  }
}
