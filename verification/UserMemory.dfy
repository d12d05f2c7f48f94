/** The part of an address space that belongs to the program (kernel/vm.c, kernel/proc.c): pages 0 up to the
  * process's size are mapped readable, each to a frame of its own, whatever processes grow, shrink and fork.
  * So no entry uvmcopy meets is one that uvmunmap would pass over. */
module UserMemory {
  import opened Blocks
  import opened PageTable

  /** VMA_START in pages: where file mappings begin, up to which a program may grow. */
  const USERTOP: nat := MAXPAGES / 2

  const PTE_R: nat := 2
  const PTE_U: nat := 16

  /** flags | bit. */
  function With(flags: nat, bit: nat): nat
    requires bit > 0
  {
    if flags / bit % 2 == 1 then flags else flags + bit
  }

  /** PTE_R | PTE_U | xperm. */
  function UserFlags(xperm: nat): nat {
    With(With(xperm, PTE_R), PTE_U)
  }

  /** Of the bits tested, PTE_R and PTE_U are set and PTE_W is xperm's. */
  lemma UserBits(xperm: nat)
    ensures var f := UserFlags(xperm);
            f / 2 % 2 == 1 && f / 16 % 2 == 1 && f / 4 % 2 == xperm / 4 % 2
    ensures var f := OrV(UserFlags(xperm));
            f % 2 == 1 && f / 2 % 2 == 1 && f / 16 % 2 == 1 && f / 4 % 2 == xperm / 4 % 2
  {
    var g := With(xperm, PTE_R);
    TwoSet(xperm);
    SixteenSet(g);
    var f := With(g, PTE_U);
    if f % 2 == 0 {
      OneSet(f);
    }
  }

  lemma OneSet(f: nat)
    requires f % 2 == 0
    ensures (f + 1) / 2 == f / 2 && (f + 1) / 4 == f / 4 && (f + 1) / 16 == f / 16
  {
  }

  lemma TwoSet(f: nat)
    ensures var g := With(f, 2);
            g / 2 % 2 == 1 && g / 4 == f / 4
  {
  }

  lemma SixteenSet(f: nat)
    ensures var g := With(f, 16);
            g / 16 % 2 == 1 && g / 2 % 2 == f / 2 % 2 && g / 4 % 2 == f / 4 % 2
  {
    PlusSixteen(f);
    hide With;
    SameParity(f / 2, 4);
    SameParity(f / 4, 2);
    assert With(f, 16) == if f / 16 % 2 == 1 then f else f + 16;
    OtherParity(f / 16);
  }

  lemma PlusSixteen(f: nat)
    ensures (f + 16) / 2 == f / 2 + 8 && (f + 16) / 4 == f / 4 + 4 && (f + 16) / 16 == f / 16 + 1
    ensures With(f, 16) == if f / 16 % 2 == 1 then f else f + 16
  {
  }

  lemma SameParity(x: nat, k: nat)
    ensures (x + 2 * k) % 2 == x % 2
  {
  }

  lemma OtherParity(x: nat)
    ensures (x + 1) % 2 != x % 2
  {
  }

  /** One page of a program, or the guard page below its stack. */
  predicate UserEntry(e: Pte, data: map<nat, Page>) {
    e.V() && e.R() && e.ppn in data
  }

  /** sizes gives the number of pages of every address space. */
  ghost predicate Users(tables: map<nat, Table>, trees: map<nat, Tree>, data: map<nat, Page>, sizes: map<nat, nat>) {
    && (forall r :: r in sizes ==> r in trees && sizes[r] <= USERTOP)
    && (forall r, n: nat :: r in sizes && n < sizes[r] ==> UserEntry(Entry(tables, trees[r], n), data))
    && (forall r, n: nat :: r in sizes && sizes[r] <= n < USERTOP ==> !Entry(tables, trees[r], n).V())
    && (forall r, m: nat, s, n: nat | r in sizes && m < sizes[r] && s in sizes && n < sizes[s] && (r != s || m != n) ::
          Entry(tables, trees[r], m).ppn != Entry(tables, trees[s], n).ppn)
  }

  /** Frames made, all different and new and holding zeros; the others are as they were. */
  ghost predicate Zeroed(data0: map<nat, Page>, data: map<nat, Page>, got: seq<nat>) {
    && Distinct(got)
    && data.Keys == data0.Keys + (set p | p in got)
    && (forall p :: p in data0 ==> data[p] == data0[p])
    && (forall i :: 0 <= i < |got| ==> got[i] !in data0 && data[got[i]] == ZeroPage())
  }

  function ZeroPage(): (z: Page)
    ensures forall j :: 0 <= j < PGSIZE ==> z[j] == 0
  {
    seq(PGSIZE, _ => 0)
  }

  /** Entries over these frames, all with the same flags. */
  function Over(got: seq<nat>, perm: nat): (es: seq<Pte>)
    ensures |es| == |got| && forall i :: 0 <= i < |got| ==> es[i] == Pte(got[i], OrV(perm))
  {
    seq(|got|, i requires 0 <= i < |got| => Pte(got[i], OrV(perm)))
  }

  /** Every entry of a program is a mapping uvmunmap takes away, over a frame no other page of it has. */
  lemma UsersLeaf(tables: map<nat, Table>, trees: map<nat, Tree>, data: map<nat, Page>, sizes: map<nat, nat>, r: nat,
                  lo: nat, k: nat)
    requires Users(tables, trees, data, sizes) && r in sizes && lo + k <= sizes[r]
    ensures r in trees && lo + k <= USERTOP
    ensures var es := Range(tables, trees[r], lo, k);
            && Present(data, es) && Owns(data, es) && forall e :: e in es ==> Leaf(e)
  {
    hide Entry;
    var es := Range(tables, trees[r], lo, k);
    forall i | 0 <= i < k
      ensures UserEntry(es[i], data) && Leaf(es[i])
    {
      assert es[i] == Entry(tables, trees[r], lo + i);
    }
    forall i, j | 0 <= i < j < k
      ensures es[i].ppn != es[j].ppn
    {
      assert es[i] == Entry(tables, trees[r], lo + i) && es[j] == Entry(tables, trees[r], lo + j);
    }
  }

  /** One more page at the end of a program. */
  lemma UsersGrow(tables: map<nat, Table>, trees: map<nat, Tree>, data: map<nat, Page>, sizes: map<nat, nat>,
                  tables': map<nat, Table>, trees': map<nat, Tree>, r: nat, p: nat, page: Page, perm: nat)
    requires Users(tables, trees, data, sizes) && r in sizes && sizes[r] < USERTOP && p !in data
    requires Span(tables, trees, tables', trees', r, sizes[r], Mapping(p, 1, perm)) && perm / 2 % 2 == 1
    ensures Users(tables', trees', data[p := page], sizes[r := sizes[r] + 1])
  {
    hide Entry;
    var n := sizes[r];
    assert Mapping(p, 1, perm)[0] == Pte(p, OrV(perm));
    assert Pte(p, OrV(perm)).V() && Pte(p, OrV(perm)).R();
    assert Entry(tables', trees'[r], n) == Pte(p, OrV(perm));
  }

  /** The last k pages of a program go, and their frames with them. */
  lemma UsersShrink(tables: map<nat, Table>, trees: map<nat, Tree>, data: map<nat, Page>, sizes: map<nat, nat>,
                    tables': map<nat, Table>, r: nat, lo: nat, k: nat)
    requires Users(tables, trees, data, sizes) && r in sizes && sizes[r] == lo + k
    requires Span(tables, trees, tables', trees, r, lo, Cleared(Range(tables, trees[r], lo, k)))
    ensures Users(tables', trees, data - Frames(Range(tables, trees[r], lo, k)), sizes[r := lo])
    ensures Cleared(Range(tables, trees[r], lo, k)) == seq(k, _ => NO_PTE)
  {
    UsersLeaf(tables, trees, data, sizes, r, lo, k);
    hide Entry, Frames;
    var es, sizes' := Range(tables, trees[r], lo, k), sizes[r := lo];
    assert Cleared(es) == seq(k, _ => NO_PTE) by {
      assert forall i :: 0 <= i < k ==> es[i] in es;
    }
    forall s, m: nat | s in sizes' && m < sizes'[s]
      ensures Entry(tables', trees[s], m) == Entry(tables, trees[s], m) && Entry(tables, trees[s], m).ppn !in Frames(es)
    {
      NotThere(tables, trees, data, sizes, r, lo, k, s, m);
    }
    assert !NO_PTE.V();
    hide Leaf, Pte.V, Pte.R;
  }

  lemma NotThere(tables: map<nat, Table>, trees: map<nat, Tree>, data: map<nat, Page>, sizes: map<nat, nat>, r: nat,
                 lo: nat, k: nat, s: nat, m: nat)
    requires Users(tables, trees, data, sizes) && r in sizes && sizes[r] == lo + k
    requires s in sizes && m < sizes[s] && (s == r ==> m < lo)
    ensures Entry(tables, trees[s], m).ppn !in Frames(Range(tables, trees[r], lo, k))
  {
    hide Entry, Leaf;
    var es := Range(tables, trees[r], lo, k);
    forall i | 0 <= i < k
      ensures es[i].ppn != Entry(tables, trees[s], m).ppn
    {
      assert es[i] == Entry(tables, trees[r], lo + i);
    }
  }

  /** Nothing a program can see has changed. */
  lemma UsersKept(tables: map<nat, Table>, trees: map<nat, Tree>, data: map<nat, Page>, sizes: map<nat, nat>,
                  tables': map<nat, Table>, trees': map<nat, Tree>, data': map<nat, Page>)
    requires Users(tables, trees, data, sizes) && data.Keys <= data'.Keys
    requires forall r :: r in sizes ==> r in trees'
    requires forall r, n: nat :: r in sizes && n < USERTOP ==>
               Entry(tables', trees'[r], n) == Entry(tables, trees[r], n)
    ensures Users(tables', trees', data', sizes)
  {
    hide Entry, Pte.V, Pte.R;
  }

  /** A mapping above the programs does not concern them: the trampoline, the trap frame, a page of a file. */
  lemma UsersBelow(tables: map<nat, Table>, trees: map<nat, Tree>, data: map<nat, Page>, sizes: map<nat, nat>,
                   tables': map<nat, Table>, trees': map<nat, Tree>, data': map<nat, Page>, root: nat, lo: nat,
                   want: seq<Pte>)
    requires Users(tables, trees, data, sizes) && data.Keys <= data'.Keys
    requires Span(tables, trees, tables', trees', root, lo, want) && lo >= USERTOP
    ensures Users(tables', trees', data', sizes)
  {
    hide Entry, Pte.V, Pte.R;
    UsersKept(tables, trees, data, sizes, tables', trees', data');
  }

  // ---------------------------------------------------------------- the operations

  ghost predicate UsersNow(m: Memory, sizes: map<nat, nat>)
    reads m
  {
    m.Valid() && Users(m.tables, m.trees, m.data, sizes)
  }

  /** uvmcreate: an address space without a program. */
  method NewSpace(m: Memory, ghost sizes: map<nat, nat>) returns (root: nat)
    requires UsersNow(m, sizes)
    modifies m
    ensures root == 0 ==> UsersNow(m, sizes)
    ensures root != 0 ==> root !in sizes && UsersNow(m, sizes[root := 0])
    ensures m.data == old(m.data)
  {
    hide Forest, PagesOk, Entry;
    ghost var tables0, trees0, data0 := m.tables, m.trees, m.data;
    root := m.Create();
    if root != 0 {
      UsersNew(tables0, trees0, data0, sizes, m.tables, m.trees, root);
    }
  }

  lemma UsersNew(tables: map<nat, Table>, trees: map<nat, Tree>, data: map<nat, Page>, sizes: map<nat, nat>,
                 tables': map<nat, Table>, trees': map<nat, Tree>, root: nat)
    requires Users(tables, trees, data, sizes) && root !in trees && trees'.Keys == trees.Keys + {root}
    requires forall r :: r in trees ==> SameEntries(tables, trees[r], tables', trees'[r])
    requires forall n: nat :: Entry(tables', trees'[root], n) == NO_PTE
    ensures root !in sizes && Users(tables', trees', data, sizes[root := 0])
  {
    hide Entry;
    assert !NO_PTE.V();
    hide Pte.V, Pte.R;
    forall r | r in sizes
      ensures r in trees'
    {
      assert r in trees;
    }
    UsersKept(tables, trees, data, sizes, tables', trees', data);
  }

  /** uvmalloc: the program grows by zeroed pages; when memory runs out it is as it was, every frame given back. */
  method UvmAlloc(m: Memory, root: nat, oldsz: nat, newsz: nat, xperm: nat, ghost sizes: map<nat, nat>)
    returns (ok: bool, ghost got: seq<nat>)
    requires UsersNow(m, sizes) && root in sizes && sizes[root] == PagesFor(oldsz) && PagesFor(newsz) <= USERTOP
    modifies m
    ensures ok ==> UsersNow(m, sizes[root := if newsz < oldsz then sizes[root] else PagesFor(newsz)])
    ensures ok ==> |got| == if newsz < oldsz then 0 else PagesFor(newsz) - PagesFor(oldsz)
    ensures ok ==> Span(old(m.tables), old(m.trees), m.tables, m.trees, root, PagesFor(oldsz),
                        Over(got, UserFlags(xperm)))
    ensures ok ==> Zeroed(old(m.data), m.data, got)
    ensures ok ==> forall va: nat :: PagesFor(oldsz) <= va / PGSIZE < PagesFor(newsz) ==>
              && root in m.trees && Readable(m.tables, m.trees[root], va)
              && (Writable(m.tables, m.trees[root], va) <==> xperm / 4 % 2 == 1)
    ensures !ok ==> UsersNow(m, sizes) && m.data == old(m.data)
    ensures !ok ==> Span(old(m.tables), old(m.trees), m.tables, m.trees, root, PagesFor(oldsz),
                         seq(|got|, _ => NO_PTE))
  {
    hide Forest, PagesOk, Entry, Span, Users, Zeroed, Over;
    got := [];
    NothingGot(m.tables, m.trees, m.data, root, PagesFor(oldsz), UserFlags(xperm));
    assert sizes[root := sizes[root]] == sizes;
    UserBits(xperm);
    UsersLeaf(m.tables, m.trees, m.data, sizes, root, 0, 0);
    if newsz < oldsz {
      return true, got;
    }
    var a := PagesFor(oldsz) * PGSIZE;
    while a < newsz
      invariant a == (PagesFor(oldsz) + |got|) * PGSIZE && PagesFor(oldsz) + |got| <= PagesFor(newsz)
      invariant Grown(m, root, PagesFor(oldsz), UserFlags(xperm), sizes, got, old(m.tables), old(m.trees),
                      old(m.data))
      decreases PagesFor(newsz) - |got|
    {
      var p := AllocOne(m, root, a, UserFlags(xperm), PagesFor(oldsz), sizes, got, old(m.tables), old(m.trees),
                        old(m.data));
      if p == 0 {
        GiveBack(m, root, a, oldsz, UserFlags(xperm), sizes, got, old(m.tables), old(m.trees), old(m.data));
        return false, got;
      }
      got := got + [p];
      a := a + PGSIZE;
    }
    GrownUsable(old(m.tables), old(m.trees), m.tables, m.trees, root, PagesFor(oldsz), xperm, got);
    ok := true;
  }

  /** The program may read the new pages, and write them if it asked to. */
  lemma GrownUsable(tables0: map<nat, Table>, trees0: map<nat, Tree>, tables: map<nat, Table>, trees: map<nat, Tree>,
                    root: nat, lo: nat, xperm: nat, got: seq<nat>)
    requires Span(tables0, trees0, tables, trees, root, lo, Over(got, UserFlags(xperm)))
    requires root in trees0 && lo + |got| <= MAXPAGES
    ensures root in trees
    ensures forall va: nat :: lo <= va / PGSIZE < lo + |got| ==>
              && Readable(tables, trees[root], va) && (Writable(tables, trees[root], va) <==> xperm / 4 % 2 == 1)
  {
    UserBits(xperm);
    hide Entry, OrV, UserFlags;
    forall va: nat | lo <= va / PGSIZE < lo + |got|
      ensures Readable(tables, trees[root], va) && (Writable(tables, trees[root], va) <==> xperm / 4 % 2 == 1)
    {
      var n := va / PGSIZE;
      assert Entry(tables, trees[root], n) == Over(got, UserFlags(xperm))[n - lo];
    }
  }

  /** Any range of a program may be copied from, and to as far as it is writable. */
  lemma UsersCopy(tables: map<nat, Table>, trees: map<nat, Tree>, data: map<nat, Page>, sizes: map<nat, nat>, r: nat,
                  va: nat, len: nat)
    requires Users(tables, trees, data, sizes) && r in sizes && va + len <= sizes[r] * PGSIZE
    ensures r in trees
    ensures UserBacked(tables, trees[r], data, va, len) && Injective(tables, trees[r], va, len)
  {
    hide Entry, Pte.V, Pte.R, Pte.U;
    forall a | va <= a < va + len
      ensures EntryOf(tables, trees[r], a).ppn in data
    {
      assert a / PGSIZE < sizes[r];
      assert UserEntry(Entry(tables, trees[r], a / PGSIZE), data);
    }
    forall a, b | va <= a < b < va + len && a / PGSIZE != b / PGSIZE
      ensures EntryOf(tables, trees[r], a).ppn != EntryOf(tables, trees[r], b).ppn
    {
      assert a / PGSIZE < sizes[r] && b / PGSIZE < sizes[r];
    }
  }

  /** Memory a program has got is memory it can use: bytes stored there are read back. */
  method GrowAndUse(m: Memory, root: nat, oldsz: nat, newsz: nat, xperm: nat, va: nat, src: seq<byte>,
                    ghost sizes: map<nat, nat>)
    returns (ok: bool, stored: bool, back: seq<byte>)
    requires UsersNow(m, sizes) && root in sizes && sizes[root] == PagesFor(oldsz) && PagesFor(newsz) <= USERTOP
    requires PagesFor(oldsz) * PGSIZE <= va && va + |src| <= PagesFor(newsz) * PGSIZE && oldsz <= newsz
    modifies m
    ensures stored <==> ok && (xperm / 4 % 2 == 1 || src == [])
    ensures stored ==> back == src
  {
    hide Forest, PagesOk, Entry, Span, Users, Zeroed, Over, Readable, Writable, UserBacked, Injective, UserFlags;
    ghost var got;
    ok, got := UvmAlloc(m, root, oldsz, newsz, xperm, sizes);
    stored, back := false, [];
    if ok {
      UsersCopy(m.tables, m.trees, m.data, sizes[root := PagesFor(newsz)], root, va, |src|);
      InPages(va, |src|, PagesFor(oldsz), PagesFor(newsz));
      ghost var tables, t := m.tables, m.trees[root];
      assert forall a :: va <= a < va + |src| ==> (Writable(tables, t, a) <==> xperm / 4 % 2 == 1);
      stored, back := m.RoundTrip(root, va, src);
      if |src| > 0 {
        assert Writable(tables, t, va) <==> xperm / 4 % 2 == 1;
      }
    }
  }

  lemma InPages(va: nat, len: nat, lo: nat, hi: nat)
    requires lo * PGSIZE <= va && va + len <= hi * PGSIZE
    ensures forall a :: va <= a < va + len ==> lo <= a / PGSIZE < hi
  {
  }

  /** The frames got so far are mapped behind the first lo pages. */
  ghost predicate Grown(m: Memory, root: nat, lo: nat, perm: nat, sizes: map<nat, nat>, got: seq<nat>,
                        tables0: map<nat, Table>, trees0: map<nat, Tree>, data0: map<nat, Page>)
    reads m
  {
    && root in sizes && sizes[root] == lo
    && UsersNow(m, sizes[root := lo + |got|])
    && Span(tables0, trees0, m.tables, m.trees, root, lo, Over(got, perm)) && Zeroed(data0, m.data, got)
  }

  lemma NothingGot(tables: map<nat, Table>, trees: map<nat, Tree>, data: map<nat, Page>, root: nat, lo: nat, perm: nat)
    ensures Span(tables, trees, tables, trees, root, lo, Over([], perm)) && Zeroed(data, data, [])
  {
    hide Entry;
  }

  /** One turn of uvmalloc; 0 when memory is used up. */
  method AllocOne(m: Memory, root: nat, a: nat, perm: nat, ghost lo: nat, ghost sizes: map<nat, nat>,
                  ghost got: seq<nat>, ghost tables0: map<nat, Table>, ghost trees0: map<nat, Tree>,
                  ghost data0: map<nat, Page>)
    returns (p: nat)
    requires Grown(m, root, lo, perm, sizes, got, tables0, trees0, data0) && perm / 2 % 2 == 1
    requires a == (lo + |got|) * PGSIZE && lo + |got| < USERTOP
    modifies m
    ensures Grown(m, root, lo, perm, sizes, if p == 0 then got else got + [p], tables0, trees0, data0)
  {
    hide Forest, PagesOk, Entry, Span, Users, Zeroed, Over;
    ghost var n, was, tables1, trees1 := lo + |got|, m.data, m.tables, m.trees;
    PageFree(m.tables, m.trees, m.data, sizes[root := n], root);
    p := m.Kalloc();
    if p == 0 {
      return;
    }
    FrameAdded(m.tables, m.data, m.free, p, ZeroPage());
    m.data := m.data[p := ZeroPage()];
    var ok, done := m.MapPages(root, a, PGSIZE, p * PGSIZE, perm);
    if ok {
      UsersGrow(tables1, trees1, was, sizes[root := n], m.tables, m.trees, root, p, ZeroPage(), perm);
      assert sizes[root := n][root := n + 1] == sizes[root := n + 1];
      GotMore(tables0, trees0, data0, tables1, trees1, was, m.tables, m.trees, root, lo, perm, got, p);
    } else {
      m.Kfree(p);
      assert m.data == was;
      GotNoMore(tables0, trees0, tables1, trees1, m.tables, m.trees, was, sizes[root := n], root, lo, perm, got, p);
      p := 0;
    }
  }

  lemma PageFree(tables: map<nat, Table>, trees: map<nat, Tree>, data: map<nat, Page>, sizes: map<nat, nat>, root: nat)
    requires Users(tables, trees, data, sizes) && root in sizes && sizes[root] < USERTOP
    ensures root in trees && !Entry(tables, trees[root], sizes[root]).V()
  {
    hide Entry;
  }

  lemma GotMore(tables0: map<nat, Table>, trees0: map<nat, Tree>, data0: map<nat, Page>, tables1: map<nat, Table>,
                trees1: map<nat, Tree>, data1: map<nat, Page>, tables: map<nat, Table>, trees: map<nat, Tree>,
                root: nat, lo: nat, perm: nat, got: seq<nat>, p: nat)
    requires Span(tables0, trees0, tables1, trees1, root, lo, Over(got, perm)) && Zeroed(data0, data1, got)
    requires Span(tables1, trees1, tables, trees, root, lo + |got|, Mapping(p, 1, perm)) && p !in data1
    ensures Span(tables0, trees0, tables, trees, root, lo, Over(got + [p], perm))
    ensures Zeroed(data0, data1[p := ZeroPage()], got + [p])
  {
    hide Entry;
    assert Over(got + [p], perm) == Over(got, perm) + Mapping(p, 1, perm);
    SpanSpan(tables0, trees0, tables1, trees1, tables, trees, root, lo, Over(got, perm), Mapping(p, 1, perm));
    hide Span;
    forall i | 0 <= i < |got|
      ensures got[i] in data1 && got[i] != p
    {
      assert got[i] in got;
    }
  }

  lemma GotNoMore(tables0: map<nat, Table>, trees0: map<nat, Tree>, tables1: map<nat, Table>, trees1: map<nat, Tree>,
                  tables: map<nat, Table>, trees: map<nat, Tree>, data: map<nat, Page>, sizes: map<nat, nat>,
                  root: nat, lo: nat, perm: nat, got: seq<nat>, p: nat)
    requires Span(tables0, trees0, tables1, trees1, root, lo, Over(got, perm))
    requires Span(tables1, trees1, tables, trees, root, lo + |got|, Mapping(p, 0, perm))
    requires Users(tables1, trees1, data, sizes)
    ensures Span(tables0, trees0, tables, trees, root, lo, Over(got, perm)) && Users(tables, trees, data, sizes)
  {
    hide Entry, Pte.V, Pte.R;
    assert Over(got, perm) + Mapping(p, 0, perm) == Over(got, perm);
    SpanSpan(tables0, trees0, tables1, trees1, tables, trees, root, lo, Over(got, perm), Mapping(p, 0, perm));
    UsersKept(tables1, trees1, data, sizes, tables, trees, data);
  }

  /** uvmalloc's way out: uvmdealloc of what it has mapped. */
  method GiveBack(m: Memory, root: nat, a: nat, oldsz: nat, perm: nat, ghost sizes: map<nat, nat>, ghost got: seq<nat>,
                  ghost tables0: map<nat, Table>, ghost trees0: map<nat, Tree>, ghost data0: map<nat, Page>)
    requires Grown(m, root, PagesFor(oldsz), perm, sizes, got, tables0, trees0, data0) && perm / 2 % 2 == 1
    requires a == (PagesFor(oldsz) + |got|) * PGSIZE
    modifies m
    ensures UsersNow(m, sizes) && m.data == data0
    ensures Span(tables0, trees0, m.tables, m.trees, root, PagesFor(oldsz), seq(|got|, _ => NO_PTE))
  {
    hide Forest, PagesOk, Entry, Span, Users, Zeroed, Over, Cleared, Frames, Owns;
    ghost var lo, now, tables1, trees1, data1 := PagesFor(oldsz), sizes[root := PagesFor(oldsz) + |got|], m.tables,
      m.trees, m.data;
    assert now[root := lo] == sizes;
    UsersLeaf(m.tables, m.trees, m.data, now, root, 0, lo + |got|);
    SpanKeys(tables0, trees0, m.tables, m.trees, root, lo, Over(got, perm));
    var _ := UvmDealloc(m, root, a, PagesFor(oldsz) * PGSIZE, now);
    GotBack(tables0, trees0, data0, tables1, trees1, data1, m.tables, root, lo, perm, got);
  }

  lemma GotBack(tables0: map<nat, Table>, trees0: map<nat, Tree>, data0: map<nat, Page>, tables1: map<nat, Table>,
                trees1: map<nat, Tree>, data1: map<nat, Page>, tables: map<nat, Table>, root: nat, lo: nat, perm: nat,
                got: seq<nat>)
    requires Span(tables0, trees0, tables1, trees1, root, lo, Over(got, perm)) && Zeroed(data0, data1, got)
    requires Span(tables1, trees1, tables, trees1, root, lo, seq(|got|, _ => NO_PTE))
    requires root in trees0 && root in trees1 && perm / 2 % 2 == 1 && lo + |got| <= MAXPAGES
    ensures Span(tables0, trees0, tables, trees1, root, lo, seq(|got|, _ => NO_PTE))
    ensures data1 - Frames(Range(tables1, trees1[root], lo, |got|)) == data0
  {
    hide Entry;
    var made := Range(tables1, trees1[root], lo, |got|);
    forall i | 0 <= i < |got|
      ensures Leaf(made[i]) && made[i].ppn == got[i]
    {
      assert made[i] == Entry(tables1, trees1[root], lo + i) == Over(got, perm)[i];
    }
    FramesAre(made, got);
    hide Frames, Leaf, Range, Span, Over;
    assert data1 - (set p | p in got) == data0;
  }

  /** uvmdealloc: the pages above the new size go, with their frames. */
  method UvmDealloc(m: Memory, root: nat, oldsz: nat, newsz: nat, ghost sizes: map<nat, nat>) returns (r: nat)
    requires UsersNow(m, sizes) && root in sizes && sizes[root] == PagesFor(oldsz)
    modifies m
    ensures r == (if newsz < oldsz then newsz else oldsz) && m.trees == old(m.trees)
    ensures UsersNow(m, sizes[root := PagesFor(r)])
    ensures var lo, k := PagesFor(r), PagesFor(oldsz) - PagesFor(r);
            && k >= 0 && root in m.trees
            && Span(old(m.tables), m.trees, m.tables, m.trees, root, lo, seq(k, _ => NO_PTE))
            && m.data == old(m.data) - Frames(Range(old(m.tables), m.trees[root], lo, k))
  {
    hide Forest, PagesOk, Entry, Span, Users, Cleared, Frames, Owns;
    r := if newsz < oldsz then newsz else oldsz;
    ghost var lo, k := PagesFor(r), PagesFor(oldsz) - PagesFor(r);
    UsersLeaf(m.tables, m.trees, m.data, sizes, root, lo, k);
    ghost var tables0, data0 := m.tables, m.data;
    if PagesFor(newsz) < PagesFor(oldsz) {
      m.UnmapPages(root, PagesFor(newsz) * PGSIZE, PagesFor(oldsz) - PagesFor(newsz), true);
      UsersShrink(tables0, m.trees, data0, sizes, m.tables, root, lo, k);
    } else {
      NoneGone(m.tables, m.trees, m.data, root, lo);
      assert sizes[root := lo] == sizes;
    }
  }

  lemma NoneGone(tables: map<nat, Table>, trees: map<nat, Tree>, data: map<nat, Page>, root: nat, lo: nat)
    requires root in trees
    ensures Span(tables, trees, tables, trees, root, lo, seq(0, _ => NO_PTE))
    ensures data - Frames(Range(tables, trees[root], lo, 0)) == data
  {
    hide Entry;
  }

  /** The flags without PTE_U. */
  function KernelOnly(e: Pte): Pte {
    if e.U() then Pte(e.ppn, e.flags - 16) else e
  }

  lemma KernelOnlyKeeps(e: Pte)
    ensures var k := KernelOnly(e); k.ppn == e.ppn && k.V() == e.V() && k.R() == e.R() && k.W() == e.W() && !k.U()
  {
    if e.U() {
      var k := KernelOnly(e);
      var q := k.flags / 32;
      WithoutSixteen(e.flags);
      FlagBits(2 * q, k.flags % 16);
      FlagBits(2 * q + 1, k.flags % 16);
    }
  }

  lemma WithoutSixteen(f: nat)
    requires f / 16 % 2 == 1
    ensures f >= 16
    ensures var g := f - 16; g == 16 * (2 * (g / 32)) + g % 16 && f == 16 * (2 * (g / 32) + 1) + g % 16
  {
    var q := f / 16 / 2;
    assert f / 16 == 2 * q + 1;
    assert f == 16 * (2 * q + 1) + f % 16;
  }

  /** The flags below PTE_U depend on the last four bits, and PTE_U on the others. */
  lemma FlagBits(h: nat, r: nat)
    requires r < 16
    ensures var f := 16 * h + r;
            f % 2 == r % 2 && f / 2 % 2 == r / 2 % 2 && f / 4 % 2 == r / 4 % 2 && f / 16 == h
  {
    var f := 16 * h + r;
    assert f / 2 == 8 * h + r / 2;
    assert f / 4 == 4 * h + r / 4;
    Parity(8 * h, r);
    Parity(4 * h, r / 2);
    Parity(2 * h, r / 4);
  }

  lemma Parity(x: nat, y: nat)
    ensures (2 * x + y) % 2 == y % 2
  {
  }

  /** uvmclear: a guard page; the program loses its way to the page and keeps the page. */
  method UvmClear(m: Memory, root: nat, va: nat, ghost sizes: map<nat, nat>)
    requires UsersNow(m, sizes) && root in sizes && va / PGSIZE < sizes[root]
    modifies m
    ensures UsersNow(m, sizes) && m.data == old(m.data) && m.trees == old(m.trees) && root in m.trees
    ensures Changed(old(m.tables), m.trees, m.tables, root, va / PGSIZE,
                    KernelOnly(Entry(old(m.tables), m.trees[root], va / PGSIZE)))
  {
    hide Forest, PagesOk, Entry, Users, At, Missing, PX, Changed, KernelOnly;
    ghost var n, tables0 := va / PGSIZE, m.tables;
    UserAt(m.tables, m.trees, m.data, sizes, root, n);
    var page, x := m.Walk(root, va, false);
    SamePath(m.tables, m.trees[root], va, page);
    if page == 0 {
      MissingEntry(m.tables, m.trees[root], n);
      assert false;
    } else {
      EntryAt(m.tables, m.trees, root, n, page, x);
      m.SetPte(root, va / PGSIZE, page, x, KernelOnly(m.tables[page][x]));
      UsersClear(tables0, m.trees, m.data, sizes, m.tables, root, n);
    }
  }

  /** An address takes the way of its page. */
  lemma SamePath(tables: map<nat, Table>, t: Tree, va: nat, page: nat)
    ensures var va0 := va / PGSIZE * PGSIZE;
            && PX(0, va0) == PX(0, va) && (Missing(t, va0) <==> Missing(t, va))
            && (At(tables, t, 0, va0, page) <==> At(tables, t, 0, va, page))
  {
    PathOfAddress(va);
    PathOfAddress(va / PGSIZE * PGSIZE);
    hide PX, PathOf;
  }

  lemma UserAt(tables: map<nat, Table>, trees: map<nat, Tree>, data: map<nat, Page>, sizes: map<nat, nat>, r: nat,
               n: nat)
    requires Users(tables, trees, data, sizes) && r in sizes && n < sizes[r]
    ensures r in trees && n < USERTOP && UserEntry(Entry(tables, trees[r], n), data) && !NO_PTE.V()
  {
    hide Entry;
  }

  lemma UsersClear(tables: map<nat, Table>, trees: map<nat, Tree>, data: map<nat, Page>, sizes: map<nat, nat>,
                   tables': map<nat, Table>, r: nat, n: nat)
    requires Users(tables, trees, data, sizes) && r in sizes && n < sizes[r]
    requires Changed(tables, trees, tables', r, n, KernelOnly(Entry(tables, trees[r], n)))
    ensures Users(tables', trees, data, sizes)
  {
    KernelOnlyKeeps(Entry(tables, trees[r], n));
    hide Entry, Pte.V, Pte.R, KernelOnly;
  }

  /**
    uvmcopy as fork calls it. Every entry it meets is one the invariant describes, so a copy that fails gives
    every frame back and leaves every address space as it was.
   */
  method ForkCopy(m: Memory, parent: nat, child: nat, sz: nat, ghost sizes: map<nat, nat>)
    returns (ok: bool, ghost copied: seq<nat>)
    requires UsersNow(m, sizes) && parent in sizes && child in sizes && parent != child
    requires sizes[parent] == PagesFor(sz) && sizes[child] == 0
    modifies m
    ensures ok ==> UsersNow(m, sizes[child := sizes[parent]])
    ensures ok ==>
              && parent in old(m.trees)
              && Copies(old(m.tables), old(m.trees), old(m.data), m.tables, m.trees, m.data, parent, child, copied)
    ensures !ok ==> UsersNow(m, sizes) && m.data == old(m.data)
    ensures !ok ==> Span(old(m.tables), old(m.trees), m.tables, m.trees, child, 0, seq(|copied|, _ => NO_PTE))
  {
    hide Forest, PagesOk, Entry, Users, Span, Copies, Present, Leaf, Cleared, Onto, LeftBehind;
    ghost var tables0, trees0, data0 := m.tables, m.trees, m.data;
    UsersLeaf(m.tables, m.trees, m.data, sizes, parent, 0, PagesFor(sz));
    ChildEmpty(m.tables, m.trees, m.data, sizes, child);
    ok, copied := m.UvmCopy(parent, child, sz);
    if ok {
      UsersForked(tables0, trees0, data0, sizes, m.tables, m.trees, m.data, parent, child, copied);
    } else {
      UsersUnforked(tables0, trees0, data0, sizes, m.tables, m.trees, child, |copied|);
    }
  }

  lemma ChildEmpty(tables: map<nat, Table>, trees: map<nat, Tree>, data: map<nat, Page>, sizes: map<nat, nat>,
                   child: nat)
    requires Users(tables, trees, data, sizes) && child in sizes && sizes[child] == 0
    ensures child in trees && forall n: nat :: n < USERTOP ==> !Entry(tables, trees[child], n).V()
  {
    hide Entry;
  }

  lemma UsersForked(tables: map<nat, Table>, trees: map<nat, Tree>, data: map<nat, Page>, sizes: map<nat, nat>,
                    tables': map<nat, Table>, trees': map<nat, Tree>, data': map<nat, Page>, parent: nat, child: nat,
                    copied: seq<nat>)
    requires Users(tables, trees, data, sizes) && parent in sizes && child in sizes && parent != child
    requires sizes[child] == 0 && |copied| == sizes[parent] && parent in trees
    requires Copies(tables, trees, data, tables', trees', data', parent, child, copied)
    ensures Users(tables', trees', data', sizes[child := sizes[parent]])
  {
    var es := Range(tables, trees[parent], 0, |copied|);
    var sizes' := sizes[child := sizes[parent]];
    hide Entry;
    forall n: nat | n < |copied|
      ensures Entry(tables', trees'[child], n) == Pte(copied[n], es[n].flags)
      ensures UserEntry(Entry(tables', trees'[child], n), data') && copied[n] !in data
    {
      assert UserEntry(Entry(tables, trees[parent], n), data);
      assert es[n] == Entry(tables, trees[parent], n);
      assert copied[n] in copied;
    }
    hide Pte.V, Pte.R, Onto, Range;
    forall r, n: nat | r in sizes && n < sizes[r]
      ensures Entry(tables', trees'[r], n) == Entry(tables, trees[r], n) && Entry(tables, trees[r], n).ppn in data
    {
      assert UserEntry(Entry(tables, trees[r], n), data);
    }
  }

  lemma UsersUnforked(tables: map<nat, Table>, trees: map<nat, Tree>, data: map<nat, Page>, sizes: map<nat, nat>,
                      tables': map<nat, Table>, trees': map<nat, Tree>, child: nat, k: nat)
    requires Users(tables, trees, data, sizes) && child in sizes && sizes[child] == 0
    requires Span(tables, trees, tables', trees', child, 0, seq(k, _ => NO_PTE))
    ensures Users(tables', trees', data, sizes)
  {
    hide Entry;
    assert !NO_PTE.V();
    hide Pte.V, Pte.R;
  }
}
