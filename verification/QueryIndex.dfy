/** The file-attribute index of kernel/agent_fs.c: hash postings, the plain scan and the shared
  * result cache give the same answers. */
module QueryIndex {
  const META_MAX: nat := 160
  const ATTR_MAX: nat := 4
  const BUCKETS: nat := 67
  const POSTING_MAX: nat := META_MAX * ATTR_MAX
  const RESULT_MAX: nat := 3
  const CACHE_MAX: nat := 8

  datatype Attr = Attr(key: string, value: string)

  datatype Meta = Meta(used: bool, inum: nat, path: string, attrs: seq<Attr>, summary: string)

  const NO_META := Meta(false, 0, "", [], "")

  datatype Posting = Posting(used: bool, entry: int, next: int, attr: Attr)

  const NO_POSTING := Posting(false, 0, 0, Attr("", ""))

  /** A query after file_query_parse. */
  datatype Query = Query(conds: seq<Attr>, keyword: string, forceScan: bool)

  /** The reported base result, without the time the query took. */
  datatype Answer = Answer(shown: seq<nat>, count: nat, usedIndex: bool, scanned: nat, fullScanned: nat)

  // ---------------------------------------------------------------- matching

  predicate DistinctKeys(attrs: seq<Attr>) {
    forall i, j :: 0 <= i < j < |attrs| ==> attrs[i].key != attrs[j].key
  }

  predicate MetaOk(meta: seq<Meta>) {
    |meta| == META_MAX && forall i :: 0 <= i < META_MAX ==> |meta[i].attrs| <= ATTR_MAX
  }

  predicate Contains(s: string, needle: string) {
    exists k :: 0 <= k <= |s| && needle <= s[k..]
  }

  /** Every condition is an attribute of the file, and a keyword occurs in its summary. */
  predicate Matches(m: Meta, q: Query) {
    && (forall c :: c in q.conds ==> c in m.attrs)
    && (q.keyword != "" ==> Contains(m.summary, q.keyword))
  }

  /** str_contains. */
  method StrContains(s: string, needle: string) returns (r: bool)
    ensures r <==> exists k :: 0 <= k <= |s| && needle <= s[k..]
  {
    if |needle| == 0 {
      assert needle <= s[0..];
      return true;
    }
    var i := 0;
    while i < |s|
      invariant 0 <= i <= |s| && forall k :: 0 <= k < i ==> !(needle <= s[k..])
    {
      if needle <= s[i..] {
        return true;
      }
      i := i + 1;
    }
    r := false;
  }

  /** file_attr_match. */
  method FileAttrMatch(attrs: seq<Attr>, key: string, value: string) returns (r: bool)
    ensures r <==> Carries(attrs, key, value)
  {
    var i := 0;
    while i < |attrs|
      invariant 0 <= i <= |attrs| && forall k :: 0 <= k < i ==> attrs[k].key != key || attrs[k].value != value
    {
      if attrs[i].key == key && attrs[i].value == value {
        return true;
      }
      i := i + 1;
    }
    r := false;
  }

  /** file_meta_matches. */
  method FileMetaMatches(m: Meta, q: Query) returns (r: bool)
    ensures r <==> Matches(m, q)
  {
    CarriesAll(m.attrs, q.conds);
    hide Carries;
    var i := 0;
    while i < |q.conds|
      invariant 0 <= i <= |q.conds| && forall k :: 0 <= k < i ==> Carries(m.attrs, q.conds[k].key, q.conds[k].value)
    {
      var has := FileAttrMatch(m.attrs, q.conds[i].key, q.conds[i].value);
      if !has {
        return false;
      }
      i := i + 1;
    }
    if |q.keyword| != 0 {
      var has := StrContains(m.summary, q.keyword);
      if !has {
        return false;
      }
    }
    r := true;
  }

  predicate Carries(attrs: seq<Attr>, key: string, value: string) {
    exists a :: 0 <= a < |attrs| && attrs[a].key == key && attrs[a].value == value
  }

  /** The files a query asks for: for every condition an attribute of equal key and value, and the keyword, unless
    * it is empty, somewhere in the summary. */
  ghost function Wanted(meta: seq<Meta>, q: Query): set<nat> {
    set i | 0 <= i < |meta| && meta[i].used
            && (forall c :: 0 <= c < |q.conds| ==> Carries(meta[i].attrs, q.conds[c].key, q.conds[c].value))
            && (|q.keyword| == 0 || exists k :: 0 <= k <= |meta[i].summary| && q.keyword <= meta[i].summary[k..])
  }

  lemma MatchesIffWanted(meta: seq<Meta>, q: Query, i: nat)
    requires i < |meta|
    ensures i in Wanted(meta, q) <==> meta[i].used && Matches(meta[i], q)
  {
    CarriesAll(meta[i].attrs, q.conds);
    hide Carries;
  }

  lemma CarriesAll(attrs: seq<Attr>, conds: seq<Attr>)
    ensures (forall c :: c in conds ==> c in attrs) <==>
              forall c :: 0 <= c < |conds| ==> Carries(attrs, conds[c].key, conds[c].value)
  {
    forall c | 0 <= c < |conds|
      ensures conds[c] in attrs <==> Carries(attrs, conds[c].key, conds[c].value)
    {
      CarriesIff(attrs, conds[c]);
    }
    hide Carries;
    if forall c :: c in conds ==> c in attrs {
      forall c | 0 <= c < |conds|
        ensures Carries(attrs, conds[c].key, conds[c].value)
      {
        assert conds[c] in conds;
      }
    }
  }

  lemma CarriesIff(attrs: seq<Attr>, c: Attr)
    ensures c in attrs <==> Carries(attrs, c.key, c.value)
  {
    if a :| 0 <= a < |attrs| && attrs[a].key == c.key && attrs[a].value == c.value {
      assert attrs[a] == c;
    }
  }

  function HashString(s: string, h: nat): nat
    decreases |s|
  {
    if s == "" then h else HashString(s[1..], (h * 33 + s[0] as int) % 0x1_0000_0000)
  }

  /** file_attr_hash. */
  function Hash(a: Attr): (h: nat)
    ensures h < BUCKETS
  {
    HashString(a.value, (HashString(a.key, 5381) * 33 + '=' as int) % 0x1_0000_0000) % BUCKETS
  }

  // ---------------------------------------------------------------- what the index holds

  datatype Entry = Entry(file: nat, attr: Attr)

  function FileEntries(i: nat, attrs: seq<Attr>): (es: seq<Entry>)
    ensures |es| == |attrs| && forall j :: 0 <= j < |attrs| ==> es[j] == Entry(i, attrs[j])
  {
    seq(|attrs|, j requires 0 <= j < |attrs| => Entry(i, attrs[j]))
  }

  /** Every attribute of the first n files, file by file. */
  function Entries(meta: seq<Meta>, n: nat): seq<Entry>
    requires n <= |meta|
  {
    if n == 0 then []
    else Entries(meta, n - 1) + if meta[n - 1].used then FileEntries(n - 1, meta[n - 1].attrs) else []
  }

  /** The places below k of the entries that hash to h, last first. */
  function Bucket(es: seq<Entry>, k: nat, h: nat): seq<nat>
    requires k <= |es|
  {
    if k == 0 then [] else (if Hash(es[k - 1].attr) == h then [k - 1] else []) + Bucket(es, k - 1, h)
  }

  /** The slots met by following next from p. */
  function Chain(postings: seq<Posting>, p: int): seq<nat>
    decreases p
  {
    if 0 <= p < |postings| then [p] + if postings[p].next < p then Chain(postings, postings[p].next) else [] else []
  }

  /** The postings are the entries es, in order, and each bucket's chain lists its entries from
    * the last to the first; every link points to a lower slot. */
  ghost predicate Indexed(es: seq<Entry>, postings: seq<Posting>, heads: seq<int>) {
    && |postings| == POSTING_MAX && |heads| == BUCKETS && |es| <= POSTING_MAX
    && (forall s :: 0 <= s < |es| ==>
          postings[s].used && postings[s].entry == es[s].file && postings[s].attr == es[s].attr
                                      && -1 <= postings[s].next < s)
    && (forall s :: |es| <= s < POSTING_MAX ==> !postings[s].used)
    && (forall h :: 0 <= h < BUCKETS ==> -1 <= heads[h] < |es| && Chain(postings, heads[h]) == Bucket(es, |es|, h))
  }

  lemma {:induction false} EntriesBound(meta: seq<Meta>, n: nat)
    requires MetaOk(meta) && n <= META_MAX
    ensures |Entries(meta, n)| <= n * ATTR_MAX
    ensures forall e :: e in Entries(meta, n) ==> e.file < n && meta[e.file].used && e.attr in meta[e.file].attrs
  {
    if n > 0 {
      EntriesBound(meta, n - 1);
    }
  }

  lemma {:induction false} ChainSame(a: seq<Posting>, b: seq<Posting>, p: int, n: nat)
    requires p < n <= |a| == |b| && forall s :: 0 <= s < n ==> a[s] == b[s]
    ensures Chain(a, p) == Chain(b, p)
    decreases p
  {
    if 0 <= p && a[p].next < p {
      ChainSame(a, b, a[p].next, n);
    }
  }

  lemma {:induction false} BucketPrefix(es: seq<Entry>, e: Entry, k: nat, h: nat)
    requires k <= |es|
    ensures Bucket(es + [e], k, h) == Bucket(es, k, h)
  {
    if k > 0 {
      BucketPrefix(es, e, k - 1, h);
    }
  }

  /** One posting more, at the first free slot and the front of its bucket. */
  lemma IndexedPush(es: seq<Entry>, postings: seq<Posting>, heads: seq<int>, e: Entry)
    requires Indexed(es, postings, heads) && |es| < POSTING_MAX
    ensures var h := Hash(e.attr);
            Indexed(es + [e], postings[|es| := Posting(true, e.file, heads[h], e.attr)], heads[h := |es|])
  {
    hide Hash, Chain, Bucket;
    var h := Hash(e.attr);
    var n := |es|;
    var postings', heads' := postings[n := Posting(true, e.file, heads[h], e.attr)], heads[h := n];
    forall g | 0 <= g < BUCKETS
      ensures -1 <= heads'[g] < n + 1 && Chain(postings', heads'[g]) == Bucket(es + [e], n + 1, g)
    {
      BucketPush(es, postings, heads, e, g);
    }
  }

  lemma BucketPush(es: seq<Entry>, postings: seq<Posting>, heads: seq<int>, e: Entry, g: nat)
    requires Indexed(es, postings, heads) && |es| < POSTING_MAX && g < BUCKETS
    ensures var n, h := |es|, Hash(e.attr);
            var p := if g == h then n else heads[g];
            && -1 <= p < n + 1
            && Chain(postings[n := Posting(true, e.file, heads[h], e.attr)], p) == Bucket(es + [e], n + 1, g)
  {
    hide Hash;
    var n, h := |es|, Hash(e.attr);
    var postings' := postings[n := Posting(true, e.file, heads[h], e.attr)];
    ChainSame(postings, postings', heads[g], n);
    BucketPrefix(es, e, n, g);
  }

  // ---------------------------------------------------------------- two ways to answer

  /** The matching files in file order: the scan. */
  function ScanList(meta: seq<Meta>, q: Query, n: nat): seq<nat>
    requires n <= |meta|
  {
    if n == 0 then []
    else ScanList(meta, q, n - 1) + if meta[n - 1].used && Matches(meta[n - 1], q) then [n - 1] else []
  }

  predicate Hit(meta: seq<Meta>, q: Query, e: Entry) {
    q.conds != [] && e.attr == q.conds[0] && e.file < |meta| && meta[e.file].used && Matches(meta[e.file], q)
  }

  /** The files of the entries that answer the query, in entry order. */
  function HitList(meta: seq<Meta>, q: Query, es: seq<Entry>): seq<nat> {
    if es == [] then []
    else HitList(meta, q, es[..|es| - 1]) + if Hit(meta, q, es[|es| - 1]) then [es[|es| - 1].file] else []
  }

  /** The files met by walking a list of slots. */
  function WalkList(meta: seq<Meta>, q: Query, es: seq<Entry>, slots: seq<nat>): seq<nat> {
    if slots == [] then []
    else
      (if slots[0] < |es| && Hit(meta, q, es[slots[0]]) then [es[slots[0]].file] else [])
      + WalkList(meta, q, es, slots[1..])
  }

  function Reverse<T>(s: seq<T>): (r: seq<T>)
    ensures |r| == |s| && forall k :: 0 <= k < |s| ==> r[k] == s[|s| - 1 - k]
  {
    seq(|s|, k requires 0 <= k < |s| => s[|s| - 1 - k])
  }

  /** Walking the bucket of the first condition meets the hits from the last to the first. */
  lemma {:induction false} WalkIsHits(meta: seq<Meta>, q: Query, es: seq<Entry>, k: nat)
    requires k <= |es| && q.conds != []
    ensures WalkList(meta, q, es, Bucket(es, k, Hash(q.conds[0]))) == Reverse(HitList(meta, q, es[..k]))
  {
    hide Hash, Hit, Matches;
    var h := Hash(q.conds[0]);
    if k > 0 {
      WalkIsHits(meta, q, es, k - 1);
      HitHashes(meta, q, es[k - 1]);
      assert es[..k][..k - 1] == es[..k - 1];
      var rest := Bucket(es, k - 1, h);
      if Hash(es[k - 1].attr) == h {
        assert Bucket(es, k, h)[1..] == rest;
      } else {
        assert Bucket(es, k, h) == rest;
      }
    }
  }

  lemma HitHashes(meta: seq<Meta>, q: Query, e: Entry)
    requires q.conds != []
    ensures Hit(meta, q, e) ==> Hash(e.attr) == Hash(q.conds[0])
  {
  }

  function Times(attrs: seq<Attr>, a: Attr): (n: nat)
    ensures n <= |attrs| && (n > 0 <==> a in attrs)
  {
    if attrs == [] then 0 else Times(attrs[..|attrs| - 1], a) + if attrs[|attrs| - 1] == a then 1 else 0
  }

  lemma {:induction false} DistinctOnce(attrs: seq<Attr>, a: Attr)
    requires DistinctKeys(attrs)
    ensures Times(attrs, a) <= 1
  {
    if attrs != [] {
      DistinctOnce(attrs[..|attrs| - 1], a);
    }
  }

  lemma {:induction false} HitAppend(meta: seq<Meta>, q: Query, a: seq<Entry>, b: seq<Entry>)
    ensures HitList(meta, q, a + b) == HitList(meta, q, a) + HitList(meta, q, b)
  {
    hide Hit;
    if b == [] {
      assert a + b == a;
    } else {
      HitAppend(meta, q, a, b[..|b| - 1]);
      assert (a + b)[..|a + b| - 1] == a + b[..|b| - 1];
    }
  }

  lemma EntryHits(meta: seq<Meta>, q: Query, i: nat, a: Attr)
    requires q.conds != [] && i < |meta| && meta[i].used
    ensures Hit(meta, q, Entry(i, a)) <==> a == q.conds[0] && Matches(meta[i], q)
  {
  }

  /** A file contributes itself once per attribute equal to the first condition. */
  lemma {:induction false} FileHits(meta: seq<Meta>, q: Query, i: nat, attrs: seq<Attr>)
    requires q.conds != [] && i < |meta| && meta[i].used
    ensures HitList(meta, q,
                    FileEntries(i, attrs)) == if Matches(meta[i], q) then seq(Times(attrs, q.conds[0]), _ => i) else []
  {
    hide Matches, Hit;
    var es := FileEntries(i, attrs);
    if attrs != [] {
      FileHits(meta, q, i, attrs[..|attrs| - 1]);
      assert es[..|es| - 1] == FileEntries(i, attrs[..|attrs| - 1]);
      EntryHits(meta, q, i, attrs[|attrs| - 1]);
    }
  }

  /** No matching file carries the first condition's attribute twice. */
  predicate Once(meta: seq<Meta>, q: Query, n: nat)
    requires n <= |meta| && q.conds != []
  {
    forall i :: 0 <= i < n && meta[i].used && Matches(meta[i], q) ==> Times(meta[i].attrs, q.conds[0]) == 1
  }

  lemma MatchingHasFirst(m: Meta, q: Query)
    requires q.conds != [] && Matches(m, q)
    ensures Times(m.attrs, q.conds[0]) > 0
  {
    assert q.conds[0] in q.conds;
  }

  /** The index finds the files the scan finds, in the same order of files, exactly when no
    * matching file is indexed twice under the condition; otherwise it counts more. */
  lemma {:induction false} HitsIffOnce(meta: seq<Meta>, q: Query, n: nat)
    requires n <= |meta| && q.conds != []
    ensures |HitList(meta, q, Entries(meta, n))| >= |ScanList(meta, q, n)|
    ensures |HitList(meta, q, Entries(meta, n))| == |ScanList(meta, q, n)| <==> Once(meta, q, n)
    ensures Once(meta, q, n) ==> HitList(meta, q, Entries(meta, n)) == ScanList(meta, q, n)
  {
    hide Matches, Times, Hit, HitList, Entries, Once;
    if n == 0 {
      HitsNone(meta, q);
    } else {
      HitsIffOnce(meta, q, n - 1);
      HitsStep(meta, q, n);
      OnceStep(meta, q, n);
      var t := Times(meta[n - 1].attrs, q.conds[0]);
      assert t == 1 ==> seq(t, _ => n - 1) == [n - 1];
    }
  }

  /** One file that carries an attribute twice, which no operation here writes: the index counts it twice. */
  lemma CountedTwice(a: Attr) returns (meta: seq<Meta>, q: Query)
    ensures MetaOk(meta) && meta[0].used && meta[0].attrs == [a, a] && q == Query([a], "", false)
    ensures |ScanList(meta, q, META_MAX)| == 1 && |HitList(meta, q, Entries(meta, META_MAX))| == 2
  {
    meta := [Meta(true, 1, "", [a, a], "")] + seq(META_MAX - 1, _ => NO_META);
    q := Query([a], "", false);
    OnlyFirst(meta, q, META_MAX);
    OnlyFirst(meta, q, 1);
    HitsNone(meta, q);
    HitsStep(meta, q, 1);
    assert [a, a][..1] == [a] && [a][..0] == [];
  }

  /** Files not in use are neither scanned nor indexed. */
  lemma {:induction false} OnlyFirst(meta: seq<Meta>, q: Query, n: nat)
    requires 1 <= n <= |meta| && forall i :: 1 <= i < n ==> !meta[i].used
    ensures Entries(meta, n) == Entries(meta, 1) && ScanList(meta, q, n) == ScanList(meta, q, 1)
  {
    if n > 1 {
      OnlyFirst(meta, q, n - 1);
      hide Matches;
      assert Entries(meta, n) == Entries(meta, n - 1) + [] && ScanList(meta, q, n) == ScanList(meta, q, n - 1) + [];
    }
  }

  lemma HitsNone(meta: seq<Meta>, q: Query)
    requires q.conds != []
    ensures HitList(meta, q, Entries(meta, 0)) == [] && Once(meta, q, 0)
  {
  }

  lemma HitsStep(meta: seq<Meta>, q: Query, n: nat)
    requires 0 < n <= |meta| && q.conds != []
    ensures HitList(meta, q, Entries(meta, n)) == HitList(meta, q, Entries(meta, n - 1))
      + if meta[n - 1].used && Matches(meta[n - 1], q) then seq(Times(meta[n - 1].attrs, q.conds[0]), _ => n - 1)
        else []
  {
    hide Matches, Times, Hit, HitList;
    var m := meta[n - 1];
    if m.used {
      HitAppend(meta, q, Entries(meta, n - 1), FileEntries(n - 1, m.attrs));
      FileHits(meta, q, n - 1, m.attrs);
    } else {
      assert Entries(meta, n) == Entries(meta, n - 1);
    }
  }

  lemma OnceStep(meta: seq<Meta>, q: Query, n: nat)
    requires 0 < n <= |meta| && q.conds != []
    ensures Once(meta, q, n) <==>
              && Once(meta, q, n - 1)
              && (meta[n - 1].used && Matches(meta[n - 1], q) ==> Times(meta[n - 1].attrs, q.conds[0]) == 1)
    ensures meta[n - 1].used && Matches(meta[n - 1], q) ==> Times(meta[n - 1].attrs, q.conds[0]) > 0
  {
    hide Matches, Times;
    if meta[n - 1].used && Matches(meta[n - 1], q) {
      MatchingHasFirst(meta[n - 1], q);
    }
  }

  /** A query answered through the index and by a scan. */
  lemma IndexAgreesWithScanIff(meta: seq<Meta>, q: Query)
    requires MetaOk(meta) && q.conds != []
    ensures var es := Entries(meta, META_MAX);
            var walked := WalkList(meta, q, es, Bucket(es, |es|, Hash(q.conds[0])));
            && |es| <= POSTING_MAX
            && (Once(meta, q, META_MAX) <==> |walked| == |ScanList(meta, q, META_MAX)|)
            && (Once(meta, q, META_MAX) <==> walked == Reverse(ScanList(meta, q, META_MAX)))
  {
    hide Hash, Hit, Matches, Once, Entries, HitList, ScanList, Bucket, WalkList;
    EntriesBound(meta, META_MAX);
    var es := Entries(meta, META_MAX);
    WalkIsHits(meta, q, es, |es|);
    assert es[..|es|] == es;
    HitsIffOnce(meta, q, META_MAX);
  }

  lemma DistinctKeysOnce(meta: seq<Meta>, q: Query)
    requires MetaOk(meta) && q.conds != [] && forall i :: 0 <= i < META_MAX ==> DistinctKeys(meta[i].attrs)
    ensures Once(meta, q, META_MAX)
  {
    forall i | 0 <= i < META_MAX && meta[i].used && Matches(meta[i], q)
      ensures Times(meta[i].attrs, q.conds[0]) == 1
    {
      DistinctOnce(meta[i].attrs, q.conds[0]);
      MatchingHasFirst(meta[i], q);
    }
  }

  // ---------------------------------------------------------------- the answer of a fresh run

  function Firsts(s: seq<nat>): (r: seq<nat>)
    ensures |r| <= RESULT_MAX && r <= s
  {
    if |s| <= RESULT_MAX then s else s[..RESULT_MAX]
  }

  function UsedCount(meta: seq<Meta>, n: nat): nat
    requires n <= |meta|
  {
    if n == 0 then 0 else UsedCount(meta, n - 1) + if meta[n - 1].used then 1 else 0
  }

  /** The base result of the query on these files: by index when there is a condition and no
    * scan is asked for. */
  function Run(meta: seq<Meta>, q: Query): Answer
    requires MetaOk(meta)
  {
    if q.conds != [] && !q.forceScan then
      var es := Entries(meta, META_MAX);
      var chain := Bucket(es, |es|, Hash(q.conds[0]));
      var found := WalkList(meta, q, es, chain);
      Answer(Firsts(found), |found|, true, |chain|, UsedCount(meta, META_MAX))
    else
      var found := ScanList(meta, q, META_MAX);
      Answer(Firsts(found), |found|, false, UsedCount(meta, META_MAX), UsedCount(meta, META_MAX))
  }

  ghost function Below(s: set<nat>, n: nat): set<nat> {
    set i | i in s && i < n
  }

  lemma BelowNext(s: set<nat>, n: nat)
    ensures Below(s, n + 1) == Below(s, n) + if n in s then {n} else {}
    ensures |Below(s, n + 1)| == |Below(s, n)| + if n in s then 1 else 0
  {
    assert Below(s, n + 1) == Below(s, n) + if n in s then {n} else {};
  }

  /** The scan lists the files wanted, each once. */
  lemma {:induction false} ScanIsWanted(meta: seq<Meta>, q: Query, n: nat)
    requires n <= |meta|
    ensures |ScanList(meta, q, n)| == |Below(Wanted(meta, q), n)|
    ensures forall i :: i in ScanList(meta, q, n) ==> i in Wanted(meta, q) && i < n
  {
    hide Matches, Wanted, Below;
    if n == 0 {
      NoneBelow(Wanted(meta, q));
    } else {
      ScanIsWanted(meta, q, n - 1);
      MatchesIffWanted(meta, q, n - 1);
      BelowNext(Wanted(meta, q), n - 1);
    }
  }

  lemma NoneBelow(s: set<nat>)
    ensures Below(s, 0) == {}
  {
  }

  /** Every file shown is wanted. Of those there are as many as the answer counts, unless the index was asked and
    * some file carries the first condition twice, when it counts more; and the first of them are shown. */
  lemma AnswerIsWanted(meta: seq<Meta>, q: Query)
    requires MetaOk(meta)
    ensures var answer := Run(meta, q);
            && (forall i :: i in answer.shown ==> i in Wanted(meta, q))
            && |answer.shown| == (if answer.count <= RESULT_MAX then answer.count else RESULT_MAX)
            && answer.count >= |Wanted(meta, q)|
            && (answer.count == |Wanted(meta, q)| <==> q.forceScan || q.conds == [] || Once(meta, q, META_MAX))
  {
    hide Matches, Hit, Once, Wanted, Below, ScanList, HitList, WalkList, Bucket, Entries, Hash;
    ScanIsWanted(meta, q, META_MAX);
    WantedBelow(meta, q);
    if q.conds != [] && !q.forceScan {
      var es := Entries(meta, META_MAX);
      WalkIsHits(meta, q, es, |es|);
      assert es[..|es|] == es;
      HitsIffOnce(meta, q, META_MAX);
      HitsWanted(meta, q, es);
    }
  }

  /** With distinct keys the count is the number of files wanted. */
  lemma AnswerCounts(meta: seq<Meta>, q: Query)
    requires MetaOk(meta)
    ensures forall i :: i in Run(meta, q).shown ==> i in Wanted(meta, q)
    ensures (forall i :: 0 <= i < META_MAX ==> DistinctKeys(meta[i].attrs)) ==>
              Run(meta, q).count == |Wanted(meta, q)|
  {
    hide Run, Wanted, Once, DistinctKeys;
    AnswerIsWanted(meta, q);
    if q.conds != [] && forall i :: 0 <= i < META_MAX ==> DistinctKeys(meta[i].attrs) {
      DistinctKeysOnce(meta, q);
    }
  }

  lemma WantedBelow(meta: seq<Meta>, q: Query)
    ensures Below(Wanted(meta, q), |meta|) == Wanted(meta, q)
  {
  }

  lemma {:induction false} HitsWanted(meta: seq<Meta>, q: Query, es: seq<Entry>)
    ensures forall i :: i in HitList(meta, q, es) ==> i in Wanted(meta, q)
  {
    hide Matches, Wanted;
    if es != [] {
      HitsWanted(meta, q, es[..|es| - 1]);
      if Hit(meta, q, es[|es| - 1]) {
        MatchesIffWanted(meta, q, es[|es| - 1].file);
      }
    }
  }

  /** With distinct keys in every file, forcing a scan changes neither the count nor the files. */
  lemma ScanAndIndexAgree(meta: seq<Meta>, q: Query)
    requires MetaOk(meta) && forall i :: 0 <= i < META_MAX ==> DistinctKeys(meta[i].attrs)
    ensures var scan := Run(meta, q.(forceScan := true)); var index := Run(meta, q.(forceScan := false));
            && scan.count == index.count
            && (scan.count <= RESULT_MAX && q.conds != [] ==> index.shown == Reverse(scan.shown))
  {
    var scan, index := q.(forceScan := true), q.(forceScan := false);
    SameScan(meta, scan, index, META_MAX);
    if q.conds != [] {
      DistinctKeysOnce(meta, index);
      IndexAgreesWithScanIff(meta, index);
    }
  }

  lemma {:induction false} SameScan(meta: seq<Meta>, p: Query, q: Query, n: nat)
    requires n <= |meta| && p.conds == q.conds && p.keyword == q.keyword
    ensures ScanList(meta, p, n) == ScanList(meta, q, n)
  {
    if n > 0 {
      SameScan(meta, p, q, n - 1);
    }
  }

  // ---------------------------------------------------------------- the index in memory

  datatype Option<T> = None | Some(value: T)

  datatype CacheEntry = CacheEntry(used: bool, query: string, answer: Answer, ownerPid: int, ownerGroup: int,
                                   refcnt: nat, version: nat)

  const NO_ENTRY := CacheEntry(false, "", Answer([], 0, false, 0, 0), 0, 0, 0, 0)

  /** Entries of the current version hold what a fresh run of their query would give. */
  ghost predicate CacheOk(cache: seq<CacheEntry>, version: nat, parse: string -> Option<Query>, meta: seq<Meta>)
    requires MetaOk(meta)
  {
    && |cache| == CACHE_MAX
    && (forall c :: 0 <= c < CACHE_MAX && cache[c].used ==> cache[c].version <= version)
    && (forall c :: 0 <= c < CACHE_MAX && cache[c].used && cache[c].version == version ==>
          parse(cache[c].query).Some? && cache[c].answer == Run(meta, parse(cache[c].query).value))
  }

  class FileIndex {
    var meta: seq<Meta>
    var postings: seq<Posting>
    var heads: seq<int>
    var ready: bool
    var version: nat
    var cache: seq<CacheEntry>

    /** file_query_parse, and whether a query may be shared with every group. */
    const parse: string -> Option<Query>
    const shared: string -> bool

    ghost predicate Valid()
      reads this
    {
      && MetaOk(meta) && CacheOk(cache, version, parse, meta)
      && (ready ==> Indexed(Entries(meta, META_MAX), postings, heads))
      && (!ready ==> forall c :: 0 <= c < CACHE_MAX ==> !cache[c].used)
    }

    constructor (parse: string -> Option<Query>, shared: string -> bool)
      ensures Valid() && !ready && this.parse == parse && this.shared == shared
    {
      meta, postings, heads := seq(META_MAX, i => NO_META), [], [];
      ready, version, cache := false, 1, seq(CACHE_MAX, c => NO_ENTRY);
      this.parse, this.shared := parse, shared;
    }

    /** file_add_posting_locked: there is always a free slot. */
    method AddPosting(i: nat, attr: Attr, ghost es: seq<Entry>)
      requires Indexed(es, postings, heads) && |es| < POSTING_MAX
      modifies this`postings, this`heads
      ensures Indexed(es + [Entry(i, attr)], postings, heads)
    {
      var slot := 0;
      while slot < POSTING_MAX && postings[slot].used
        invariant slot <= |es|
      {
        slot := slot + 1;
      }
      hide Indexed, Hash;
      AtFree(es, postings, heads, slot);
      if slot == POSTING_MAX {
        assert false;
      } else {
        var h := Hash(attr);
        IndexedPush(es, postings, heads, Entry(i, attr));
        postings := postings[slot := Posting(true, i, heads[h], attr)];
        heads := heads[h := slot];
      }
    }

    lemma AtFree(es: seq<Entry>, postings: seq<Posting>, heads: seq<int>, slot: nat)
      requires Indexed(es, postings, heads) && |es| < POSTING_MAX
      requires slot <= |es| && (slot < POSTING_MAX ==> !postings[slot].used)
      ensures slot == |es| && |postings| == POSTING_MAX && |heads| == BUCKETS
    {
    }

    /** file_rebuild_postings_locked. */
    method Rebuild()
      requires MetaOk(meta)
      modifies this`postings, this`heads
      ensures Indexed(Entries(meta, META_MAX), postings, heads)
    {
      hide Hash;
      postings, heads := seq(POSTING_MAX, s => NO_POSTING), seq(BUCKETS, h => -1);
      var i := 0;
      while i < META_MAX
        invariant i <= META_MAX && Indexed(Entries(meta, i), postings, heads)
      {
        hide Indexed;
        if meta[i].used {
          RebuildFile(i);
        } else {
          assert Entries(meta, i + 1) == Entries(meta, i);
        }
        i := i + 1;
      }
    }

    method RebuildFile(i: nat)
      requires MetaOk(meta) && i < META_MAX && meta[i].used && Indexed(Entries(meta, i), postings, heads)
      modifies this`postings, this`heads
      ensures Indexed(Entries(meta, i + 1), postings, heads)
    {
      hide Indexed;
      var attrs := meta[i].attrs;
      EntriesBound(meta, i);
      var j := 0;
      assert Entries(meta, i) + FileEntries(i, attrs[..0]) == Entries(meta, i);
      while j < |attrs|
        invariant j <= |attrs| && Indexed(Entries(meta, i) + FileEntries(i, attrs[..j]), postings, heads)
      {
        AddPosting(i, attrs[j], Entries(meta, i) + FileEntries(i, attrs[..j]));
        assert Entries(meta, i) + FileEntries(i, attrs[..j]) + [Entry(i, attrs[j])]
            == Entries(meta, i) + FileEntries(i, attrs[..j + 1]);
        j := j + 1;
      }
      assert attrs[..j] == attrs;
    }

    /** file_index_build on the files found on disk, and agent_file_version_bump: cached answers
      * of the old version are never given out again. */
    method ContentChanged(disk: seq<Meta>)
      requires Valid() && MetaOk(disk)
      modifies this
      ensures Valid() && ready && meta == disk && version == old(version) + 1 && cache == old(cache)
    {
      meta := disk;
      Rebuild();
      ready := true;
      version := version + 1;
    }

    /** An answer to this very query, of the current version, that this group may see. */
    predicate Usable(e: CacheEntry, text: string, group: int)
      reads this
    {
      e.used && e.version == version && e.query == text && (shared(e.query) || (group != 0 && group == e.ownerGroup))
    }

    /** Entry c is the first usable one, and has been counted once more. */
    predicate CountedHit(was: seq<CacheEntry>, now: seq<CacheEntry>, c: nat, text: string, group: int)
      reads this
    {
      && |was| == CACHE_MAX && c < CACHE_MAX && Usable(was[c], text, group)
      && (forall d :: 0 <= d < c ==> !Usable(was[d], text, group))
      && now == was[c := was[c].(refcnt := was[c].refcnt + 1)]
    }

    /** shared_query_cache_lookup by a process of this group. */
    method Lookup(text: string, group: int) returns (answer: Option<Answer>)
      requires Valid()
      modifies this`cache
      ensures Valid()
      ensures answer.Some? ==> ready && parse(text).Some? && answer.value == Run(meta, parse(text).value)
      ensures answer.None? <==> forall c :: 0 <= c < CACHE_MAX ==> !Usable(old(cache)[c], text, group)
      ensures answer.None? ==> cache == old(cache)
      ensures answer.Some? ==>
                exists c | 0 <= c < CACHE_MAX ::
                  CountedHit(old(cache), cache, c, text, group) && answer.value == cache[c].answer
    {
      hide Run, Indexed;
      var c := 0;
      while c < CACHE_MAX
        invariant c <= CACHE_MAX && cache == old(cache)
        invariant forall d :: 0 <= d < c ==> !Usable(cache[d], text, group)
      {
        var e := cache[c];
        var visible := shared(e.query) || (group != 0 && group == e.ownerGroup);
        if e.used && e.version == version && e.query == text && visible {
          cache := cache[c := e.(refcnt := e.refcnt + 1)];
          assert CountedHit(old(cache), cache, c, text, group);
          return Some(e.answer);
        }
        c := c + 1;
      }
      answer := None;
    }

    /** shared_query_cache_store: into the slot of the same query, else the first free one, else the first. */
    method Store(text: string, answer: Answer, pid: int, group: int) returns (slot: nat)
      requires Valid() && ready && parse(text).Some? && answer == Run(meta, parse(text).value)
      modifies this`cache
      ensures Valid()
      ensures slot < CACHE_MAX && cache == old(cache)[slot := CacheEntry(true, text, answer, pid, group, 1, version)]
      ensures if exists c :: 0 <= c < CACHE_MAX && Holds(old(cache)[c], text)
              then Holds(old(cache)[slot], text) && forall c :: 0 <= c < slot ==> !Holds(old(cache)[c], text)
              else if exists c :: 0 <= c < CACHE_MAX && !old(cache)[c].used
              then !old(cache)[slot].used && forall c :: 0 <= c < slot ==> old(cache)[c].used
              else slot == 0
    {
      hide Run, Indexed;
      slot := CACHE_MAX;
      var c := 0;
      while c < CACHE_MAX
        invariant c <= CACHE_MAX && slot <= CACHE_MAX
        invariant forall d :: 0 <= d < c ==> !Holds(cache[d], text)
        invariant slot < CACHE_MAX ==> !cache[slot].used && forall d :: 0 <= d < slot ==> cache[d].used
        invariant slot == CACHE_MAX ==> forall d :: 0 <= d < c ==> cache[d].used
      {
        if cache[c].used && cache[c].query == text {
          slot := c;
          assert Holds(cache[slot], text);
          break;
        }
        if !cache[c].used && slot == CACHE_MAX {
          slot := c;
        }
        c := c + 1;
      }
      if slot == CACHE_MAX {
        slot := 0;
      }
      cache := cache[slot := CacheEntry(true, text, answer, pid, group, 1, version)];
    }

    predicate Holds(e: CacheEntry, text: string) {
      e.used && e.query == text
    }

    /** The walk along one bucket's chain. */
    method WalkIndex(q: Query) returns (found: seq<nat>, scanned: nat)
      requires MetaOk(meta) && Indexed(Entries(meta, META_MAX), postings, heads) && q.conds != []
      ensures var es := Entries(meta, META_MAX); var chain := Bucket(es, |es|, Hash(q.conds[0]));
              found == WalkList(meta, q, es, chain) && scanned == |chain|
    {
      hide Hash, Matches, Bucket;
      ghost var es := Entries(meta, META_MAX);
      EntriesBound(meta, META_MAX);
      var post := heads[Hash(q.conds[0])];
      ghost var chain := Chain(postings, post);
      found, scanned := [], 0;
      while post >= 0
        invariant -1 <= post < |es|
        invariant found + WalkList(meta, q, es, Chain(postings, post)) == WalkList(meta, q, es, chain)
        invariant scanned + |Chain(postings, post)| == |chain|
        decreases post
      {
        ChainAt(es, postings, heads, post);
        ghost var was := found;
        scanned := scanned + 1;
        var e := postings[post];
        if e.attr.key == q.conds[0].key && e.attr.value == q.conds[0].value
           && 0 <= e.entry < META_MAX && meta[e.entry].used {
          var matches := FileMetaMatches(meta[e.entry], q);
          if matches {
            found := found + [e.entry];
          }
        }
        WalkStep(meta, q, es, was, found, post, Chain(postings, e.next), chain);
        post := e.next;
      }
    }

    /** The scan of every file. */
    method ScanAll(q: Query) returns (found: seq<nat>, scanned: nat)
      requires MetaOk(meta)
      ensures found == ScanList(meta, q, META_MAX) && scanned == UsedCount(meta, META_MAX)
    {
      hide Matches;
      found, scanned := [], 0;
      var i := 0;
      while i < META_MAX
        invariant i <= META_MAX && found == ScanList(meta, q, i) && scanned == UsedCount(meta, i)
      {
        if meta[i].used {
          scanned := scanned + 1;
          var matches := FileMetaMatches(meta[i], q);
          if matches {
            found := found + [i];
          }
        }
        i := i + 1;
      }
    }

    method CountUsed() returns (n: nat)
      requires MetaOk(meta)
      ensures n == UsedCount(meta, META_MAX)
    {
      n := 0;
      var i := 0;
      while i < META_MAX
        invariant i <= META_MAX && n == UsedCount(meta, i)
      {
        if meta[i].used {
          n := n + 1;
        }
        i := i + 1;
      }
    }

    /** agentfs_tool_query_file: whether the answer comes from the cache, the index or a scan, it
      * is the one a fresh run over the current files gives. disk is what a first build would find. */
    method QueryFile(text: string, pid: int, group: int, disk: seq<Meta>) returns (answer: Option<Answer>, hit: bool)
      requires Valid() && MetaOk(disk)
      modifies this
      ensures Valid() && ready && version == old(version)
      ensures meta == if old(ready) then old(meta) else disk
      ensures answer == match parse(text) case None => None case Some(q) => Some(Run(meta, q))
      ensures hit <==> exists c :: 0 <= c < CACHE_MAX && Usable(old(cache)[c], text, group)
      ensures answer.Some? && (shared(text) || group != 0) ==>
                exists c :: 0 <= c < CACHE_MAX && Usable(cache[c], text, group)
      ensures answer.Some? ==>
                parse(text).Some? && forall i :: i in answer.value.shown ==> i in Wanted(meta, parse(text).value)
      ensures answer.Some? && (forall i :: 0 <= i < META_MAX ==> DistinctKeys(meta[i].attrs)) ==>
                answer.value.count == |Wanted(meta, parse(text).value)|
    {
      hide Wanted, DistinctKeys, Run, Indexed;
      answer := Lookup(text, group);
      hit := answer.Some?;
      if hit {
        AnswerCounts(meta, parse(text).value);
        ghost var c :| 0 <= c < CACHE_MAX && CountedHit(old(cache), cache, c, text, group);
        assert Usable(cache[c], text, group);
        return;
      }
      if !ready {
        meta := disk;
        Rebuild();
        ready := true;
      }
      var parsed := parse(text);
      if parsed.None? {
        return None, false;
      }
      var q := parsed.value;
      AnswerCounts(meta, q);
      var result := Evaluate(q);
      var slot := Store(text, result, pid, group);
      assert shared(text) || group != 0 ==> Usable(cache[slot], text, group);
      answer := Some(result);
    }

    method Evaluate(q: Query) returns (result: Answer)
      requires MetaOk(meta) && Indexed(Entries(meta, META_MAX), postings, heads)
      ensures result == Run(meta, q)
    {
      hide Hash, Indexed, Matches, Entries, Bucket, WalkList, ScanList;
      var full := CountUsed();
      var found, scanned;
      if q.conds != [] && !q.forceScan {
        found, scanned := WalkIndex(q);
        result := Answer(Firsts(found), |found|, true, scanned, full);
      } else {
        found, scanned := ScanAll(q);
        result := Answer(Firsts(found), |found|, false, scanned, full);
      }
    }
  }

  lemma ChainAt(es: seq<Entry>, postings: seq<Posting>, heads: seq<int>, post: nat)
    requires Indexed(es, postings, heads) && post < |es|
    ensures postings[post].entry == es[post].file && postings[post].attr == es[post].attr
    ensures -1 <= postings[post].next < post
    ensures Chain(postings, post) == [post] + Chain(postings, postings[post].next)
  {
  }

  lemma WalkStep(meta: seq<Meta>, q: Query, es: seq<Entry>, was: seq<nat>, found: seq<nat>, post: nat, rest: seq<nat>,
                 chain: seq<nat>)
    requires post < |es| && was + WalkList(meta, q, es, [post] + rest) == WalkList(meta, q, es, chain)
    requires found == was + if Hit(meta, q, es[post]) then [es[post].file] else []
    ensures found + WalkList(meta, q, es, rest) == WalkList(meta, q, es, chain)
  {
    hide Hit;
    assert ([post] + rest)[1..] == rest;
  }

  // ---------------------------------------------------------------- the attributes of a file

  /** The value of the first attribute with this key: agentfs_tool_get_file_attr. */
  function ValueOf(attrs: seq<Attr>, key: string): Option<string> {
    if attrs == [] then None else if attrs[0].key == key then Some(attrs[0].value) else ValueOf(attrs[1..], key)
  }

  lemma {:induction false} ValueAt(attrs: seq<Attr>, key: string, i: nat)
    requires i <= |attrs| && forall j :: 0 <= j < i ==> attrs[j].key != key
    ensures ValueOf(attrs, key) == ValueOf(attrs[i..], key)
  {
    if i > 0 {
      ValueAt(attrs[1..], key, i - 1);
      assert attrs[1..][i - 1..] == attrs[i..];
    }
  }

  lemma {:induction false} ValueOthers(pre: seq<Attr>, a: seq<Attr>, b: seq<Attr>, post: seq<Attr>, key: string)
    requires ValueOf(a, key) == ValueOf(b, key) == None
    ensures ValueOf(pre + a + post, key) == ValueOf(pre + b + post, key)
  {
    if pre != [] {
      ValueOthers(pre[1..], a, b, post, key);
      assert (pre + a + post)[1..] == pre[1..] + a + post && (pre + b + post)[1..] == pre[1..] + b + post;
    } else {
      assert pre + a + post == a + post && pre + b + post == b + post;
      ValueSkip(a, post, key);
      ValueSkip(b, post, key);
    }
  }

  lemma {:induction false} ValueSkip(a: seq<Attr>, post: seq<Attr>, key: string)
    requires ValueOf(a, key) == None
    ensures ValueOf(a + post, key) == ValueOf(post, key)
  {
    if a == [] {
      assert a + post == post;
    } else {
      ValueSkip(a[1..], post, key);
      assert (a + post)[1..] == a[1..] + post;
    }
  }

  /** Storing at the key's place, or behind all others, changes what this key reads and nothing else. */
  lemma SetAt(attrs: seq<Attr>, r: seq<Attr>, key: string, value: string, i: nat)
    requires i <= |attrs| && DistinctKeys(attrs) && (forall j :: 0 <= j < i ==> attrs[j].key != key)
    requires i < |attrs| ==> attrs[i].key == key
    requires r == if i < |attrs| then attrs[i := Attr(key, value)] else attrs + [Attr(key, value)]
    ensures DistinctKeys(r) && ValueOf(r, key) == Some(value)
    ensures forall other :: other != key ==> ValueOf(r, other) == ValueOf(attrs, other)
  {
    SetReads(r, key, value, i);
    SetDistinct(attrs, r, key, value, i);
    hide ValueOf, DistinctKeys;
    forall other | other != key
      ensures ValueOf(r, other) == ValueOf(attrs, other)
    {
      SetOther(attrs, r, key, value, i, other);
    }
  }

  lemma SetDistinct(attrs: seq<Attr>, r: seq<Attr>, key: string, value: string, i: nat)
    requires i <= |attrs| && DistinctKeys(attrs) && (forall j :: 0 <= j < i ==> attrs[j].key != key)
    requires i < |attrs| ==> attrs[i].key == key
    requires r == if i < |attrs| then attrs[i := Attr(key, value)] else attrs + [Attr(key, value)]
    ensures DistinctKeys(r) && i < |r| && r[i] == Attr(key, value) && r[..i] == attrs[..i]
  {
    assert forall j :: 0 <= j < |attrs| && j != i ==> r[j] == attrs[j];
  }

  lemma SetReads(r: seq<Attr>, key: string, value: string, i: nat)
    requires i < |r| && r[i] == Attr(key, value) && forall j :: 0 <= j < i ==> r[j].key != key
    ensures ValueOf(r, key) == Some(value)
  {
    ValueAt(r, key, i);
    assert r[i..][0] == Attr(key, value);
  }

  lemma SetOther(attrs: seq<Attr>, r: seq<Attr>, key: string, value: string, i: nat, other: string)
    requires i <= |attrs| && (i < |attrs| ==> attrs[i].key == key) && other != key
    requires r == if i < |attrs| then attrs[i := Attr(key, value)] else attrs + [Attr(key, value)]
    ensures ValueOf(r, other) == ValueOf(attrs, other)
  {
    var pre, was, post := attrs[..i], if i < |attrs| then [attrs[i]] else [],
      if i < |attrs| then attrs[i + 1..] else [];
    assert attrs == pre + was + post && r == pre + [Attr(key, value)] + post;
    ValueOthers(pre, was, [Attr(key, value)], post, other);
  }

  /** The search and store of agentfs_tool_set_file_attr: keys stay distinct, the key reads the
    * new value, every other key reads what it did, and a fifth key is refused. */
  method SetAttr(attrs: seq<Attr>, key: string, value: string) returns (ok: bool, r: seq<Attr>)
    requires |attrs| <= ATTR_MAX && DistinctKeys(attrs)
    ensures |r| <= ATTR_MAX && DistinctKeys(r)
    ensures ok <==> ValueOf(attrs, key).Some? || |attrs| < ATTR_MAX
    ensures ok ==> ValueOf(r, key) == Some(value)
    ensures ok ==> forall other :: other != key ==> ValueOf(r, other) == ValueOf(attrs, other)
    ensures !ok ==> r == attrs
  {
    var i := 0;
    while i < |attrs| && attrs[i].key != key
      invariant i <= |attrs| && forall j :: 0 <= j < i ==> attrs[j].key != key
    {
      i := i + 1;
    }
    ValueAt(attrs, key, i);
    if i == |attrs| && |attrs| >= ATTR_MAX {
      return false, attrs;
    }
    r := if i < |attrs| then attrs[i := Attr(key, value)] else attrs + [Attr(key, value)];
    hide ValueOf;
    SetAt(attrs, r, key, value, i);
    ok := true;
  }

  /** Later attributes move down one place. */
  method ShiftDown(attrs: seq<Attr>, i: nat) returns (r: seq<Attr>)
    requires i < |attrs|
    ensures r == attrs[..i] + attrs[i + 1..]
  {
    r := attrs;
    var j := i + 1;
    while j < |attrs|
      invariant i < j <= |attrs| && r == attrs[..i] + attrs[i + 1..j] + attrs[j - 1..]
    {
      r := r[j - 1 := attrs[j]];
      j := j + 1;
    }
    r := r[..|attrs| - 1];
  }

  lemma RestDistinct(attrs: seq<Attr>, r: seq<Attr>, i: nat)
    requires i < |attrs| && r == attrs[..i] + attrs[i + 1..] && DistinctKeys(attrs)
    ensures DistinctKeys(r) && forall j :: 0 <= j < |r| ==> r[j].key != attrs[i].key
  {
    forall j | 0 <= j < |r|
      ensures r[j] == attrs[if j < i then j else j + 1]
    {
    }
  }

  /** The search and shift of agentfs_tool_del_file_attr. */
  method DelAttr(attrs: seq<Attr>, key: string) returns (ok: bool, r: seq<Attr>)
    requires |attrs| <= ATTR_MAX && DistinctKeys(attrs)
    ensures |r| <= ATTR_MAX && DistinctKeys(r)
    ensures ok <==> ValueOf(attrs, key).Some?
    ensures ValueOf(r, key) == None && forall other :: other != key ==> ValueOf(r, other) == ValueOf(attrs, other)
  {
    var i := 0;
    while i < |attrs| && attrs[i].key != key
      invariant i <= |attrs| && forall j :: 0 <= j < i ==> attrs[j].key != key
    {
      i := i + 1;
    }
    ValueAt(attrs, key, i);
    if i == |attrs| {
      return false, attrs;
    }
    r := ShiftDown(attrs, i);
    ghost var pre, post := attrs[..i], attrs[i + 1..];
    assert attrs == pre + [attrs[i]] + post && r == pre + [] + post;
    RestDistinct(attrs, r, i);
    ValueAt(r, key, |r|);
    assert r[|r|..] == [];
    forall other | other != key
      ensures ValueOf(r, other) == ValueOf(attrs, other)
    {
      ValueOthers(pre, [attrs[i]], [], post, other);
    }
    ok := true;
  }
}
