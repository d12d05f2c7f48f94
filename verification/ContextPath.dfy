/**
  The context path: variable-length records packed one after another into a region of bytes, with
  the oldest records evicted when a new one does not fit, and a digest entry for every record.
*/
module ContextPath {
  import opened Digest

  const MAX_NODES: nat := 16
  const CHUNK: nat := 128

  function Flatten(rs: seq<seq<bv8>>): (s: seq<bv8>) {
    if rs == [] then [] else rs[0] + Flatten(rs[1..])
  }

  lemma {:induction false} FlattenAppend(rs: seq<seq<bv8>>, r: seq<bv8>)
    ensures Flatten(rs + [r]) == Flatten(rs) + r
  {
    if rs == [] {
      assert rs + [r] == [r] && [r][1..] == [];
    } else {
      FlattenAppend(rs[1..], r);
      assert (rs + [r])[1..] == rs[1..] + [r];
    }
  }

  /** Where record i starts. */
  function Offset(rs: seq<seq<bv8>>, i: nat): nat
    requires i <= |rs|
  {
    |Flatten(rs[..i])|
  }

  lemma OffsetNext(rs: seq<seq<bv8>>, i: nat)
    requires i < |rs|
    ensures Offset(rs, i + 1) == Offset(rs, i) + |rs[i]|
    ensures Flatten(rs[..i + 1]) == Flatten(rs[..i]) + rs[i]
    ensures Offset(rs, 0) == 0
  {
    assert rs[..i + 1] == rs[..i] + [rs[i]];
    FlattenAppend(rs[..i], rs[i]);
  }

  lemma FlattenFirst(rs: seq<seq<bv8>>)
    requires rs != []
    ensures Flatten(rs) == rs[0] + Flatten(rs[1..])
  {
  }

  lemma {:induction false} FlattenSplit(a: seq<seq<bv8>>, b: seq<seq<bv8>>)
    ensures Flatten(a + b) == Flatten(a) + Flatten(b)
  {
    if a == [] {
      assert a + b == b;
    } else {
      FlattenSplit(a[1..], b);
      assert (a + b)[1..] == a[1..] + b && (a + b)[0] == a[0];
      FlattenFirst(a);
      FlattenFirst(a + b);
      hide Flatten;
      assert a[0] + (Flatten(a[1..]) + Flatten(b)) == a[0] + Flatten(a[1..]) + Flatten(b);
    }
  }

  /** There is room for a record of len bytes behind rs: a free node and enough bytes. */
  predicate Fits(rs: seq<seq<bv8>>, len: nat, capacity: nat) {
    |rs| < MAX_NODES && |Flatten(rs)| + len <= capacity
  }

  /**
    What the eviction loop of push leaves. Evicting the first of k records has to move the bytes of the
    others; good(k) is how many bytes can be moved before a copy within the region fails, and a failure
    empties the path.
   */
  function Survivors(rs: seq<seq<bv8>>, len: nat, capacity: nat, good: nat -> nat): (ss: seq<seq<bv8>>)
    requires len <= capacity
    ensures Fits(ss, len, capacity) && |ss| <= |rs|
    decreases |rs|
  {
    if Fits(rs, len, capacity) then rs
    else if rs != [] && |Flatten(rs[1..])| <= good(|rs|) then Survivors(rs[1..], len, capacity, good)
    else []
  }

  lemma FitsHere(rs: seq<seq<bv8>>, len: nat, capacity: nat, good: nat -> nat)
    requires len <= capacity
    ensures Fits(rs, len, capacity) <==> |rs| < MAX_NODES && |Flatten(rs)| + len <= capacity
    ensures Fits(rs, len, capacity) ==> Survivors(rs, len, capacity, good) == rs
  {
    hide Flatten;
  }

  lemma NothingFits(len: nat, capacity: nat, good: nat -> nat)
    requires len <= capacity
    ensures Fits([], len, capacity) && Flatten([]) == []
  {
  }

  lemma MovesFar(rs: seq<seq<bv8>>, capacity: nat, good: nat -> nat)
    requires rs != [] && |Flatten(rs)| <= capacity
    ensures Moves(good, capacity) ==> |Flatten(rs[1..])| <= good(|rs|)
  {
  }

  /** One eviction leaves the same survivors. */
  lemma SurvivorsNext(rs: seq<seq<bv8>>, len: nat, capacity: nat, good: nat -> nat)
    requires len <= capacity && !Fits(rs, len, capacity) && rs != []
    ensures Survivors(if |Flatten(rs[1..])| <= good(|rs|) then rs[1..] else [], len, capacity, good)
         == Survivors(rs, len, capacity, good)
    ensures |Flatten(rs[1..])| <= |Flatten(rs)|
  {
    NothingFits(len, capacity, good);
  }

  /** No copy fails before n bytes. */
  ghost predicate Moves(good: nat -> nat, n: nat) {
    forall k :: n <= good(k)
  }

  /** With copies succeeding that is the longest suffix behind which the record fits. */
  lemma {:induction false} SurvivorsAreLongest(rs: seq<seq<bv8>>, len: nat, capacity: nat, good: nat -> nat)
    requires len <= capacity && Moves(good, |Flatten(rs)|)
    ensures var ss := Survivors(rs, len, capacity, good);
            var k := |rs| - |ss|;
            && 0 <= k <= |rs| && ss == rs[k..] && Fits(ss, len, capacity)
            && forall j :: 0 <= j < k ==> !Fits(rs[j..], len, capacity)
  {
    if !Fits(rs, len, capacity) && rs != [] {
      SurvivorsAreLongest(rs[1..], len, capacity, good);
      var k := |rs| - |Survivors(rs, len, capacity, good)|;
      forall j | 0 <= j < k
        ensures !Fits(rs[j..], len, capacity)
      {
        if j == 0 {
          assert rs[0..] == rs;
        } else {
          assert rs[j..] == rs[1..][j - 1..];
        }
      }
      assert rs[k..] == rs[1..][k - 1..];
    }
  }

  /** Sequence numbers as the digests see them: consecutive modulo 2^64. */
  function Advance(s: bv64, k: nat): bv64 {
    if k == 0 then s else Succ(Advance(s, k - 1))
  }

  /** next_sequence++, skipping 0. */
  function NextSequence(s: bv64): bv64 {
    if Succ(s) == 0 then 1 else Succ(s)
  }

  lemma {:induction false} AdvanceSucc(s: bv64, k: nat)
    ensures Advance(Succ(s), k) == Succ(Advance(s, k))
  {
    hide Succ;
    if k > 0 {
      AdvanceSucc(s, k - 1);
    }
  }

  /** The dependency recorded with a node. */
  datatype Dep = Dep(used: bool, sequence: bv64, dev: nat, inum: nat, version: nat)

  const NO_DEP: Dep := Dep(false, 0, 0, 0, 0)

  /** The region starts with the records, the tables say where each is, and no row is left beyond them. */
  ghost predicate Tables(region: seq<bv8>, capacity: nat, pathLen: nat, nodeCount: nat, offsets: seq<nat>,
                         lengths: seq<nat>, deps: seq<Dep>, records: seq<seq<bv8>>)
  {
    && |offsets| == |lengths| == |deps| == MAX_NODES
    && |records| == nodeCount <= MAX_NODES
    && pathLen == |Flatten(records)| <= capacity && pathLen <= |region|
    && region[..pathLen] == Flatten(records)
    && (forall i :: 0 <= i < nodeCount ==> offsets[i] == Offset(records, i) && lengths[i] == |records[i]|)
    && (forall i :: nodeCount <= i < MAX_NODES ==> deps[i] == NO_DEP)
  }

  lemma TableSizes(region: seq<bv8>, capacity: nat, pathLen: nat, nodeCount: nat, offsets: seq<nat>,
                   lengths: seq<nat>, deps: seq<Dep>, records: seq<seq<bv8>>)
    requires Tables(region, capacity, pathLen, nodeCount, offsets, lengths, deps, records)
    ensures |offsets| == |lengths| == |deps| == MAX_NODES && |records| == nodeCount <= MAX_NODES
    ensures pathLen == |Flatten(records)| <= capacity && pathLen <= |region|
  {
  }

  class Context {
    const region: array<bv8>
    const quota: nat
    const ring: Ring
    var pathLen: nat
    var nodeCount: nat
    var dropped: nat
    var offsets: seq<nat>
    var lengths: seq<nat>
    var deps: seq<Dep>
    var firstSequence: bv64
    var nextSequence: bv64
    var generation: nat
    ghost var records: seq<seq<bv8>>

    ghost predicate Valid()
      reads this, region, ring
    {
      && ring.Valid() && Capacity() <= region.Length
      && Tables(region[..], Capacity(), pathLen, nodeCount, offsets, lengths, deps, records)
    }

    /** agent_path_capacity: a quota of 0, or beyond the region, means the whole region. */
    function Capacity(): nat
      reads this
    {
      if quota == 0 || quota > region.Length then region.Length else quota
    }

    constructor (region: array<bv8>, quota: nat)
      ensures Valid() && fresh(ring) && this.region == region && this.quota == quota
      ensures records == [] && ring.Entries() == []
      ensures nextSequence == 1 && generation == 1
    {
      this.region, this.quota := region, quota;
      ring := new Ring();
      pathLen, nodeCount, dropped := 0, 0, 0;
      offsets, lengths, deps := seq(MAX_NODES, i => 0), seq(MAX_NODES, i => 0), seq(MAX_NODES, i => NO_DEP);
      firstSequence, nextSequence, generation := 0, 1, 1;
      records := [];
    }

    /** Move the bytes behind the first record to the front, through a buffer of CHUNK bytes; only the
      * first `good` of them can be moved. */
    method ShiftDown(firstLen: nat, remain: nat, good: nat) returns (ok: bool)
      requires firstLen + remain <= region.Length
      modifies region
      ensures ok <==> remain <= good
      ensures region[..] == Moved(old(region[..]), firstLen, if ok then remain else good)
    {
      hide Moved, Spliced;
      ghost var was := region[..];
      var copied := 0;
      MovedNext(was, firstLen, 0, 0);
      while copied < remain
        invariant 0 <= copied <= remain && copied <= good
        invariant region[..] == Moved(was, firstLen, copied)
      {
        var chunk := if remain - copied < CHUNK then remain - copied else CHUNK;
        var moved := if good - copied < chunk then good - copied else chunk;
        MovedNext(was, firstLen, copied, moved);
        CopyOut(copied, region[firstLen + copied..firstLen + copied + moved]);
        if moved < chunk {
          return false;
        }
        copied := copied + chunk;
      }
      return true;
    }

    /** copyout into the region. */
    method CopyOut(at: nat, data: seq<bv8>)
      requires at + |data| <= region.Length
      modifies region
      ensures region[..] == Spliced(old(region[..]), at, data)
      ensures region[..at + |data|] == old(region[..at]) + data
    {
      ghost var was := region[..];
      for i := 0 to |data|
        invariant region[..] == Spliced(was, at, data[..i])
      {
        SplicedNext(was, at, data, i);
        region[at + i] := data[i];
      }
      assert data[..|data|] == data;
    }

    // -------------------------------------------------------------- numbering

    /** Retained records carry consecutive sequence numbers from firstSequence up to just before s. */
    ghost predicate NumberedTo(s: bv64)
      reads this
    {
      Numbered(deps, firstSequence, nodeCount) && (nodeCount > 0 ==> s == Advance(firstSequence, nodeCount))
    }

    /** The digests verify, and the next number follows the newest of them. */
    ghost predicate Chained()
      reads this, ring
    {
      && ring.Valid() && Linked(ring.Entries())
      && (ring.Entries() != [] ==> nextSequence == Succ(ring.Entries()[|ring.Entries()| - 1].sequence))
    }

    /** The next number follows the last one used, by the records and by the digests, and the digests are linked. */
    ghost predicate Sound()
      reads this, ring
    {
      NumberedTo(nextSequence) && Chained()
    }

    /** An odd generation announces a change in progress, an even one a stable snapshot. */
    method WriteBegin()
      modifies this`generation
      ensures generation % 2 == 1 && generation == old(generation) + if old(generation) % 2 == 0 then 1 else 2
    {
      generation := if generation % 2 == 0 then generation + 1 else generation + 2;
    }

    method SyncHeader()
      modifies this`generation
      ensures generation % 2 == 0 && generation == old(generation) + if old(generation) % 2 == 1 then 1 else 2
    {
      generation := if generation % 2 == 1 then generation + 1 else generation + 2;
    }

    // -------------------------------------------------------------- operations

    /** Move the table rows of the remaining nodes up by one and clear the last row. */
    method ShiftTables(firstLen: nat)
      requires 0 < nodeCount <= MAX_NODES && |offsets| == |lengths| == |deps| == MAX_NODES
      requires forall k :: 1 <= k < nodeCount ==> firstLen <= offsets[k]
      modifies this`offsets, this`lengths, this`deps, this`nodeCount
      ensures |offsets| == |lengths| == |deps| == MAX_NODES && nodeCount == old(nodeCount) - 1
      ensures forall k :: 0 <= k < nodeCount ==>
                && offsets[k] == old(offsets)[k + 1] - firstLen
                && lengths[k] == old(lengths)[k + 1] && deps[k] == old(deps)[k + 1]
      ensures deps[nodeCount] == NO_DEP && forall k :: nodeCount < k < MAX_NODES ==> deps[k] == old(deps)[k]
    {
      var i := 1;
      while i < nodeCount
        modifies this`offsets, this`lengths, this`deps
        invariant 1 <= i <= nodeCount && |offsets| == |lengths| == |deps| == MAX_NODES
        invariant forall k :: 0 <= k < i - 1 ==>
                    && offsets[k] == old(offsets)[k + 1] - firstLen
                    && lengths[k] == old(lengths)[k + 1] && deps[k] == old(deps)[k + 1]
        invariant forall k :: i - 1 <= k < MAX_NODES ==>
                    offsets[k] == old(offsets)[k] && lengths[k] == old(lengths)[k] && deps[k] == old(deps)[k]
      {
        offsets := offsets[i - 1 := offsets[i] - firstLen];
        lengths := lengths[i - 1 := lengths[i]];
        deps := deps[i - 1 := deps[i]];
        i := i + 1;
      }
      nodeCount := nodeCount - 1;
      offsets := offsets[nodeCount := 0];
      lengths := lengths[nodeCount := 0];
      deps := deps[nodeCount := NO_DEP];
    }

    /** agent_evict_oldest; a copy that fails after `good` bytes empties the path. */
    method EvictOldest(good: nat)
      requires Valid() && nodeCount > 0
      modifies this`pathLen, this`nodeCount, this`dropped, this`offsets, this`lengths, this`deps, this`firstSequence,
               this`records, region
      ensures Valid()
      ensures var moved := |Flatten(old(records)[1..])| <= good;
              && records == (if moved then old(records)[1..] else [])
              && (moved ==> dropped == old(dropped) + 1 && firstSequence == Succ(old(firstSequence)))
              && (!moved ==> dropped == old(dropped) && firstSequence == old(firstSequence))
              && region[..] == Moved(old(region[..]), old(|records[0]|),
                                     if moved then |Flatten(old(records)[1..])| else good)
      ensures nodeCount <= old(nodeCount) && deps[..nodeCount] == old(deps)[old(nodeCount) - nodeCount..old(nodeCount)]
      ensures records != [] ==> forall i :: 0 <= i < nodeCount ==> deps[i] == old(deps)[i + 1]
    {
      hide Succ, Offset, Flatten;
      var firstLen := lengths[0];
      EvictedOffsets(records);
      if firstLen > pathLen {
        firstLen := pathLen;
      }
      var remain := pathLen - firstLen;
      assert region[..pathLen][firstLen..] == region[firstLen..firstLen + remain];
      var ok := ShiftDown(firstLen, remain, good);
      if !ok {
        pathLen, nodeCount := 0, 0;
        deps := seq(MAX_NODES, i => NO_DEP);
        records := [];
        FlattenNone();
        return;
      }
      pathLen := pathLen - firstLen;
      ShiftTables(firstLen);
      dropped := dropped + 1;
      firstSequence := Succ(firstSequence);
      records := records[1..];
    }

    /** The eviction loop of push. */
    method MakeRoom(len: nat, good: nat -> nat, ghost s: bv64)
      requires Valid() && len <= Capacity()
      modifies this`pathLen, this`nodeCount, this`dropped, this`offsets, this`lengths, this`deps, this`firstSequence,
               this`records, region
      ensures Valid() && Fits(records, len, Capacity())
      ensures records == Survivors(old(records), len, Capacity(), good)
      ensures nodeCount <= old(nodeCount) && deps[..nodeCount] == old(deps)[old(nodeCount) - nodeCount..old(nodeCount)]
      ensures Moves(good, Capacity()) ==> dropped == old(dropped) + |old(records)| - |records|
      ensures old(NumberedTo(s)) ==> NumberedTo(s)
    {
      hide Succ, Offset, Flatten, Advance, Tables, Survivors, Fits, Numbered, Moves, Moved, Context.RoomSoFar;
      TableSizes(region[..], Capacity(), pathLen, nodeCount, offsets, lengths, deps, records);
      ghost var rs, ds, dropped0 := records, deps[..nodeCount], dropped;
      RoomStart(len, good);
      RoomFacts(rs, ds, len, good, dropped0);
      while nodeCount >= MAX_NODES || pathLen + len > Capacity()
        modifies this`pathLen, this`nodeCount, this`dropped, this`offsets, this`lengths, this`deps, this`firstSequence,
               this`records, region
        invariant RoomSoFar(rs, ds, len, good, dropped0)
        invariant Fits(records, len, Capacity()) <==> nodeCount < MAX_NODES && pathLen + len <= Capacity()
        invariant old(NumberedTo(s)) ==> NumberedTo(s)
        decreases nodeCount
      {
        RoomFacts(rs, ds, len, good, dropped0);
        EvictTurn(len, good, s, rs, ds, dropped0);
        RoomFacts(rs, ds, len, good, dropped0);
      }
      RoomFacts(rs, ds, len, good, dropped0);
    }

    /** How far the loop has come from records rs with dependencies ds. */
    ghost predicate RoomSoFar(rs: seq<seq<bv8>>, ds: seq<Dep>, len: nat, good: nat -> nat, dropped0: nat)
      reads this, region, ring
    {
      && Valid() && len <= Capacity() && |records| <= |rs| == |ds| && deps[..nodeCount] == ds[|rs| - |records|..]
      && Survivors(records, len, Capacity(), good) == Survivors(rs, len, Capacity(), good)
      && (Moves(good, Capacity()) ==> dropped == dropped0 + |rs| - |records|)
    }

    lemma RoomStart(len: nat, good: nat -> nat)
      requires Valid() && len <= Capacity()
      ensures nodeCount <= |deps| && RoomSoFar(records, deps[..nodeCount], len, good, dropped)
    {
      hide Flatten, Offset, Survivors;
    }

    lemma RoomFacts(rs: seq<seq<bv8>>, ds: seq<Dep>, len: nat, good: nat -> nat, dropped0: nat)
      requires RoomSoFar(rs, ds, len, good, dropped0)
      ensures Valid() && nodeCount == |records| <= |rs| == |ds| && nodeCount <= |deps|
      ensures deps[..nodeCount] == ds[|rs| - |records|..]
      ensures Fits(records, len, Capacity()) <==> nodeCount < MAX_NODES && pathLen + len <= Capacity()
      ensures Fits(records, len, Capacity()) ==> records == Survivors(rs, len, Capacity(), good)
      ensures Moves(good, Capacity()) ==> dropped == dropped0 + |rs| - |records|
      ensures !Fits(records, len, Capacity()) ==> records != []
    {
      hide Flatten, Offset;
      NothingFits(len, Capacity(), good);
      FitsHere(records, len, Capacity(), good);
    }

    /** One turn of it. */
    method EvictTurn(len: nat, good: nat -> nat, ghost s: bv64, ghost rs: seq<seq<bv8>>, ghost ds: seq<Dep>,
                     ghost dropped0: nat)
      requires RoomSoFar(rs, ds, len, good, dropped0) && records != [] && !Fits(records, len, Capacity())
      modifies this`pathLen, this`nodeCount, this`dropped, this`offsets, this`lengths, this`deps, this`firstSequence,
               this`records, region
      ensures RoomSoFar(rs, ds, len, good, dropped0) && nodeCount < old(nodeCount)
      ensures old(NumberedTo(s)) ==> NumberedTo(s)
    {
      hide Succ, Offset, Flatten, Advance, Survivors, Fits, Tables, Numbered, Moved, Moves;
      ghost var deps0, first0, count0 := deps, firstSequence, nodeCount;
      TableSizes(region[..], Capacity(), pathLen, nodeCount, offsets, lengths, deps, records);
      SurvivorsNext(records, len, Capacity(), good);
      MovesFar(records, Capacity(), good);
      EvictOldest(good(nodeCount));
      TableSizes(region[..], Capacity(), pathLen, nodeCount, offsets, lengths, deps, records);
      Suffix(ds, |ds|, deps0, count0, nodeCount);
      if records != [] {
        EvictedNumbers(deps0, first0, count0, deps);
      } else {
        NoneNumbered(deps);
      }
    }

    /**
      agent_context_push_node; the flags and good say how far the copies to and within the region succeed.
      Numbering and digests part ways: a record that fails to be copied uses up its number, so the records
      left behind are no longer followed by the next number, and neither is the newest digest.
     */
    method Push(record: seq<bv8>, requestId: bv64, request: seq<bv8>, result: seq<bv8>, status: bv32, dep: Dep,
                headerOk: bool, good: nat -> nat, recordOk: bool, syncOk: bool) returns (r: int)
      requires Valid()
      modifies this, ring, region
      ensures Valid() && pathLen <= region.Length && (quota > 0 ==> pathLen <= quota)
      ensures r == 0 <==>
                && |record| <= region.Length && (quota > 0 ==> |record| <= quota)
                && headerOk && recordOk && syncOk
      ensures r == 0 || r == -1
      ensures |record| <= Capacity() && headerOk && Moves(good, Capacity()) ==>
                dropped == old(dropped) + |old(records)| + (if recordOk then 1 else 0) - |records|
      ensures |record| > Capacity() ==> r == -1 && unchanged(this, ring, region)
      ensures |record| <= Capacity() && !headerOk ==>
                r == -1 && unchanged(this`records, this`nextSequence, this`deps, ring, region)
      ensures |record| > Capacity() || !headerOk ==> Sound() == old(Sound()) && Chained() == old(Chained())
      ensures |record| <= Capacity() && headerOk ==>
                && r == (if recordOk && syncOk then 0 else -1)
                && Pushed(old(records), old(deps[..nodeCount]), old(ring.Entries()), old(nextSequence), record,
                          requestId, request, result, status, dep, good, recordOk)
      ensures r == 0 ==> generation % 2 == 0 && generation == old(generation) + 2 + old(generation) % 2
      ensures |record| <= Capacity() && !(headerOk && recordOk) ==>
                generation % 2 == 1 && generation > old(generation)
      ensures |record| <= Capacity() && headerOk ==>
                && (old(NumberedTo(nextSequence)) ==>
                      (NumberedTo(nextSequence) <==> if recordOk then Succ(old(nextSequence)) != 0 else records == []))
                && (old(Chained()) ==>
                      (Chained() <==> if recordOk then Succ(old(nextSequence)) != 0 else ring.Entries() == []))
                && (recordOk && old(Linked(ring.Entries())) ==>
                      (Linked(ring.Entries()) <==> NumberedNext(old(ring.Entries()), old(nextSequence))))
    {
      hide Offset, Flatten, Advance, EntryHash, Linked, Survivors, LastEntries, Succ, NewEntry, Numbered, Retained;
      if |record| > Capacity() {
        return -1;
      }
      WriteBegin();
      if !headerOk {
        return -1;
      }
      var ok := PushRecord(record, requestId, request, result, status, dep, good, recordOk);
      if !ok {
        return -1;
      }
      SyncHeader();
      return if syncOk then 0 else -1;
    }

    /** The new records with their dependencies, the digests and the number in terms of the old ones. */
    ghost predicate Pushed(rs: seq<seq<bv8>>, ds: seq<Dep>, es: seq<Entry>, sequence: bv64, record: seq<bv8>,
                           requestId: bv64, request: seq<bv8>, result: seq<bv8>, status: bv32, dep: Dep,
                           good: nat -> nat, recordOk: bool)
      reads this, ring
    {
      && |record| <= Capacity() && ring.Valid() && nodeCount <= |deps| && |ds| == |rs|
      && nextSequence == NextSequence(sequence)
      && var kept := Survivors(rs, |record|, Capacity(), good);
      if recordOk then
        && records == kept + [record] && deps[..nodeCount] == ds[|rs| - |kept|..] + [dep.(sequence := sequence)]
        && ring.Entries() == LastEntries(es + [NewEntry(es, sequence, requestId, request, result, status)])
      else
        records == kept && deps[..nodeCount] == ds[|rs| - |kept|..] && ring.Entries() == es
    }

    method PushRecord(record: seq<bv8>, requestId: bv64, request: seq<bv8>, result: seq<bv8>, status: bv32, dep: Dep,
                      good: nat -> nat, recordOk: bool) returns (ok: bool)
      requires Valid() && |record| <= Capacity()
      modifies this`pathLen, this`nodeCount, this`dropped, this`offsets, this`lengths, this`deps, this`firstSequence,
               this`nextSequence, this`records, ring, region
      ensures Valid() && ok == recordOk
      ensures Pushed(old(records), old(deps[..nodeCount]), old(ring.Entries()), old(nextSequence), record, requestId,
                     request, result, status, dep, good, recordOk)
      ensures Moves(good, Capacity()) ==>
                dropped == old(dropped) + |old(records)| + (if recordOk then 1 else 0) - |records|
      ensures old(NumberedTo(nextSequence)) ==>
                (NumberedTo(nextSequence) <==> if recordOk then Succ(old(nextSequence)) != 0 else records == [])
      ensures old(Chained()) ==>
                (Chained() <==> if recordOk then Succ(old(nextSequence)) != 0 else ring.Entries() == [])
      ensures recordOk && old(Linked(ring.Entries())) ==>
                (Linked(ring.Entries()) <==> NumberedNext(old(ring.Entries()), old(nextSequence)))
    {
      hide Offset, Flatten, Advance, EntryHash, Linked, Survivors, LastEntries, Succ, NewEntry, Numbered, Retained,
        Tables, Fits;
      TableSizes(region[..], Capacity(), pathLen, nodeCount, offsets, lengths, deps, records);
      var sequence := nextSequence;
      nextSequence := NextSequence(nextSequence);
      SuccDiffers(sequence);
      NextDiffers(sequence);
      MakeRoom(|record|, good, sequence);
      TableSizes(region[..], Capacity(), pathLen, nodeCount, offsets, lengths, deps, records);
      assert old(deps[..nodeCount])[old(nodeCount) - nodeCount..] == deps[..nodeCount];
      if !recordOk {
        NoneLinked([]);
        return false;
      }
      Commit(record, sequence, requestId, request, result, status, dep);
      TableSizes(region[..], Capacity(), pathLen, nodeCount, offsets, lengths, deps, records);
      return true;
    }

    /** The record goes behind the others and into the digests. */
    method Commit(record: seq<bv8>, sequence: bv64, requestId: bv64, request: seq<bv8>, result: seq<bv8>, status: bv32,
                  dep: Dep)
      requires Valid() && Fits(records, |record|, Capacity())
      modifies this`pathLen, this`nodeCount, this`offsets, this`lengths, this`deps, this`firstSequence, this`records,
               ring, region
      ensures Valid() && records == old(records) + [record] && deps[nodeCount - 1] == dep.(sequence := sequence)
      ensures deps[..nodeCount] == old(deps[..nodeCount]) + [dep.(sequence := sequence)]
      ensures ring.Entries() == LastEntries(old(ring.Entries()) +
                [NewEntry(old(ring.Entries()), sequence, requestId, request, result, status)])
      ensures ring.Entries() != [] && ring.Entries()[|ring.Entries()| - 1].sequence == sequence
      ensures old(NumberedTo(sequence)) ==> NumberedTo(Succ(sequence))
      ensures old(Linked(ring.Entries())) ==>
                (Linked(ring.Entries()) <==> NumberedNext(old(ring.Entries()), sequence))
    {
      hide Offset, Flatten, Advance, EntryHash, Linked, Succ, LastEntries, Fits, Numbered;
      ghost var es := ring.Entries();
      Append(record, dep.(sequence := sequence));
      ring.Push(sequence, requestId, request, result, status);
      NewEntryHash(es, sequence, requestId, request, result, status);
      ChainGrows(es, NewEntry(es, sequence, requestId, request, result, status));
    }

    /** Copy the record behind the others and fill in its row of the tables. */
    method Append(record: seq<bv8>, dep: Dep)
      requires Valid() && Fits(records, |record|, Capacity())
      modifies this`pathLen, this`nodeCount, this`offsets, this`lengths, this`deps, this`firstSequence,
               this`records, region
      ensures Valid() && records == old(records) + [record]
      ensures deps[nodeCount - 1] == dep && deps[..nodeCount] == old(deps[..nodeCount]) + [dep]
      ensures old(NumberedTo(dep.sequence)) ==> NumberedTo(Succ(dep.sequence))
    {
      hide Offset, Flatten, Numbered, Advance, Succ, Tables, Spliced;
      TableSizes(region[..], Capacity(), pathLen, nodeCount, offsets, lengths, deps, records);
      AppendedNumber(deps, firstSequence, nodeCount, dep);
      ghost var was := region[..];
      CopyOut(pathLen, record);
      AppendedTables(was, Capacity(), pathLen, nodeCount, offsets, lengths, deps, records, record, dep, region[..]);
      if nodeCount == 0 {
        firstSequence := dep.sequence;
      }
      offsets := offsets[nodeCount := pathLen];
      lengths := lengths[nodeCount := |record|];
      deps := deps[nodeCount := dep];
      pathLen := pathLen + |record|;
      nodeCount := nodeCount + 1;
      records := records + [record];
    }

    /** agent_context_rollback: keep the first `keep` records; the digests start afresh. */
    method Rollback(keep: nat, headerOk: bool, reach: nat, syncOk: bool) returns (r: int)
      requires Valid()
      modifies this, ring, region
      ensures Valid()
      ensures keep > old(nodeCount) ==> r == -1 && unchanged(this, ring, region)
      ensures 0 < keep <= old(nodeCount) && !headerOk ==>
                r == -1 && unchanged(this`records, this`nextSequence, this`deps, ring, region)
      ensures 0 < keep <= old(nodeCount) && !headerOk ==> generation % 2 == 1 && generation > old(generation)
      ensures keep <= old(nodeCount) && (keep == 0 || headerOk) ==>
                && records == old(records)[..keep] && ring.Entries() == []
                && nextSequence == (if keep == 0 then 1 else Advance(firstSequence, keep))
                && (forall i :: 0 <= i < keep ==> deps[i] == old(deps)[i])
                && dropped == if keep == 0 then 0 else old(dropped)
      ensures 0 < keep <= old(nodeCount) && headerOk ==>
                r == (if syncOk then 0 else -1) && generation == old(generation) + 2 + old(generation) % 2
      ensures keep <= old(nodeCount) && (keep == 0 || headerOk) ==>
                Chained() && (old(Numbered(deps, firstSequence, nodeCount)) ==> Sound())
      ensures old(Sound()) ==> Sound()
    {
      hide Offset, Flatten, Advance, EntryHash, Linked, Succ, Tables;
      TableSizes(region[..], Capacity(), pathLen, nodeCount, offsets, lengths, deps, records);
      NoneLinked([]);
      if keep > nodeCount {
        return -1;
      }
      if keep == 0 {
        Clear(reach);
        return 0;
      }
      WriteBegin();
      if !headerOk {
        return -1;
      }
      KeptTables(region[..], Capacity(), pathLen, nodeCount, offsets, lengths, deps, records, keep);
      pathLen := offsets[keep - 1] + lengths[keep - 1];
      nodeCount := keep;
      nextSequence := Advance(firstSequence, keep);
      deps := FirstDeps(deps, keep);
      records := records[..keep];
      ring.Clear();
      SyncHeader();
      return if syncOk then 0 else -1;
    }

    /** Zero the region as far as copyout gets. */
    method ZeroRegion(reach: nat)
      modifies region
      ensures forall i :: 0 <= i < region.Length ==> region[i] == if i < reach then 0 else old(region[i])
    {
      var cleared := 0;
      while cleared < region.Length
        invariant 0 <= cleared <= region.Length && cleared <= reach
        invariant forall i :: 0 <= i < region.Length ==> region[i] == if i < cleared then 0 else old(region[i])
      {
        var n := if region.Length - cleared < CHUNK then region.Length - cleared else CHUNK;
        var z := if reach - cleared < n then reach - cleared else n;
        CopyOut(cleared, seq(z, i => 0));
        forall i | 0 <= i < cleared + z
          ensures region[i] == 0
        {
          assert region[..cleared + z][i] == region[i];
        }
        if z < n {
          break;
        }
        cleared := cleared + n;
      }
    }

    /** agent_context_clear; bytes from `reach` on cannot be zeroed, which nothing reports. */
    method Clear(reach: nat)
      requires Valid()
      modifies this, ring, region
      ensures Valid() && records == [] && ring.Entries() == [] && nextSequence == 1
      ensures forall i :: 0 <= i < region.Length ==> region[i] == if i < reach then 0 else old(region[i])
      ensures dropped == 0 && firstSequence == 0 && generation == old(generation) + 2 + old(generation) % 2
      ensures Sound()
    {
      hide EntryHash, Linked, Succ, Retained, Flatten, Offset;
      FlattenNone();
      WriteBegin();
      Empty();
      ZeroRegion(reach);
      ring.Clear();
      NoneLinked([]);
      SyncHeader();
    }

    /** The path's counters and tables start over. */
    method Empty()
      modifies this`pathLen, this`nodeCount, this`dropped, this`offsets, this`lengths, this`deps, this`firstSequence,
               this`nextSequence, this`records
      ensures pathLen == nodeCount == dropped == 0 && firstSequence == 0 && nextSequence == 1 && records == []
      ensures |offsets| == |lengths| == |deps| == MAX_NODES && forall i :: 0 <= i < MAX_NODES ==> deps[i] == NO_DEP
    {
      pathLen, nodeCount, dropped := 0, 0, 0;
      firstSequence, nextSequence := 0, 1;
      offsets, lengths, deps := seq(MAX_NODES, i => 0), seq(MAX_NODES, i => 0), seq(MAX_NODES, i => NO_DEP);
      records := [];
    }
  }

  /** Would an entry with this number extend the chain? */
  predicate NumberedNext(es: seq<Entry>, sequence: bv64) {
    es == [] || sequence == Succ(es[|es| - 1].sequence)
  }

  /**
    A push whose record cannot be copied, and then one that succeeds: the digests verify exactly when
    none were retained before.
   */
  method VerifyAfterFailedCopy(c: Context, record: seq<bv8>, dep: Dep, good: nat -> nat, headerOk: bool, syncOk: bool,
                               record': seq<bv8>, requestId: bv64, request: seq<bv8>, result: seq<bv8>, status: bv32)
    returns (v: int)
    requires c.Valid() && c.Chained() && |record| <= c.Capacity() && |record'| <= c.Capacity() && headerOk
    modifies c, c.ring, c.region
    ensures c.Valid() && (v == 0 || v == -1)
    ensures v == 0 <==> old(c.ring.Entries()) == []
  {
    hide Offset, Flatten, Advance, EntryHash, Linked, Survivors, LastEntries, Succ, NewEntry, Numbered, Retained;
    NextDiffers(c.nextSequence);
    var r := c.Push(record, 0, [], [], 0, dep, headerOk, good, false, syncOk);
    r := c.Push(record', requestId, request, result, status, dep, headerOk, good, true, syncOk);
    v := c.ring.Verify();
  }

  /** Three pushes into a new context, the second of which cannot copy its record, and the digests no longer verify. */
  method DigestsBreak(region: array<bv8>, record: seq<bv8>) returns (before: int, v: int)
    requires |record| <= region.Length
    modifies region
    ensures before == 0 && v == -1
  {
    hide Offset, Flatten, Advance, EntryHash, Linked, Survivors, Succ, NewEntry, Numbered, Retained;
    NoneLinked([]);
    NextDiffers(1);
    var c := new Context(region, 0);
    var r := c.Push(record, 0, [], [], 0, NO_DEP, true, k => 0, true, true);
    before := c.ring.Verify();
    v := VerifyAfterFailedCopy(c, record, NO_DEP, k => 0, true, true, record, 0, [], [], 0);
  }

  /** The first keep records end where the last of them ends, and their bytes come first. */
  lemma KeptRecords(rs: seq<seq<bv8>>, keep: nat)
    requires 0 < keep <= |rs|
    ensures |Flatten(rs[..keep])| == Offset(rs, keep - 1) + |rs[keep - 1]| <= |Flatten(rs)|
    ensures Flatten(rs)[..|Flatten(rs[..keep])|] == Flatten(rs[..keep])
    ensures forall i :: 0 <= i <= keep ==> Offset(rs[..keep], i) == Offset(rs, i)
  {
    OffsetNext(rs, keep - 1);
    FlattenSplit(rs[..keep], rs[keep..]);
    assert rs == rs[..keep] + rs[keep..];
    forall i | 0 <= i <= keep
      ensures Offset(rs[..keep], i) == Offset(rs, i)
    {
      assert rs[..keep][..i] == rs[..i];
    }
  }

  /** The first k rows of the table, the others cleared. */
  function FirstDeps(deps: seq<Dep>, k: nat): (r: seq<Dep>)
    requires |deps| == MAX_NODES
    ensures |r| == MAX_NODES && forall i :: 0 <= i < MAX_NODES ==> r[i] == if i < k then deps[i] else NO_DEP
  {
    seq(MAX_NODES, i requires 0 <= i < MAX_NODES => if i < k then deps[i] else NO_DEP)
  }

  lemma KeptTables(region: seq<bv8>, capacity: nat, pathLen: nat, nodeCount: nat, offsets: seq<nat>,
                   lengths: seq<nat>, deps: seq<Dep>, records: seq<seq<bv8>>, keep: nat)
    requires Tables(region, capacity, pathLen, nodeCount, offsets, lengths, deps, records) && 0 < keep <= nodeCount
    ensures |offsets| == |lengths| == |deps| == MAX_NODES
    ensures Tables(region, capacity, offsets[keep - 1] + lengths[keep - 1], keep, offsets, lengths,
                   FirstDeps(deps, keep), records[..keep])
  {
    hide Offset, Flatten;
    KeptRecords(records, keep);
    assert region[..pathLen][..offsets[keep - 1] + lengths[keep - 1]]
        == region[..offsets[keep - 1] + lengths[keep - 1]];
  }

  ghost predicate Numbered(deps: seq<Dep>, first: bv64, count: nat) {
    count <= |deps| && forall i :: 0 <= i < count ==> deps[i].sequence == Advance(first, i)
  }

  lemma NextDiffers(n: bv64)
    ensures NextSequence(n) != n && Succ(1) != 0
    ensures NextSequence(n) == if n + 1 == 0 then 1 else n + 1
  {
  }

  /** A region after n bytes have moved to the front from place `from`. */
  ghost function Moved(s: seq<bv8>, from: nat, n: nat): seq<bv8> {
    if from + n <= |s| then s[from..from + n] + s[n..] else s
  }

  /** A region after some bytes have been copied to place `at`. */
  ghost function Spliced(s: seq<bv8>, at: nat, data: seq<bv8>): seq<bv8> {
    if at + |data| <= |s| then s[..at] + data + s[at + |data|..] else s
  }

  lemma SplicedNext(s: seq<bv8>, at: nat, data: seq<bv8>, i: nat)
    requires at + |data| <= |s| && i < |data|
    ensures |Spliced(s, at, data[..i])| == |s|
    ensures Spliced(s, at, data[..i])[at + i := data[i]] == Spliced(s, at, data[..i + 1])
  {
    assert data[..i + 1] == data[..i] + [data[i]];
  }

  lemma MovedNext(s: seq<bv8>, from: nat, n: nat, m: nat)
    requires from + n + m <= |s|
    ensures Moved(s, from, 0) == s && |Moved(s, from, n)| == |s|
    ensures var r := Moved(s, from, n); Spliced(r, n, r[from + n..from + n + m]) == Moved(s, from, n + m)
  {
    var r := Moved(s, from, n);
    MovedParts(s, from, n, m);
    SliceJoin(s, from, from + n, from + n + m);
    hide Moved;
    assert Spliced(r, n, r[from + n..from + n + m]) == s[from..from + n + m] + s[n + m..];
    MovedIs(s, from, n + m);
  }

  lemma MovedIs(s: seq<bv8>, from: nat, n: nat)
    requires from + n <= |s|
    ensures Moved(s, from, n) == s[from..from + n] + s[n..]
  {
  }

  lemma MovedParts(s: seq<bv8>, from: nat, n: nat, m: nat)
    requires from + n + m <= |s|
    ensures Moved(s, from, 0) == s
    ensures var r := Moved(s, from, n);
            && |r| == |s| && r[..n] == s[from..from + n] && r[n + m..] == s[n + m..]
            && r[from + n..from + n + m] == s[from + n..from + n + m]
  {
  }

  lemma SuccDiffers(n: bv64)
    ensures Succ(n) != n && 1 as bv64 != 0
    ensures forall m :: Succ(m) == Succ(n) ==> m == n
  {
  }

  lemma ChainGrows(es: seq<Entry>, e: Entry)
    requires e.currentHash == EntryHash(e)
    requires es != [] ==> e.previousHash == es[|es| - 1].currentHash
    ensures var es' := LastEntries(es + [e]);
            && es' != [] && es'[|es'| - 1] == e
            && (Linked(es) ==> (Linked(es') <==> NumberedNext(es, e.sequence)))
  {
    hide Succ, EntryHash;
    if Linked(es) {
      LinkedPush(es, e);
    }
  }

  lemma AppendedTables(region: seq<bv8>, capacity: nat, pathLen: nat, nodeCount: nat, offsets: seq<nat>,
                       lengths: seq<nat>, deps: seq<Dep>, records: seq<seq<bv8>>, record: seq<bv8>, dep: Dep,
                       region': seq<bv8>)
    requires Tables(region, capacity, pathLen, nodeCount, offsets, lengths, deps, records)
    requires Fits(records, |record|, capacity) && capacity <= |region| == |region'|
    requires region'[..pathLen + |record|] == region[..pathLen] + record
    ensures Tables(region', capacity, pathLen + |record|, nodeCount + 1, offsets[nodeCount := pathLen],
                   lengths[nodeCount := |record|], deps[nodeCount := dep], records + [record])
  {
    hide Offset, Flatten;
    AppendedRecord(records, record);
  }

  lemma AppendedNumber(deps: seq<Dep>, first: bv64, count: nat, dep: Dep)
    requires count < |deps|
    ensures Numbered(deps, first, count) && count > 0 && dep.sequence == Advance(first, count) ==>
              Numbered(deps[count := dep], first, count + 1) && Advance(first, count + 1) == Succ(dep.sequence)
    ensures count == 0 ==>
              Numbered(deps[count := dep], dep.sequence, 1) && Advance(dep.sequence, 1) == Succ(dep.sequence)
  {
    hide Succ;
  }

  /** The last k of the last n elements before place m. */
  lemma Suffix(s: seq<Dep>, m: nat, t: seq<Dep>, n: nat, k: nat)
    requires k <= n <= m <= |s| && n <= |t| && t[..n] == s[m - n..m]
    ensures t[n - k..n] == s[m - k..m]
  {
    assert t[..n][n - k..] == t[n - k..n];
  }

  lemma NoneNumbered(deps: seq<Dep>)
    ensures forall first: bv64 :: Numbered(deps, first, 0)
  {
  }

  lemma EvictedNumbers(deps: seq<Dep>, first: bv64, count: nat, deps': seq<Dep>)
    requires 0 < count <= |deps| && count - 1 <= |deps'|
    requires forall i :: 0 <= i < count - 1 ==> deps'[i] == deps[i + 1]
    ensures Numbered(deps, first, count) ==> Numbered(deps', Succ(first), count - 1)
    ensures Advance(Succ(first), count - 1) == Advance(first, count)
  {
    hide Succ;
    AdvanceSucc(first, count - 1);
    forall i | 0 <= i < count - 1
      ensures Advance(Succ(first), i) == Advance(first, i + 1)
    {
      AdvanceSucc(first, i);
    }
  }

  /** A new record behind the others keeps offsets, lengths and bytes in step. */
  lemma AppendedRecord(rs: seq<seq<bv8>>, r: seq<bv8>)
    ensures Flatten(rs + [r]) == Flatten(rs) + r
    ensures forall i :: 0 <= i <= |rs| ==> Offset(rs + [r], i) == Offset(rs, i)
    ensures Offset(rs, |rs|) == |Flatten(rs)|
  {
    FlattenAppend(rs, r);
    forall i | 0 <= i <= |rs|
      ensures Offset(rs + [r], i) == Offset(rs, i)
    {
      assert (rs + [r])[..i] == rs[..i];
    }
    assert rs[..|rs|] == rs;
  }

  lemma SliceJoin(s: seq<bv8>, a: nat, b: nat, c: nat)
    requires a <= b <= c <= |s|
    ensures s[a..c] == s[a..b] + s[b..c]
  {
  }

  lemma FlattenNone()
    ensures Flatten([]) == []
  {
  }

  /** Dropping the first record shifts the offsets of all others by its length. */
  lemma EvictedOffsets(rs: seq<seq<bv8>>)
    requires rs != []
    ensures Flatten(rs) == rs[0] + Flatten(rs[1..])
    ensures forall i :: 1 <= i <= |rs| ==> Offset(rs[1..], i - 1) == Offset(rs, i) - |rs[0]| && |rs[0]| <= Offset(rs, i)
  {
    forall i | 1 <= i <= |rs|
      ensures Offset(rs[1..], i - 1) == Offset(rs, i) - |rs[0]|
    {
      assert rs[..i][1..] == rs[1..][..i - 1];
    }
  }
}
