/**
  The kernel's digest of a context: a ring of the last sixteen entries, each carrying a hash over its
  fields and over the hash of the entry before it. Hash arithmetic is 64-bit and wraps around.
*/
module Digest {
  const DIGEST_MAX: nat := 16
  const OFFSET_BASIS: bv64 := 14695981039346656037

  datatype Entry = Entry(sequence: bv64, requestId: bv64, requestHash: bv64, resultHash: bv64, previousHash: bv64,
                         status: bv32, currentHash: bv64)

  /** h *= 1099511628211, the FNV multiplier; arithmetic is modulo 2^64. */
  function Scale(y: bv64): bv64 {
    y * 1099511628211
  }

  /** Multiplication by its inverse. */
  function Unscale(r: bv64): bv64 {
    r * 14886173955864302971
  }

  lemma ScaleIs(y: bv64)
    ensures Scale(y) == y * 1099511628211
  {
  }

  lemma InverseOfProduct(y: bv64)
    ensures Unscale(y * 1099511628211) == y
  {
  }

  /** The multiplier is odd, so multiplying by it loses nothing. */
  lemma ScaleInvertible(y: bv64)
    ensures Unscale(Scale(y)) == y
  {
    hide Scale, Unscale;
    ScaleIs(y);
    InverseOfProduct(y);
  }

  function Xor(h: bv64, x: bv64): bv64 {
    h ^ x
  }

  lemma XorCancels(h: bv64, x: bv64)
    ensures Xor(Xor(h, x), h) == x && Xor(Xor(h, x), x) == h
  {
  }

  /** h ^= x; h *= 1099511628211; */
  function Mix(h: bv64, x: bv64): bv64 {
    Scale(Xor(h, x))
  }

  /** Each step loses nothing of either operand. */
  lemma MixInjective(h: bv64, x: bv64, h': bv64, x': bv64)
    requires Mix(h, x) == Mix(h', x')
    ensures h == h' <==> x == x'
  {
    hide Scale, Unscale, Xor;
    ScaleInvertible(Xor(h, x));
    ScaleInvertible(Xor(h', x'));
    XorCancels(h, x);
    XorCancels(h', x');
  }

  function EntryHash(e: Entry): bv64 {
    Mix(Mix(Mix(Mix(Mix(Mix(OFFSET_BASIS, e.sequence), e.requestId), e.requestHash), e.resultHash), e.previousHash),
        Wide(e.status))
  }

  /** The FNV-1a hash of a string. */
  function Fnv(s: seq<bv8>): bv64 {
    if s == [] then OFFSET_BASIS else Mix(Fnv(s[..|s| - 1]), Byte(s[|s| - 1]))
  }

  function Byte(b: bv8): bv64 {
    b as bv64
  }

  lemma ByteDiffers(a: bv8, b: bv8)
    ensures Byte(a) == Byte(b) <==> a == b
  {
  }

  /** Changing any one byte of a string changes its hash. */
  lemma {:induction false} FnvSeesEveryByte(s: seq<bv8>, i: nat, b: bv8)
    requires i < |s| && b != s[i]
    ensures Fnv(s[i := b]) != Fnv(s)
  {
    hide Mix, Byte;
    var n, s' := |s| - 1, s[i := b];
    if i == n {
      assert s'[..n] == s[..n];
      ByteDiffers(s[n], b);
    } else {
      FnvSeesEveryByte(s[..n], i, b);
      assert s'[..n] == s[..n][i := b] && s'[n] == s[n];
    }
    MixDiffers(Fnv(s[..n]), Byte(s[n]), Fnv(s'[..n]), Byte(s'[n]));
  }

  /** agent_hash_bytes. */
  method HashBytes(s: seq<bv8>) returns (h: bv64)
    ensures h == Fnv(s)
  {
    hide Mix, Byte;
    h := OFFSET_BASIS;
    for i := 0 to |s|
      invariant h == Fnv(s[..i])
    {
      assert s[..i + 1][..i] == s[..i];
      h := Mix(h, Byte(s[i]));
    }
    assert s[..|s|] == s;
  }

  function Succ(n: bv64): bv64 {
    n + 1
  }

  /** Entries chained by hash and numbered consecutively: what the verifier is after. */
  predicate Linked(es: seq<Entry>) {
    && (forall i :: 0 <= i < |es| ==> es[i].currentHash == EntryHash(es[i]))
    && (forall i :: 1 <= i < |es| ==>
          es[i].previousHash == es[i - 1].currentHash && es[i].sequence == Succ(es[i - 1].sequence))
  }

  /** In a linked chain each number is one more than that before it. */
  lemma LinkedCounts(es: seq<Entry>, i: nat)
    requires Linked(es) && 0 < i < |es|
    ensures es[i].sequence - es[i - 1].sequence == 1
  {
    hide EntryHash;
    OneMore(es[i - 1].sequence);
  }

  lemma OneMore(n: bv64)
    ensures Succ(n) - n == 1
  {
  }

  /** e and e' differ in one field and agree on the six others. */
  predicate OneFieldApart(e: Entry, e': Entry) {
    && e != e'
    && (|| e' == e.(sequence := e'.sequence)
        || e' == e.(requestId := e'.requestId)
        || e' == e.(requestHash := e'.requestHash)
        || e' == e.(resultHash := e'.resultHash)
        || e' == e.(previousHash := e'.previousHash)
        || e' == e.(status := e'.status)
        || e' == e.(currentHash := e'.currentHash))
  }

  lemma HashSeesEveryField(e: Entry, e': Entry)
    requires OneFieldApart(e, e') && e'.currentHash == e.currentHash
    ensures EntryHash(e') != EntryHash(e)
  {
    hide Mix;
    var a1, b1 := Mix(OFFSET_BASIS, e.sequence), Mix(OFFSET_BASIS, e'.sequence);
    var a2, b2 := Mix(a1, e.requestId), Mix(b1, e'.requestId);
    var a3, b3 := Mix(a2, e.requestHash), Mix(b2, e'.requestHash);
    var a4, b4 := Mix(a3, e.resultHash), Mix(b3, e'.resultHash);
    var a5, b5 := Mix(a4, e.previousHash), Mix(b4, e'.previousHash);
    MixDiffers(OFFSET_BASIS, e.sequence, OFFSET_BASIS, e'.sequence);
    MixDiffers(a1, e.requestId, b1, e'.requestId);
    MixDiffers(a2, e.requestHash, b2, e'.requestHash);
    MixDiffers(a3, e.resultHash, b3, e'.resultHash);
    MixDiffers(a4, e.previousHash, b4, e'.previousHash);
    MixDiffers(a5, Wide(e.status), b5, Wide(e'.status));
    Widen(e.status, e'.status);
    hide Wide;
  }

  lemma MixDiffers(h: bv64, x: bv64, h': bv64, x': bv64)
    ensures h != h' && x == x' ==> Mix(h, x) != Mix(h', x')
    ensures h == h' && x != x' ==> Mix(h, x) != Mix(h', x')
  {
    hide Mix;
    if Mix(h, x) == Mix(h', x') {
      MixInjective(h, x, h', x');
    }
  }

  /** (uint64)(uint32)status. */
  function Wide(a: bv32): bv64 {
    a as bv64
  }

  lemma Widen(a: bv32, b: bv32)
    ensures Wide(a) == Wide(b) <==> a == b
  {
  }

  /** Tamper evidence: whatever single field of whatever retained entry is changed, the chain breaks. */
  lemma TamperIsSeen(es: seq<Entry>, i: nat, e': Entry)
    requires Linked(es) && i < |es| && OneFieldApart(es[i], e')
    ensures !Linked(es[i := e'])
  {
    hide EntryHash;
    var es' := es[i := e'];
    if e'.currentHash == es[i].currentHash {
      HashSeesEveryField(es[i], e');
    } else {
      assert EntryHash(e') == EntryHash(es[i]) by {
        SameInputs(es[i], e');
      }
    }
    assert es'[i].currentHash != EntryHash(es'[i]);
  }

  lemma SameInputs(e: Entry, e': Entry)
    requires e' == e.(currentHash := e'.currentHash)
    ensures EntryHash(e') == EntryHash(e)
  {
    hide Mix;
  }

  /** Replacing an entry by another whose own hash is right goes unseen only at the end of the chain. */
  lemma ForgedEntryIffLast(es: seq<Entry>, i: nat, e': Entry)
    requires Linked(es) && i < |es| && e'.currentHash == EntryHash(e') && e'.currentHash != es[i].currentHash
    requires i > 0 ==> e'.previousHash == es[i].previousHash && e'.sequence == es[i].sequence
    ensures Linked(es[i := e']) <==> i == |es| - 1
  {
    hide EntryHash;
    var es' := es[i := e'];
    if i < |es| - 1 {
      assert es'[i + 1].previousHash != es'[i].currentHash;
    }
  }

  // ---------------------------------------------------------------- the ring

  function Wrap(i: int): (w: nat)
    ensures w < DIGEST_MAX
  {
    i % DIGEST_MAX
  }

  /** The last count entries before head, oldest first. */
  function Retained(ring: seq<Entry>, head: nat, count: nat): (es: seq<Entry>)
    requires |ring| == DIGEST_MAX && count <= DIGEST_MAX
    ensures |es| == count
    ensures forall i :: 0 <= i < count ==> es[i] == ring[Wrap(head - count + i)]
  {
    seq(count, i requires 0 <= i < count => ring[Wrap(head - count + i)])
  }

  function LastEntries(es: seq<Entry>): seq<Entry> {
    if |es| <= DIGEST_MAX then es else es[|es| - DIGEST_MAX..]
  }

  lemma WrapCases(i: int)
    requires 0 <= i + DIGEST_MAX && i < 2 * DIGEST_MAX
    ensures Wrap(i) == if i < 0 then i + DIGEST_MAX else if i >= DIGEST_MAX then i - DIGEST_MAX else i
  {
  }

  /** Counting back from the advanced head, place i lies one further on than before unless the oldest entry fell out. */
  lemma WrapPush(head: nat, count: nat, i: nat)
    requires head < DIGEST_MAX && count <= DIGEST_MAX
    requires i < if count < DIGEST_MAX then count + 1 else count
    ensures var count' := if count < DIGEST_MAX then count + 1 else count;
            var place := if count < DIGEST_MAX then i else i + 1;
            && Wrap(Wrap(head + 1) - count' + i) == (if i == count' - 1 then head else Wrap(head - count + place))
            && (i < count' - 1 ==> Wrap(head - count + place) != head)
  {
    var count' := if count < DIGEST_MAX then count + 1 else count;
    var place := if count < DIGEST_MAX then i else i + 1;
    WrapCases(head + 1);
    WrapCases(Wrap(head + 1) - count' + i);
    WrapCases(head - count + place);
    hide Wrap;
  }

  /** Storing at head and advancing it keeps the newest sixteen entries. */
  lemma RetainedPush(ring: seq<Entry>, head: nat, count: nat, e: Entry)
    requires |ring| == DIGEST_MAX && count <= DIGEST_MAX && head < DIGEST_MAX
    ensures Retained(ring[head := e], Wrap(head + 1), if count < DIGEST_MAX then count + 1 else count)
         == LastEntries(Retained(ring, head, count) + [e])
  {
    hide Wrap, Retained, LastEntries;
    var count' := if count < DIGEST_MAX then count + 1 else count;
    var l, r := Retained(ring[head := e], Wrap(head + 1), count'), LastEntries(Retained(ring, head, count) + [e]);
    LastEntriesAt(Retained(ring, head, count), e, 0);
    forall i | 0 <= i < count'
      ensures l[i] == r[i]
    {
      RetainedPushAt(ring, head, count, e, i);
    }
  }

  lemma RetainedPushAt(ring: seq<Entry>, head: nat, count: nat, e: Entry, i: nat)
    requires |ring| == DIGEST_MAX && count <= DIGEST_MAX && head < DIGEST_MAX
    requires i < if count < DIGEST_MAX then count + 1 else count
    ensures var count' := if count < DIGEST_MAX then count + 1 else count;
            var r := LastEntries(Retained(ring, head, count) + [e]);
            |r| == count' && Retained(ring[head := e], Wrap(head + 1), count')[i] == r[i]
  {
    hide Wrap, Retained, LastEntries;
    WrapPush(head, count, i);
    LastEntriesAt(Retained(ring, head, count), e, i);
  }

  lemma LastEntriesAt(es: seq<Entry>, e: Entry, i: nat)
    requires |es| <= DIGEST_MAX
    ensures var r := LastEntries(es + [e]);
            && |r| == (if |es| < DIGEST_MAX then |es| + 1 else |es|)
            && (i < |r| ==> r[i] == if i == |r| - 1 then e else es[if |es| < DIGEST_MAX then i else i + 1])
  {
  }

  lemma LinkedAppend(es: seq<Entry>, e: Entry)
    requires Linked(es) && e.currentHash == EntryHash(e)
    requires es != [] ==> e.previousHash == es[|es| - 1].currentHash && e.sequence == Succ(es[|es| - 1].sequence)
    ensures Linked(es + [e])
  {
    hide EntryHash, Succ;
    var r := es + [e];
    forall i | 0 <= i < |r|
      ensures r[i].currentHash == EntryHash(r[i])
    {
      assert r[i] == if i < |es| then es[i] else e;
    }
    forall i | 1 <= i < |r|
      ensures r[i].previousHash == r[i - 1].currentHash && r[i].sequence == Succ(r[i - 1].sequence)
    {
      assert r[i] == (if i < |es| then es[i] else e) && r[i - 1] == es[i - 1];
    }
  }

  lemma LinkedLast(es: seq<Entry>, e: Entry)
    requires es != [] && Linked(LastEntries(es + [e]))
    ensures e.sequence == Succ(es[|es| - 1].sequence)
  {
    hide EntryHash, Succ;
    var r := LastEntries(es + [e]);
    assert r[|r| - 1] == e && r[|r| - 2] == es[|es| - 1];
  }

  /** A new entry extends the chain exactly when it is numbered next. */
  lemma LinkedPush(es: seq<Entry>, e: Entry)
    requires Linked(es) && e.currentHash == EntryHash(e)
    requires es != [] ==> e.previousHash == es[|es| - 1].currentHash
    ensures Linked(LastEntries(es + [e])) <==> es == [] || e.sequence == Succ(es[|es| - 1].sequence)
  {
    hide EntryHash, Linked, Succ;
    if es == [] || e.sequence == Succ(es[|es| - 1].sequence) {
      LinkedAppend(es, e);
      LinkedSuffix(es + [e], |es| + 1 - |LastEntries(es + [e])|);
    } else if Linked(LastEntries(es + [e])) {
      LinkedLast(es, e);
    }
  }

  lemma LinkedSuffix(es: seq<Entry>, k: nat)
    requires Linked(es) && k <= |es|
    ensures Linked(es[k..])
  {
    hide EntryHash, Succ;
    forall i | 1 <= i < |es| - k
      ensures es[k..][i].previousHash == es[k..][i - 1].currentHash
      ensures es[k..][i].sequence == Succ(es[k..][i - 1].sequence)
    {
      assert es[k..][i] == es[k + i] && es[k..][i - 1] == es[k + i - 1];
    }
  }

  class Ring {
    var digests: seq<Entry>
    var head: int
    var count: int

    ghost predicate Valid()
      reads this
    {
      |digests| == DIGEST_MAX && 0 <= head < DIGEST_MAX && 0 <= count <= DIGEST_MAX
    }

    ghost function Entries(): seq<Entry>
      requires Valid()
      reads this
    {
      Retained(digests, head, count)
    }

    constructor ()
      ensures Valid() && Entries() == []
    {
      digests := seq(DIGEST_MAX, i => Entry(0, 0, 0, 0, 0, 0, 0));
      head, count := 0, 0;
    }

    method Clear()
      requires |digests| == DIGEST_MAX
      modifies this
      ensures Valid() && Entries() == [] && digests == seq(DIGEST_MAX, i => Entry(0, 0, 0, 0, 0, 0, 0))
    {
      digests := seq(DIGEST_MAX, i => Entry(0, 0, 0, 0, 0, 0, 0));
      head, count := 0, 0;
    }

    /** The hash of the newest entry, 0 when there is none. */
    method LastHash() returns (h: bv64)
      requires Valid()
      ensures h == if Entries() == [] then 0 else Entries()[count - 1].currentHash
    {
      if count == 0 {
        return 0;
      }
      var prev := head - 1;
      if prev < 0 {
        prev := DIGEST_MAX - 1;
      }
      assert prev == Wrap(head - count + (count - 1));
      return digests[prev].currentHash;
    }

    /** agent_context_digest_push. */
    method Push(sequence: bv64, requestId: bv64, request: seq<bv8>, result: seq<bv8>, status: bv32)
      requires Valid()
      modifies this
      ensures Valid()
      ensures Entries() == LastEntries(old(Entries())
                                       + [NewEntry(old(Entries()), sequence, requestId, request, result, status)])
    {
      hide Mix, Retained, Fnv, Wide, LastEntries;
      var prevHash := LastHash();
      var q := HashBytes(request);
      var a := HashBytes(result);
      var h := Mix(Mix(Mix(Mix(Mix(Mix(OFFSET_BASIS, sequence), requestId), q), a), prevHash), Wide(status));
      var e := Entry(sequence, requestId, q, a, prevHash, status, h);
      assert e == NewEntry(Entries(), sequence, requestId, request, result, status);
      RetainedPush(digests, head, count, e);
      digests := digests[head := e];
      head := Wrap(head + 1);
      if count < DIGEST_MAX {
        count := count + 1;
      }
    }

    /** agent_context_digest_verify: 0 exactly for well-placed indices and a linked chain, else -1. */
    method Verify() returns (r: int)
      requires |digests| == DIGEST_MAX
      ensures r == 0 || r == -1
      ensures r == 0 <==> Valid() && Linked(Entries())
    {
      hide EntryHash, Succ, Retained, Linked, Wrap;
      if count < 0 || count > DIGEST_MAX || head < 0 || head >= DIGEST_MAX {
        return -1;
      }
      if count == 0 {
        NoneLinked(Entries());
        return 0;
      }
      var first := head - count;
      while first < 0
        invariant first == head - count || first == head - count + DIGEST_MAX
        decreases -first
      {
        first := first + DIGEST_MAX;
      }
      var expectedPrev: bv64 := 0;
      var previousSequence: bv64 := 0;
      NoneLinked(Entries()[..0]);
      for i := 0 to count
        invariant Linked(Entries()[..i])
        invariant i > 0 ==>
                    expectedPrev == Entries()[i - 1].currentHash && previousSequence == Entries()[i - 1].sequence
      {
        LinkedStep(Entries(), i);
        SamePlace(first, head - count, i);
        var d := digests[Wrap(first + i)];
        if i > 0 && d.previousHash != expectedPrev {
          return -1;
        }
        if i > 0 && d.sequence != Succ(previousSequence) {
          return -1;
        }
        if EntryHash(d) != d.currentHash {
          return -1;
        }
        expectedPrev := d.currentHash;
        previousSequence := d.sequence;
      }
      assert Entries()[..count] == Entries();
      return 0;
    }
  }

  /** The entry agent_context_digest_push adds after es. */
  function NewEntry(es: seq<Entry>, sequence: bv64, requestId: bv64, request: seq<bv8>, result: seq<bv8>,
                    status: bv32): Entry {
    var e := Entry(sequence, requestId, Fnv(request), Fnv(result), if es == [] then 0 else es[|es| - 1].currentHash,
                   status, 0);
    e.(currentHash := EntryHash(e))
  }

  /** Whatever is recorded goes into the entry's own place, and any byte of the request or of the result
    * shows in the hash that the next entry carries on. */
  lemma NewEntrySees(es: seq<Entry>, sequence: bv64, requestId: bv64, request: seq<bv8>, result: seq<bv8>,
                     status: bv32, i: nat, b: bv8)
    ensures var e := NewEntry(es, sequence, requestId, request, result, status);
            && e.sequence == sequence && e.requestId == requestId && e.status == status
            && e.requestHash == Fnv(request) && e.resultHash == Fnv(result)
            && e.previousHash == (if es == [] then 0 else es[|es| - 1].currentHash)
            && (i < |request| && b != request[i] ==>
                  NewEntry(es, sequence, requestId, request[i := b], result, status).currentHash != e.currentHash)
            && (i < |result| && b != result[i] ==>
                  NewEntry(es, sequence, requestId, request, result[i := b], status).currentHash != e.currentHash)
  {
    hide Fnv, EntryHash;
    var e := NewEntry(es, sequence, requestId, request, result, status);
    NewEntryHash(es, sequence, requestId, request, result, status);
    if i < |request| && b != request[i] {
      FnvSeesEveryByte(request, i, b);
      NewEntryHash(es, sequence, requestId, request[i := b], result, status);
      HashDiffers(e, NewEntry(es, sequence, requestId, request[i := b], result, status));
    }
    if i < |result| && b != result[i] {
      FnvSeesEveryByte(result, i, b);
      NewEntryHash(es, sequence, requestId, request, result[i := b], status);
      HashDiffers(e, NewEntry(es, sequence, requestId, request, result[i := b], status));
    }
  }

  lemma HashDiffers(e: Entry, e': Entry)
    requires e.currentHash == EntryHash(e) && e'.currentHash == EntryHash(e')
    requires OneFieldApart(e, e'.(currentHash := e.currentHash))
    ensures e.currentHash != e'.currentHash
  {
    hide EntryHash;
    HashSeesEveryField(e, e'.(currentHash := e.currentHash));
    HashOfFields(e', e.currentHash);
  }

  lemma HashOfFields(e: Entry, h: bv64)
    ensures EntryHash(e.(currentHash := h)) == EntryHash(e)
  {
    hide Mix, Wide;
  }

  lemma NewEntryHash(es: seq<Entry>, sequence: bv64, requestId: bv64, request: seq<bv8>, result: seq<bv8>, status: bv32)
    ensures var e := NewEntry(es, sequence, requestId, request, result, status);
            e.currentHash == EntryHash(e)
  {
    hide Mix, Fnv, Wide;
  }

  lemma NoneLinked(es: seq<Entry>)
    requires es == []
    ensures Linked(es)
  {
  }

  lemma SamePlace(first: int, base: int, i: nat)
    requires first == base || first == base + DIGEST_MAX
    ensures Wrap(first + i) == Wrap(base + i)
  {
  }

  /** A chain is linked up to i + 1 entries, given it is up to i, when entry i fits; otherwise it never is. */
  lemma LinkedStep(es: seq<Entry>, i: nat)
    requires i < |es| && Linked(es[..i])
    ensures var fits :=
              && es[i].currentHash == EntryHash(es[i])
              && (i > 0 ==> es[i].previousHash == es[i - 1].currentHash && es[i].sequence == Succ(es[i - 1].sequence));
            (fits ==> Linked(es[..i + 1])) && (!fits ==> !Linked(es))
  {
    hide EntryHash, Succ;
    forall k | 0 <= k < i
      ensures es[k].currentHash == EntryHash(es[k])
    {
      assert es[..i][k] == es[k];
    }
    forall k | 1 <= k < i
      ensures es[k].previousHash == es[k - 1].currentHash && es[k].sequence == Succ(es[k - 1].sequence)
    {
      assert es[..i][k] == es[k] && es[..i][k - 1] == es[k - 1];
    }
  }
}
