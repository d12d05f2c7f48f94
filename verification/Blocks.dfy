/**
  Disk blocks: BSIZE bytes each, read and written either byte by byte (file data) or as
  little-endian 32-bit words (the log header and the indirect blocks).
*/
module Blocks {
  const BSIZE: nat := 1024
  const WORDS: nat := 256
  const WORD_LIMIT: nat := 0x1_0000_0000

  type byte = x: int | 0 <= x < 256
  type word = x: int | 0 <= x < WORD_LIMIT
  type Block = b: seq<byte> | |b| == BSIZE witness seq(BSIZE, i => 0)

  /** The block that memset(…, 0, BSIZE) leaves behind. */
  function Zero(): (z: Block)
    ensures forall j :: 0 <= j < BSIZE ==> z[j] == 0
  {
    seq(BSIZE, i => 0)
  }

  /** The little-endian uint held in four bytes. */
  function FromBytes(b0: int, b1: int, b2: int, b3: int): int {
    b0 + 0x100 * b1 + 0x1_0000 * b2 + 0x100_0000 * b3
  }

  /** The j-th uint of a block: ((uint*)data)[j]. */
  function Word(b: Block, j: nat): word
    requires j < WORDS
  {
    FromBytes(b[4 * j], b[4 * j + 1], b[4 * j + 2], b[4 * j + 3])
  }

  function WordBytes(v: word): (s: seq<byte>)
    ensures |s| == 4
    ensures FromBytes(s[0], s[1], s[2], s[3]) == v
  {
    var h := v / 0x100;
    var hh := h / 0x100;
    [v % 0x100, h % 0x100, hh % 0x100, hh / 0x100]
  }

  /** The block after ((uint*)data)[j] = v: that word reads back v, every other word is untouched. */
  function PutWord(b: Block, j: nat, v: word): (r: Block)
    requires j < WORDS
    ensures Word(r, j) == v
    ensures forall k :: 0 <= k < WORDS && k != j ==> Word(r, k) == Word(b, k)
  {
    var s := WordBytes(v);
    var r: Block := b[4 * j := s[0]][4 * j + 1 := s[1]][4 * j + 2 := s[2]][4 * j + 3 := s[3]];
    r
  }

  lemma ZeroWords(j: nat)
    requires j < WORDS
    ensures Word(Zero(), j) == 0
  {
  }

  /** Position of the first x in s, or |s| when there is none. */
  function IndexOf<T(==)>(s: seq<T>, x: T): (i: nat)
    ensures i <= |s|
    ensures i < |s| ==> s[i] == x
    ensures x in s <==> i < |s|
    ensures forall j :: 0 <= j < i ==> s[j] != x
  {
    if s == [] then 0 else if s[0] == x then 0 else 1 + IndexOf(s[1..], x)
  }

  predicate Distinct<T(==)>(s: seq<T>) {
    forall i, j :: 0 <= i < j < |s| ==> s[i] != s[j]
  }

  lemma SubsetSize(a: set<nat>, b: set<nat>)
    requires a <= b
    ensures |a| <= |b|
  {
    assert b == a + (b - a);
    assert |b| == |a| + |b - a|;
  }
}
