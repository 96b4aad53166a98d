/** Disk blocks as the file system sees them: BSIZE bytes, also readable as an array of
    little-endian 32-bit words (the `(uint *)bp->data` and `struct logheader` views). */
module Blocks {

  const BSIZE: nat := 1024
  const WORDS: nat := BSIZE / 4
  const WORD_LIMIT: nat := 0x1_0000_0000

  // Most distinct blocks one file-system operation may log, and the size of the on-disk log.
  const MAXOPBLOCKS: nat := 10
  const LOGBLOCKS: nat := MAXOPBLOCKS * 3

  type Byte = x: int | 0 <= x < 256

  type Block = b: seq<Byte> | |b| == BSIZE witness seq(BSIZE, _ => 0)

  /** d with s copied over its bytes from offset o. */
  function Patched(d: seq<Byte>, o: nat, s: seq<Byte>): (r: seq<Byte>)
    requires o + |s| <= |d|
    ensures |r| == |d|
    ensures forall j :: 0 <= j < |d| ==> r[j] == if o <= j < o + |s| then s[j - o] else d[j]
  {
    seq(|d|, j requires 0 <= j < |d| => if o <= j < o + |s| then s[j - o] else d[j])
  }

  /** The i-th 32-bit word of a block. */
  function GetWord(b: Block, i: nat): (w: nat)
    requires i < WORDS
    ensures w < WORD_LIMIT
  {
    var b0: int, b1: int, b2: int, b3: int := b[4 * i], b[4 * i + 1], b[4 * i + 2], b[4 * i + 3];
    b0 + 0x100 * b1 + 0x1_0000 * b2 + 0x100_0000 * b3
  }

  lemma BytesOfWord(w: nat)
    requires w < WORD_LIMIT
    ensures w / 0x100_0000 < 0x100
    ensures w ==
      w % 0x100 + 0x100 * (w / 0x100 % 0x100) + 0x1_0000 * (w / 0x1_0000 % 0x100) + 0x100_0000 * (w / 0x100_0000)
  {
    var w1 := w / 0x100;
    var w2 := w1 / 0x100;
    assert w / 0x1_0000 == w2 && w / 0x100_0000 == w2 / 0x100;
  }

  /** Stores a 32-bit word; every other word keeps its value. */
  function SetWord(b: Block, i: nat, w: nat): (r: Block)
    requires i < WORDS && w < WORD_LIMIT
    ensures GetWord(r, i) == w
    ensures forall j: nat :: j < WORDS && j != i ==> GetWord(r, j) == GetWord(b, j)
  {
    BytesOfWord(w);
    b[4 * i := w % 0x100]
     [4 * i + 1 := w / 0x100 % 0x100]
     [4 * i + 2 := w / 0x1_0000 % 0x100]
     [4 * i + 3 := w / 0x100_0000]
  }
}
