/** Bytes, bits and words of disk blocks (fs.h, and the data[bi/8] and a[bn] accesses of
    fs.c). A bitmap block holds one bit per block, the lowest bit of a byte first; an
    indirect block holds one little-endian 32-bit block number per four bytes. Setting
    or clearing a bit, or storing a word, is proved to change that bit or word only. */
module FsLayout {
  import opened Bytes

  const BSIZE := 512
  const NDIRECT := 12
  const NINDIRECT := 128
  const MAXFILE := 140
  const BPB := 4096
  const IPB := 8

  type Block = seq<byte>

  ghost predicate IsZero(b: Block) {
    forall i :: 0 <= i < |b| ==> b[i] == 0
  }

  function ZeroBlock(): (b: Block)
    ensures |b| == BSIZE && IsZero(b)
  {
    seq(BSIZE, _ => 0)
  }

  // ----- Words: little-endian 32-bit numbers

  function Word(b: Block, j: int): int
    requires 0 <= j && 4 * j + 3 < |b|
  {
    WordOf(b[4 * j], b[4 * j + 1], b[4 * j + 2], b[4 * j + 3])
  }

  function PutWord(b: Block, j: int, v: int): (r: Block)
    requires 0 <= j && 4 * j + 3 < |b|
    ensures |r| == |b|
  {
    var low := b[4 * j := Byte(v)][4 * j + 1 := Byte(v / 0x100)];
    low[4 * j + 2 := Byte(v / 0x1_0000)][4 * j + 3 := Byte(v / 0x100_0000)]
  }

  /** Writing a word and reading it back, and leaving the others alone. */
  lemma PutWordWord(b: Block, j: int, v: int, i: int)
    requires |b| == BSIZE && 0 <= j < NINDIRECT && 0 <= i < NINDIRECT && 0 <= v < U32
    ensures |PutWord(b, j, v)| == BSIZE && Word(PutWord(b, j, v), i) == if i == j then v else Word(b, i)
  {
    WordRoundTrip(v);
    hide Byte, WordOf;
  }

  lemma ZeroWord(b: Block, i: int)
    requires |b| == BSIZE && IsZero(b) && 0 <= i < NINDIRECT
    ensures Word(b, i) == 0
  {
  }

  // ----- Bits

  predicate BitOn(x: byte, i: int)
    requires 0 <= i < 8
  {
    x & (1 << i) != 0
  }

  /** The bit for block number b within a bitmap block. */
  predicate BitAt(m: Block, k: int)
    requires 0 <= k < BPB && |m| == BSIZE
  {
    BitOn(m[k / 8], k % 8)
  }

  /** data[k/8] |= 1 << (k%8). */
  function SetBit(m: Block, k: int): Block
    requires 0 <= k < BPB && |m| == BSIZE
  {
    m[k / 8 := m[k / 8] | (1 << (k % 8))]
  }

  /** data[k/8] &= ~(1 << (k%8)). */
  function ClearBit(m: Block, k: int): Block
    requires 0 <= k < BPB && |m| == BSIZE
  {
    m[k / 8 := m[k / 8] & !(1 << (k % 8))]
  }

  lemma ByteBits(x: byte, i: int, j: int)
    requires 0 <= i < 8 && 0 <= j < 8
    ensures BitOn(x | (1 << i), j) <==> i == j || BitOn(x, j)
    ensures BitOn(x & !(1 << i), j) <==> i != j && BitOn(x, j)
  {
  }

  lemma SetBitAt(m: Block, k: int, j: int)
    requires 0 <= k < BPB && 0 <= j < BPB && |m| == BSIZE
    ensures |SetBit(m, k)| == BSIZE && (BitAt(SetBit(m, k), j) <==> j == k || BitAt(m, j))
  {
    ByteBits(m[k / 8], k % 8, j % 8);
    hide BitOn;
  }

  lemma ClearBitAt(m: Block, k: int, j: int)
    requires 0 <= k < BPB && 0 <= j < BPB && |m| == BSIZE
    ensures |ClearBit(m, k)| == BSIZE && (BitAt(ClearBit(m, k), j) <==> j != k && BitAt(m, j))
  {
    ByteBits(m[k / 8], k % 8, j % 8);
    hide BitOn;
  }
}
