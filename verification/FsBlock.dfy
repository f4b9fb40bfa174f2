/** Disk blocks as bytes, read as bitmaps and as tables of 32-bit block numbers (kernel/fs.h). */
module FsBlock {

  /** The bytes of a block, each below 256. */
  type Block = seq<nat>

  const BSIZE: nat := 1024
  const BPB: nat := 8192       // bitmap bits per block: BSIZE * 8
  const NDIRECT: nat := 12
  const NINDIRECT: nat := 256  // BSIZE / sizeof(uint)
  const MAXFILE: nat := 268    // NDIRECT + NINDIRECT
  const UINT_LIMIT: nat := 0x1_0000_0000

  function Zeroed(): (b: Block)
    ensures |b| == BSIZE && forall i | 0 <= i < BSIZE :: b[i] == 0
  {
    seq(BSIZE, _ => 0)
  }

  // ---- bits ----

  /** (x >> k) & 1 */
  predicate HasBit(x: nat, k: nat)
  {
    if k == 0 then x % 2 == 1 else HasBit(x / 2, k - 1)
  }

  /** x | (1 << k) */
  function OrBit(x: nat, k: nat): nat
  {
    if k == 0 then x / 2 * 2 + 1 else 2 * OrBit(x / 2, k - 1) + x % 2
  }

  /** x & ~(1 << k) */
  function AndNotBit(x: nat, k: nat): nat
  {
    if k == 0 then x / 2 * 2 else 2 * AndNotBit(x / 2, k - 1) + x % 2
  }

  predicate BitAt(b: Block, i: nat)
    requires i / 8 < |b|
  {
    HasBit(b[i / 8], i % 8)
  }

  function SetBit(b: Block, i: nat): Block
    requires i / 8 < |b|
  {
    b[i / 8 := OrBit(b[i / 8], i % 8)]
  }

  function ClearBit(b: Block, i: nat): Block
    requires i / 8 < |b|
  {
    b[i / 8 := AndNotBit(b[i / 8], i % 8)]
  }

  lemma {:induction false} BitOps(x: nat, k: nat, l: nat)
    ensures HasBit(OrBit(x, k), l) <==> k == l || HasBit(x, l)
    ensures HasBit(AndNotBit(x, k), l) <==> k != l && HasBit(x, l)
    decreases k
  {
    if k > 0 && l > 0 {
      BitOps(x / 2, k - 1, l - 1);
      assert OrBit(x, k) / 2 == OrBit(x / 2, k - 1);
      assert AndNotBit(x, k) / 2 == AndNotBit(x / 2, k - 1);
    } else if l > 0 {
      assert OrBit(x, 0) / 2 == x / 2 && AndNotBit(x, 0) / 2 == x / 2;
    }
  }

  /** Setting or clearing one bit changes that bit alone. */
  lemma BitUpdate(b: Block, i: nat, j: nat)
    requires i / 8 < |b| && j / 8 < |b|
    ensures BitAt(SetBit(b, i), j) <==> i == j || BitAt(b, j)
    ensures BitAt(ClearBit(b, i), j) <==> i != j && BitAt(b, j)
  {
    if i / 8 == j / 8 {
      BitOps(b[i / 8], i % 8, j % 8);
      assert i == j <==> i % 8 == j % 8;
    }
  }

  // ---- words, least significant byte first ----

  function WordAt(b: Block, j: nat): (w: nat)
    requires 4 * j + 3 < |b|
  {
    b[4 * j] + 256 * b[4 * j + 1] + 65536 * b[4 * j + 2] + 16777216 * b[4 * j + 3]
  }

  function PutWord(b: Block, j: nat, w: nat): (b': Block)
    requires 4 * j + 3 < |b| && w < UINT_LIMIT
    ensures |b'| == |b|
  {
    b[4 * j := w % 256]
     [4 * j + 1 := w / 256 % 256]
     [4 * j + 2 := w / 65536 % 256]
     [4 * j + 3 := w / 16777216]
  }

  lemma WordBytes(w: nat)
    requires w < UINT_LIMIT
    ensures w / 16777216 < 256
    ensures w == w % 256 + 256 * (w / 256 % 256) + 65536 * (w / 65536 % 256) + 16777216 * (w / 16777216)
  {
    assert w / 65536 == (w / 256) / 256;
    assert w / 16777216 == (w / 65536) / 256;
  }

  /** Storing a block number changes that entry alone. */
  lemma WordUpdate(b: Block, j: nat, w: nat, l: nat)
    requires 4 * j + 3 < |b| && 4 * l + 3 < |b| && w < UINT_LIMIT
    ensures WordAt(PutWord(b, j, w), l) == if l == j then w else WordAt(b, l)
  {
    WordBytes(w);
  }

  lemma ZeroWord(j: nat)
    requires j < NINDIRECT
    ensures WordAt(Zeroed(), j) == 0
  {
  }

  // ---- bytes of a file ----

  /** `b` with the bytes from `at` on replaced by `src`: memmove() into a buffer. */
  function Patched(b: Block, at: nat, src: seq<nat>): (b': Block)
    requires at + |src| <= |b|
    ensures |b'| == |b|
    ensures forall i | 0 <= i < |b| :: b'[i] == if at <= i < at + |src| then src[i - at] else b[i]
  {
    b[..at] + src + b[at + |src|..]
  }
}
