/** The image that mkfs/mkfs.c is building, as values: blocks are handed out in order, and the bitmap
    is written only at the end. */
module MkfsState {
  import opened FsBlock
  import opened FsState
  import opened FsMap
  import opened FsWrite

  /** The superblock that main() fills in. */
  function MakeLayout(fssize: nat, ninodes: nat, nlog: nat): (g: Layout)
  {
    var nbitmap := fssize / BPB + 1;
    var ninodeblocks := ninodes / IPB + 1;
    Layout(fssize, ninodes, 2 + nlog, 2 + nlog + ninodeblocks, 2 + nlog + ninodeblocks + nbitmap)
  }

  /** The layout is sound exactly when the metadata fit on the disk; each bit and each inode then has a place
      in the bitmap and inode areas, and these end where the next area starts. */
  lemma LayoutFits(fssize: nat, ninodes: nat, nlog: nat)
    ensures var g := MakeLayout(fssize, ninodes, nlog);
      && (LayoutOk(g) <==> g.nmeta <= fssize < UINT_LIMIT)
      && (forall i: nat :: g.inodestart <= IBlock(g,
                                                  i) && (IBlock(g, i) < g.bmapstart <==> i < (ninodes / IPB + 1) * IPB))
      && (forall b: nat :: g.bmapstart <= BBlock(g, b) && (BBlock(g, b) < g.nmeta <==> b < (fssize / BPB + 1) * BPB))
  {
  }

  ghost function Below(n: nat): (r: set<nat>)
    ensures forall b: nat :: b in r <==> b < n
  {
    if n == 0 then {} else Below(n - 1) + {n - 1}
  }

  /** The image so far; `fb` is freeblock. */
  datatype Img = Img(disk: seq<Block>, addrs: seq<seq<nat>>, fb: nat, data: map<nat, nat>, inds: map<nat, nat>)

  /** Every block below `fb` is metadata or has exactly one place in a file; the others are still zero. */
  ghost predicate Built(g: Layout, s: Img)
  {
    && Sized(g, s.disk) && Shape(g, s.addrs) && g.nmeta <= s.fb <= g.size
    && Own(g, Below(s.fb), s.data, s.inds)
    && Inodes(g, s.disk, s.addrs, s.data, s.inds)
    && Untouched(g, s.disk, s.fb)
  }

  ghost predicate Untouched(g: Layout, disk: seq<Block>, fb: nat)
    requires Sized(g, disk)
  {
    && (forall b | fb <= b < g.size :: disk[b] == Zeroed())
    && (forall b | g.bmapstart <= b < g.nmeta :: disk[b] == Zeroed())
  }

  lemma NextBlock(fb: nat)
    ensures Below(fb) + {fb} == Below(fb + 1) && fb !in Below(fb)
  {
  }

  /** What the inode says about block `bn` of file `i`. */
  lemma ImageMap(g: Layout, s: Img, i: nat, bn: nat)
    requires Built(g, s) && i < g.ninodes && bn < MAXFILE
    ensures |s.addrs| == g.ninodes && |s.addrs[i]| == NDIRECT + 1 && |s.disk| == g.size
    ensures Key(i, bn) in s.data ==> g.nmeta <= s.data[Key(i, bn)] < s.fb && |s.disk[s.data[Key(i, bn)]]| == BSIZE
    ensures bn < NDIRECT ==> s.addrs[i][bn] == if Key(i, bn) in s.data then s.data[Key(i, bn)] else 0
    ensures s.addrs[i][NDIRECT] == if i in s.inds then s.inds[i] else 0
    ensures i in s.inds ==> g.nmeta <= s.inds[i] < s.fb && |s.disk[s.inds[i]]| == BSIZE
    ensures NDIRECT <= bn && i in s.inds ==>
      Entry(s.disk[s.inds[i]], bn) == if Key(i, bn) in s.data then s.data[Key(i, bn)] else 0
    ensures NDIRECT <= bn && i !in s.inds ==> Key(i, bn) !in s.data
    ensures 0 < g.nmeta <= s.fb <= g.size < UINT_LIMIT
  {
    assert Direct(s.addrs, i, NDIRECT) == if i in s.inds then s.inds[i] else 0;
    if bn < NDIRECT {
      assert Direct(s.addrs, i, bn) == Lookup(s.data, i, bn);
    } else {
      assert Lookup(s.data, i, bn) == if i in s.inds then Entry(s.disk[s.inds[i]], bn) else 0;
    }
  }

  /** Where the blocks of files are. */
  lemma ImagePlaces(g: Layout, s: Img)
    requires Built(g, s)
    ensures |s.disk| == g.size && g.nmeta <= s.fb <= g.size
    ensures forall t | t in s.data :: g.nmeta <= s.data[t] < s.fb
    ensures forall j | j in s.inds :: g.nmeta <= s.inds[j] < s.fb
    ensures forall t, j | t in s.data && j in s.inds :: s.data[t] != s.inds[j]
    ensures forall b | s.fb <= b < g.size :: s.disk[b] == Zeroed()
  {
  }

  lemma OwnInds(g: Layout, used: set<nat>, data: map<nat, nat>, inds: map<nat, nat>, i: nat)
    requires Own(g, used, data, inds) && i in inds
    ensures forall j | j in inds && j != i :: inds[j] != inds[i]
  {
  }

  lemma TakeDirect(g: Layout, s: Img, i: nat, k: nat)
    requires Built(g, s) && s.fb < g.size && i < g.ninodes && k < NDIRECT && Key(i, k) !in s.data
    ensures Built(g, Img(s.disk, SetAddr(s.addrs, i, k, s.fb), s.fb + 1, s.data[Key(i, k) := s.fb], s.inds))
    ensures SameBytes(s.disk, s.data, s.disk, s.data[Key(i, k) := s.fb])
  {
    hide Own;
    hide Inodes;
    hide Key;
    hide SameBytes;
    ImagePlaces(g, s);
    NextBlock(s.fb);
    OwnAddData(g, Below(s.fb), s.data, s.inds, Key(i, k), s.fb);
    InodesAddDirect(g, s.disk, s.addrs, s.data, s.inds, i, k, s.fb);
    AllocKeepsBytes(s.disk, s.disk, s.data, s.data[Key(i, k) := s.fb]);
  }

  lemma TakeInd(g: Layout, s: Img, i: nat)
    requires Built(g, s) && s.fb < g.size && i < g.ninodes && i !in s.inds
    ensures Built(g, Img(s.disk, SetAddr(s.addrs, i, NDIRECT, s.fb), s.fb + 1, s.data, s.inds[i := s.fb]))
  {
    hide Own;
    hide Inodes;
    NextBlock(s.fb);
    OwnAddInd(g, Below(s.fb), s.data, s.inds, i, s.fb);
    InodesAddInd(g, s.disk, s.addrs, s.data, s.inds, i, s.fb);
  }

  lemma TakeEntry(g: Layout, s: Img, i: nat, bn: nat)
    requires Built(g, s) && s.fb < g.size && i in s.inds && NDIRECT <= bn < MAXFILE && Key(i, bn) !in s.data
    ensures s.inds[i] < |s.disk| && |s.disk[s.inds[i]]| == BSIZE && s.fb < UINT_LIMIT
    ensures var disk1 := s.disk[s.inds[i] := PutWord(s.disk[s.inds[i]], bn - NDIRECT, s.fb)];
      && Built(g, Img(disk1, s.addrs, s.fb + 1, s.data[Key(i, bn) := s.fb], s.inds))
      && SameBytes(s.disk, s.data, disk1, s.data[Key(i, bn) := s.fb])
  {
    hide Own;
    hide Inodes;
    hide Key;
    hide SameBytes;
    hide PutWord;
    ImagePlaces(g, s);
    OwnInds(g, Below(s.fb), s.data, s.inds, i);
    NextBlock(s.fb);
    OwnAddData(g, Below(s.fb), s.data, s.inds, Key(i, bn), s.fb);
    InodesAddEntry(g, s.disk, s.addrs, s.data, s.inds, i, bn, s.fb);
    var disk1 := s.disk[s.inds[i] := PutWord(s.disk[s.inds[i]], bn - NDIRECT, s.fb)];
    AllocKeepsBytes(s.disk, disk1, s.data, s.data[Key(i, bn) := s.fb]);
  }

  /** Copying `piece` into the block of file `i` that holds offset `at`. */
  lemma PatchImage(g: Layout, s: Img, i: nat, at: nat, piece: seq<nat>)
    requires Built(g, s) && at / BSIZE < MAXFILE && at % BSIZE + |piece| <= BSIZE && Key(i, at / BSIZE) in s.data
    ensures s.data[Key(i, at / BSIZE)] < |s.disk| && |s.disk[s.data[Key(i, at / BSIZE)]]| == BSIZE
    ensures var r := s.data[Key(i, at / BSIZE)];
      var disk1 := s.disk[r := Patched(s.disk[r], at % BSIZE, piece)];
      Built(g, s.(disk := disk1)) && BytesWritten(s.disk, s.data, disk1, s.data, i, at, piece)
  {
    hide Own;
    hide Inodes;
    hide Byte;
    ImagePlaces(g, s);
    var r := s.data[Key(i, at / BSIZE)];
    var disk1 := s.disk[r := Patched(s.disk[r], at % BSIZE, piece)];
    PatchBytes(g, s.disk, Below(s.fb), s.data, s.inds, i, at, piece);
    hide Key;
    InodesFrame(g, s.disk, disk1, s.addrs, s.data, s.inds);
  }

  // ---- sizes ----

  /** The files have exactly the blocks that their sizes call for. */
  ghost predicate Exact(g: Layout, sizes: seq<nat>, data: map<nat, nat>, inds: map<nat, nat>)
  {
    && |sizes| == g.ninodes
    && (forall i | 0 <= i < g.ninodes :: sizes[i] <= MAXFILE * BSIZE)
    && (forall i, bn {:trigger Key(i, bn)} | 0 <= i < g.ninodes && 0 <= bn < MAXFILE ::
          Key(i, bn) in data <==> bn * BSIZE < sizes[i])
    && (forall i | 0 <= i < g.ninodes :: i in inds <==> NDIRECT * BSIZE < sizes[i])
  }

  /** The number of blocks of a file of `size` bytes, with the indirect block. */
  function NBlocks(size: nat): nat
  {
    (size + BSIZE - 1) / BSIZE + (if NDIRECT * BSIZE < size then 1 else 0)
  }

  /** The blocks that the next `m` bytes after `off` need, all of them in one block of the file. */
  function Needed(off: nat): nat
  {
    (if off % BSIZE == 0 then 1 else 0) + (if off == NDIRECT * BSIZE then 1 else 0)
  }

  lemma NBlocksStep(off: nat, m: nat)
    requires 0 < m && off % BSIZE + m <= BSIZE
    ensures NBlocks(off + m) == NBlocks(off) + Needed(off)
  {
    var q, r := off / BSIZE, off % BSIZE;
    assert off == q * BSIZE + r;
    assert (off + m + BSIZE - 1) / BSIZE == q + 1;
    assert (off + BSIZE - 1) / BSIZE == if r == 0 then q else q + 1;
  }

  lemma NBlocksMonotone(a: nat, b: nat)
    requires a <= b
    ensures NBlocks(a) <= NBlocks(b)
  {
  }

  lemma ExactStep(g: Layout, sizes: seq<nat>, data: map<nat, nat>, inds: map<nat, nat>, i: nat, m: nat,
                  data': map<nat, nat>, inds': map<nat, nat>, r: nat)
    requires Exact(g, sizes, data, inds) && i < g.ninodes && 0 < m && sizes[i] % BSIZE + m <= BSIZE
    requires sizes[i] / BSIZE < MAXFILE
    requires data' == data[Key(i, sizes[i] / BSIZE) := r]
    requires NDIRECT <= sizes[i] / BSIZE ==> inds'.Keys == inds.Keys + {i}
    requires sizes[i] / BSIZE < NDIRECT ==> inds' == inds
    ensures Exact(g, sizes[i := sizes[i] + m], data', inds')
  {
    var size := sizes[i];
    var fbn := size / BSIZE;
    var sizes' := sizes[i := size + m];
    assert fbn * BSIZE <= size < size + m <= fbn * BSIZE + BSIZE;
    forall j, bn | 0 <= j < g.ninodes && 0 <= bn < MAXFILE
      ensures Key(j, bn) in data' <==> bn * BSIZE < sizes'[j]
    {
      assert Key(j, bn) == Key(i, fbn) <==> j == i && bn == fbn;
      assert Key(j, bn) in data <==> bn * BSIZE < sizes[j];
    }
    forall j | 0 <= j < g.ninodes
      ensures j in inds' <==> NDIRECT * BSIZE < sizes'[j]
    {
      assert j in inds.Keys <==> j in inds;
      assert j in inds'.Keys <==> j in inds';
    }
  }

  // ---- appending ----

  /** There is room for `n` more bytes in a file of `size` bytes when blocks from `fb` on are free. */
  predicate Room(g: Layout, fb: nat, size: nat, n: nat)
  {
    size + n <= MAXFILE * BSIZE && fb + NBlocks(size + n) <= g.size + NBlocks(size)
  }

  /** What appending `p` to file `i` does; `z` are the sizes of the files. */
  ghost predicate Appended(g: Layout, s0: Img, z0: seq<nat>, s: Img, z: seq<nat>, i: nat, p: seq<nat>)
    requires i < |z0|
  {
    && Built(g, s) && Exact(g, z, s.data, s.inds)
    && z == z0[i := z0[i] + |p|]
    && s.fb + NBlocks(z0[i]) == s0.fb + NBlocks(z0[i] + |p|)
    && BytesWritten(s0.disk, s0.data, s.disk, s.data, i, z0[i], p)
  }

  lemma AppendedNothing(g: Layout, s: Img, z: seq<nat>, i: nat)
    requires Built(g, s) && Exact(g, z, s.data, s.inds) && i < |z|
    ensures Appended(g, s, z, s, z, i, [])
  {
    hide Built;
    hide Exact;
    hide SameBytes;
    SameBytesAsSelf(s.disk, s.data);
    BytesNone(s.disk, s.data, s.disk, s.data, i, z[i]);
  }

  lemma AppendedFacts(g: Layout, s0: Img, z0: seq<nat>, s: Img, z: seq<nat>, i: nat, p: seq<nat>)
    requires i < |z0| && Appended(g, s0, z0, s, z, i, p)
    ensures Built(g, s) && Exact(g, z, s.data, s.inds) && |z0| == |z| == g.ninodes
    ensures z == z0[i := z0[i] + |p|] && z0[i] + |p| <= MAXFILE * BSIZE
    ensures s.fb + NBlocks(z0[i]) == s0.fb + NBlocks(z0[i] + |p|)
  {
    hide Built;
    hide BytesWritten;
    hide NBlocks;
    ExactSizes(g, z, s.data, s.inds);
    assert z[i] == z0[i] + |p|;
  }

  lemma AppendedMore(g: Layout, s0: Img, z0: seq<nat>, s1: Img, z1: seq<nat>, s2: Img, z2: seq<nat>,
                     i: nat, a: seq<nat>, b: seq<nat>)
    requires i < |z0| && |z1| == |z0|
    requires Appended(g, s0, z0, s1, z1, i, a) && Appended(g, s1, z1, s2, z2, i, b)
    ensures Appended(g, s0, z0, s2, z2, i, a + b)
  {
    hide Built;
    hide Exact;
    hide BytesWritten;
    BytesAppend(s0.disk, s0.data, s1.disk, s1.data, s2.disk, s2.data, i, z0[i], a, b);
  }

  /** What mapping block `bn` of file `i` does: at most two more blocks, and no byte changes. */
  ghost predicate MappedIn(g: Layout, s: Img, s1: Img, i: nat, bn: nat, x: nat)
  {
    && Built(g, s1)
    && s1.fb == s.fb + Missing(s, i, bn)
    && s1.data == s.data[Key(i, bn) := x]
    && (if bn < NDIRECT then s1.inds == s.inds else s1.inds.Keys == s.inds.Keys + {i})
    && SameBytes(s.disk, s.data, s1.disk, s1.data)
  }

  ghost function Missing(s: Img, i: nat, bn: nat): nat
  {
    (if Key(i, bn) in s.data then 0 else 1) + (if NDIRECT <= bn && i !in s.inds then 1 else 0)
  }

  /** The blocks that are missing at the end of a file are those that its size says. */
  lemma MissingAtEnd(g: Layout, s: Img, sizes: seq<nat>, i: nat)
    requires Exact(g, sizes, s.data, s.inds) && i < g.ninodes && sizes[i] / BSIZE < MAXFILE
    ensures Missing(s, i, sizes[i] / BSIZE) == Needed(sizes[i])
  {
    var size := sizes[i];
    assert Key(i, size / BSIZE) in s.data <==> size / BSIZE * BSIZE < size;
  }

  /** One turn of the loop of iappend(): map the block at the end of the file and copy `piece` into it. */
  lemma AppendPiece(g: Layout, s: Img, z: seq<nat>, s1: Img, i: nat, x: nat, piece: seq<nat>)
    requires Exact(g, z, s.data, s.inds) && i < g.ninodes && z[i] / BSIZE < MAXFILE
    requires MappedIn(g, s, s1, i, z[i] / BSIZE, x) && 0 < |piece| && z[i] % BSIZE + |piece| <= BSIZE
    ensures x < |s1.disk| && |s1.disk[x]| == BSIZE
    ensures Appended(g, s, z, s1.(disk := s1.disk[x := Patched(s1.disk[x], z[i] % BSIZE, piece)]),
                     z[i := z[i] + |piece|], i, piece)
  {
    hide Built;
    hide Exact;
    hide BytesWritten;
    hide SameBytes;
    hide NBlocks;
    hide Missing;
    hide Needed;
    ExactSizes(g, z, s.data, s.inds);
    PatchImage(g, s1, i, z[i], piece);
    var disk1 := s1.disk[x := Patched(s1.disk[x], z[i] % BSIZE, piece)];
    MissingAtEnd(g, s, z, i);
    NBlocksStep(z[i], |piece|);
    BytesNone(s.disk, s.data, s1.disk, s1.data, i, z[i]);
    BytesAppend(s.disk, s.data, s1.disk, s1.data, disk1, s1.data, i, z[i], [], piece);
    assert [] + piece == piece;
    ExactStep(g, z, s.data, s.inds, i, |piece|, s1.data, s1.inds, x);
  }

  lemma ExactSizes(g: Layout, sizes: seq<nat>, data: map<nat, nat>, inds: map<nat, nat>)
    requires Exact(g, sizes, data, inds)
    ensures |sizes| == g.ninodes && forall i | 0 <= i < |sizes| :: sizes[i] <= MAXFILE * BSIZE
  {
  }
}
