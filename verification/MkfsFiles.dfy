/** What mkfs/mkfs.c puts into the image: the root directory and the files named on the command line. */
module MkfsFiles {
  import opened FsBlock
  import opened FsState
  import opened FsMap
  import opened FsWrite
  import opened MkfsState
  import opened FileSystem

  const ROOTINO: nat := 1
  const T_DIR: nat := 1
  const T_FILE: nat := 2
  const DIRSIZ: nat := 14
  const DIRENT: nat := 16  // sizeof(struct dirent)

  /** A file to copy: its name on the command line and its bytes. */
  datatype File = File(arg: seq<nat>, content: seq<nat>)

  /** The name without a leading "user/". */
  function BaseName(arg: seq<nat>): seq<nat>
  {
    if [117, 115, 101, 114, 47] <= arg then arg[5..] else arg
  }

  /** The name in the image: a leading '_' is dropped. */
  function ShortName(arg: seq<nat>): seq<nat>
  {
    if [95] <= BaseName(arg) then BaseName(arg)[1..] else BaseName(arg)
  }

  /** A program n is listed as n, whether it comes as n, _n or user/_n. */
  lemma ListedAs(n: seq<nat>)
    requires !([117, 115, 101, 114, 47] <= n) && !([95] <= n)
    ensures ShortName(n) == n && ShortName([95] + n) == n && ShortName([117, 115, 101, 114, 47, 95] + n) == n
  {
    var user := [117, 115, 101, 114, 47];
    assert ([95] + n)[0] == 95 && user[0] == 117;
    assert ([95] + n)[1..] == n;
    var full := [117, 115, 101, 114, 47, 95] + n;
    assert full[..5] == user && full[5..] == [95] + n;
  }

  /** strncpy() into a field of DIRSIZ zero bytes. */
  function NameField(name: seq<nat>): (r: seq<nat>)
    ensures |r| == DIRSIZ
  {
    if |name| <= DIRSIZ then name + seq(DIRSIZ - |name|, _ => 0) else name[..DIRSIZ]
  }

  function Dirent(inum: nat, name: seq<nat>): (r: seq<nat>)
    ensures |r| == DIRENT
  {
    [inum % 256, inum / 256 % 256] + NameField(name)
  }

  /** The root directory once `files` are in it; file k has inode k + 2. */
  function Entries(files: seq<File>): (r: seq<nat>)
    ensures |r| == DIRENT * (2 + |files|)
  {
    if files == [] then Dirent(ROOTINO, [46]) + Dirent(ROOTINO, [46, 46])
    else Entries(files[..|files| - 1]) + Dirent(|files| + 1, ShortName(files[|files| - 1].arg))
  }

  /** The data blocks of the files' contents. */
  function Sum(files: seq<File>): nat
  {
    if files == [] then 0 else Sum(files[..|files| - 1]) + NBlocks(|files[|files| - 1].content|)
  }

  function Total(files: seq<File>): nat
  {
    NBlocks(DIRENT * (2 + |files|)) + Sum(files)
  }

  predicate GoodFile(f: File)
  {
    47 !in BaseName(f.arg) && |f.content| <= MAXFILE * BSIZE
  }

  /** The image can be made: names without '/', no file too long, and enough blocks, within one bitmap block. */
  ghost predicate Fits(g: Layout, files: seq<File>)
  {
    && (forall k | 0 <= k < |files| :: GoodFile(files[k]))
    && DIRENT * (2 + |files|) <= MAXFILE * BSIZE
    && g.nmeta + Total(files) <= g.size
    && g.nmeta + Total(files) < BPB
  }

  lemma {:induction false} SumPrefix(files: seq<File>, k: nat)
    requires k <= |files|
    ensures Sum(files[..k]) <= Sum(files)
    decreases |files|
  {
    if k < |files| {
      var front := files[..|files| - 1];
      SumPrefix(front, k);
      assert front[..k] == files[..k];
    } else {
      assert files[..k] == files;
    }
  }

  /** What one more file adds. */
  lemma OneMore(files: seq<File>, k: nat)
    requires k < |files|
    ensures Sum(files[..k + 1]) == Sum(files[..k]) + NBlocks(|files[k].content|)
    ensures Entries(files[..k + 1]) == Entries(files[..k]) + Dirent(k + 2, ShortName(files[k].arg))
  {
    assert files[..k + 1][..k] == files[..k];
  }

  /** The files that do not fit make the whole image not fit. */
  lemma NoRoom(g: Layout, files: seq<File>, k: nat, root: nat, size: nat)
    requires k < |files| && root <= k + 1 && size <= |files[k].content|
    requires g.size < g.nmeta + NBlocks(DIRENT * (2 + root)) + Sum(files[..k]) + NBlocks(size)
    ensures !Fits(g, files)
  {
    NBlocksMonotone(DIRENT * (2 + root), DIRENT * (2 + |files|));
    NBlocksMonotone(size, |files[k].content|);
    SumPrefix(files, k + 1);
    OneMore(files, k);
  }

  // ---- the files of an image ----

  /** Nothing but zeros follows the end of a file. */
  ghost predicate ZeroTails(s: Img, z: seq<nat>)
  {
    forall j: nat, p: nat {:trigger Byte(s.disk, s.data, j, p)} | j < |z| && z[j] <= p ::
      Byte(s.disk, s.data, j, p) == 0
  }

  lemma AppendedTails(g: Layout, s0: Img, z0: seq<nat>, s: Img, z: seq<nat>, i: nat, p: seq<nat>)
    requires i < |z0| && Appended(g, s0, z0, s, z, i, p) && ZeroTails(s0, z0)
    ensures ZeroTails(s, z)
  {
    hide Built;
    hide Exact;
    hide Byte;
    hide NBlocks;
  }

  lemma AppendedContents(g: Layout, s0: Img, z0: seq<nat>, s: Img, z: seq<nat>, i: nat, p: seq<nat>)
    requires i < |z0| && Appended(g, s0, z0, s, z, i, p)
    ensures |z| == |z0|
    ensures Contents(s.disk, s.data, i, z[i]) == Contents(s0.disk, s0.data, i, z0[i]) + p
    ensures forall j | 0 <= j < |z0| && j != i ::
      z[j] == z0[j] && Contents(s.disk, s.data, j, z[j]) == Contents(s0.disk, s0.data, j, z0[j])
  {
    hide Built;
    hide Exact;
    hide NBlocks;
    hide BytesWritten;
    hide Contents;
    WrittenContents(s0.disk, s0.data, s.disk, s.data, i, z0[i], p, z0[i], z0[i] + |p|);
    hide Overwrite;
    OverwriteEnd(Contents(s0.disk, s0.data, i, z0[i]), p);
  }

  lemma OverwriteEnd(c: seq<nat>, p: seq<nat>)
    ensures Overwrite(c, |c|, p)[..|c| + |p|] == c + p
  {
  }

  /** The inodes in use are 1 to fi - 1: the root and then files. */
  ghost predicate Numbered(g: Layout, types: seq<nat>, z: seq<nat>, fi: nat)
  {
    && |types| == |z| == g.ninodes && 1 <= fi <= g.ninodes
    && (forall i | 0 <= i < g.ninodes ::
          types[i] == if i == 0 || fi <= i then 0 else if i == ROOTINO then T_DIR else T_FILE)
    && (forall i | 0 <= i < g.ninodes && (i == 0 || fi <= i) :: z[i] == 0)
  }

  /** The image holds the first `k` of `files` and a root directory that lists them. */
  ghost predicate Holds(s: Img, z: seq<nat>, files: seq<File>, k: nat)
  {
    && k <= |files| && k + 2 <= |z|
    && Contents(s.disk, s.data, ROOTINO, z[ROOTINO]) == Entries(files[..k])
    && forall j | 0 <= j < k :: HasFile(s, z, j + 2, files[j])
  }

  ghost predicate HasFile(s: Img, z: seq<nat>, i: nat, f: File)
  {
    i < |z| && Contents(s.disk, s.data, i, z[i]) == f.content
  }

  /** One turn of main()'s loop: a directory entry, then the contents. */
  lemma HoldsMore(g: Layout, s0: Img, z0: seq<nat>, s1: Img, z1: seq<nat>, s2: Img, z2: seq<nat>, files: seq<File>,
                  k: nat)
    requires Holds(s0, z0, files, k) && k < |files| && k + 2 < |z0| == |z1| && z0[k + 2] == 0
    requires Appended(g, s0, z0, s1, z1, ROOTINO, Dirent(k + 2, ShortName(files[k].arg)))
    requires Appended(g, s1, z1, s2, z2, k + 2, files[k].content)
    ensures Holds(s2, z2, files, k + 1)
    ensures z2 == z0[ROOTINO := z0[ROOTINO] + DIRENT][k + 2 := |files[k].content|]
    ensures z0[ROOTINO] == DIRENT * (2 + k)
  {
    hide Appended;
    hide Built;
    hide Exact;
    hide NBlocks;
    hide Entries;
    hide Dirent;
    hide ShortName;
    hide Contents;
    OneMore(files, k);
    var e, c := Dirent(k + 2, ShortName(files[k].arg)), files[k].content;
    AppendedFacts(g, s0, z0, s1, z1, ROOTINO, e);
    AppendedFacts(g, s1, z1, s2, z2, k + 2, c);
    AppendedContents(g, s0, z0, s1, z1, ROOTINO, e);
    AppendedContents(g, s1, z1, s2, z2, k + 2, c);
    assert |Contents(s0.disk, s0.data, ROOTINO, z0[ROOTINO])| == z0[ROOTINO];
    assert Contents(s1.disk, s1.data, k + 2, 0) == [];
    assert [] + c == c;
    forall j | 0 <= j < k + 1
      ensures HasFile(s2, z2, j + 2, files[j])
    {
      if j < k {
        assert HasFile(s0, z0, j + 2, files[j]);
      }
    }
  }

  // ---- the end of main() ----

  function Rounded(off: nat): nat
  {
    (off / BSIZE + 1) * BSIZE
  }

  /** Rounding up the root's size leaves the files without holes exactly when it was not a whole number of blocks. */
  lemma RootRounding(g: Layout, z: seq<nat>, types: seq<nat>, data: map<nat, nat>, inds: map<nat, nat>, fi: nat)
    requires Exact(g, z, data, inds) && Numbered(g, types, z, fi) && ROOTINO < fi
    ensures FilesOk(g, z[ROOTINO := Rounded(z[ROOTINO])], types, data, inds) <==> z[ROOTINO] % BSIZE != 0
  {
    var off := z[ROOTINO];
    var z' := z[ROOTINO := Rounded(off)];
    if off % BSIZE == 0 {
      assert off / BSIZE * BSIZE == off < Rounded(off);
      if off / BSIZE < MAXFILE {
        assert Key(ROOTINO, off / BSIZE) !in data;
      } else {
        assert z'[ROOTINO] > MAXFILE * BSIZE;
      }
    } else {
      assert off / BSIZE < MAXFILE;
      forall i, bn | 0 <= i < g.ninodes && 0 <= bn && bn * BSIZE < z'[i]
        ensures Key(i, bn) in data
      {
        assert bn < MAXFILE;
        assert bn * BSIZE < z[i];
      }
    }
  }

  /** The rounded directory is the entries followed by empty ones. */
  lemma RootContents(s: Img, z: seq<nat>, e: seq<nat>, size: nat)
    requires ZeroTails(s, z) && ROOTINO < |z| && z[ROOTINO] <= size
    requires Contents(s.disk, s.data, ROOTINO, z[ROOTINO]) == e
    ensures Contents(s.disk, s.data, ROOTINO, size) == e + seq(size - |e|, _ => 0)
  {
    hide Byte;
    var c := Contents(s.disk, s.data, ROOTINO, size);
    assert |e| == z[ROOTINO];
    forall p | 0 <= p < size
      ensures c[p] == (e + seq(size - |e|, _ => 0))[p]
    {
      assert c[p] == Byte(s.disk, s.data, ROOTINO, p);
      if p < |e| {
        assert e[p] == Byte(s.disk, s.data, ROOTINO, p);
      }
    }
  }

  lemma {:induction false} ZeroBits(k: nat)
    ensures !HasBit(0, k)
  {
    if k > 0 {
      ZeroBits(k - 1);
    }
  }

  lemma ZeroBlockBits(i: nat)
    requires i < BPB
    ensures !BitAt(Zeroed(), i)
  {
    ZeroBits(i % 8);
  }

  lemma FirstBitmapBlock(g: Layout, disk: seq<Block>, fb: nat, block: Block)
    requires Sized(g, disk) && g.nmeta <= fb <= g.size && fb < BPB && Untouched(g, disk, fb) && |block| == BSIZE
    requires forall b | 0 <= b < BPB :: BitAt(block, b) <==> b < fb
    ensures Sized(g, disk[g.bmapstart := block]) && Bitmap(g, disk[g.bmapstart := block], Below(fb))
  {
    hide BitAt;
    var disk1 := disk[g.bmapstart := block];
    forall b | 0 <= b < g.size
      ensures b in Below(fb) <==> Bit(g, disk1, b)
    {
      if BPB <= b {
        assert g.bmapstart < BBlock(g, b) < g.nmeta;
        ZeroBlockBits(b % BPB);
      }
    }
  }

  /** Writing the first bitmap block completes the image. */
  lemma BitmapWritten(g: Layout, s: Img, block: Block)
    requires Built(g, s) && s.fb < BPB && |block| == BSIZE
    requires forall b | 0 <= b < BPB :: BitAt(block, b) <==> b < s.fb
    ensures g.bmapstart < |s.disk|
    ensures FsOk(g, s.disk[g.bmapstart := block], s.addrs, Below(s.fb), s.data, s.inds)
    ensures SameBytes(s.disk, s.data, s.disk[g.bmapstart := block], s.data)
  {
    hide Own;
    hide Inodes;
    hide Bitmap;
    hide BitAt;
    hide SameBytes;
    hide Untouched;
    FirstBitmapBlock(g, s.disk, s.fb, block);
    var disk1 := s.disk[g.bmapstart := block];
    ImagePlaces(g, s);
    InodesFrame(g, s.disk, disk1, s.addrs, s.data, s.inds);
    AllocKeepsBytes(s.disk, disk1, s.data, s.data);
  }
}
