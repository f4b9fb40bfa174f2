/** mkfs/mkfs.c: building the initial file system.

  `addrs`, `sizes` and `types` are the inodes in the image's inode blocks; the other blocks are `disk`.
 */
module Mkfs {
  import opened FsBlock
  import opened FsState
  import opened FsMap
  import opened FsWrite
  import opened MkfsState
  import opened MkfsFiles
  import opened FileSystem

  lemma RowUpdate(addrs: seq<seq<nat>>, i: nat, row: seq<nat>, k: nat, b: nat)
    requires i < |addrs| && k < |row|
    ensures SetAddr(addrs[i := row], i, k, b) == addrs[i := row[k := b]]
  {
  }

  lemma EmptyRow(g: Layout, s: Img, z: seq<nat>, i: nat)
    requires Built(g, s) && Exact(g, z, s.data, s.inds) && i < g.ninodes && i < |z| && z[i] == 0
    ensures i < |s.addrs| && s.addrs[i] == seq(NDIRECT + 1, _ => 0)
  {
    hide Built;
    ImageMap(g, s, i, 0);
    forall k | 0 <= k < NDIRECT
      ensures s.addrs[i][k] == 0
    {
      ImageMap(g, s, i, k);
    }
  }

  /** The blank image. */
  lemma Blank(g: Layout, s: Img, z: seq<nat>)
    requires Sized(g, s.disk) && (forall b | 0 <= b < g.size :: s.disk[b] == Zeroed())
    requires s.addrs == seq(g.ninodes, _ => seq(NDIRECT + 1, _ => 0)) && z == seq(g.ninodes, _ => 0)
    requires s.fb == g.nmeta && s.data == map[] && s.inds == map[]
    ensures Built(g, s) && Exact(g, z, s.data, s.inds) && ZeroTails(s, z)
  {
    assert forall i, k | 0 <= i < g.ninodes && 0 <= k < NDIRECT + 1 :: Direct(s.addrs, i, k) == 0;
  }

  lemma MoreRoom(g: Layout, fb0: nat, fb: nat, size: nat, k: nat, m: nat, n: nat)
    requires k + m <= n && fb + NBlocks(size) == fb0 + NBlocks(size + k)
    requires Room(g, fb0, size, n)
    ensures Room(g, fb, size + k, m)
  {
    NBlocksMonotone(size + k + m, size + n);
  }

  lemma RoomUsed(g: Layout, fb0: nat, s: Img, size: nat, n: nat)
    requires Built(g, s) && s.fb + NBlocks(size) == fb0 + NBlocks(size + n) && size + n <= MAXFILE * BSIZE
    ensures Room(g, fb0, size, n)
  {
    hide NBlocks;
  }

  lemma RootFits(g: Layout, files: seq<File>)
    ensures NBlocks(0) == 0 && NBlocks(DIRENT) == NBlocks(2 * DIRENT) == 1
    ensures Fits(g, files) ==> g.nmeta + 1 <= g.size
  {
    NBlocksMonotone(2 * DIRENT, DIRENT * (2 + |files|));
  }

  lemma NBlocksNone()
    ensures NBlocks(0) == 0
  {
  }

  lemma HoldsNone(g: Layout, s0: Img, z0: seq<nat>, s: Img, z: seq<nat>, files: seq<File>)
    requires 2 <= |z0| == |z| && z0[ROOTINO] == 0
    requires Appended(g, s0, z0, s, z, ROOTINO, Dirent(ROOTINO, [46]) + Dirent(ROOTINO, [46, 46]))
    ensures Holds(s, z, files, 0)
  {
    hide Appended;
    hide Dirent;
    var e := Dirent(ROOTINO, [46]) + Dirent(ROOTINO, [46, 46]);
    AppendedContents(g, s0, z0, s, z, ROOTINO, e);
    assert Contents(s0.disk, s0.data, ROOTINO, 0) == [];
    assert [] + e == e;
    assert files[..0] == [];
  }

  lemma HoldsRoot(s: Img, z: seq<nat>, files: seq<File>, k: nat)
    requires Holds(s, z, files, k)
    ensures k + 2 <= |z| && z[ROOTINO] == DIRENT * (2 + k)
    ensures Contents(s.disk, s.data, ROOTINO, z[ROOTINO]) == Entries(files[..k])
    ensures forall j | 0 <= j < k :: HasFile(s, z, j + 2, files[j])
  {
    assert |Contents(s.disk, s.data, ROOTINO, z[ROOTINO])| == z[ROOTINO];
  }

  lemma NoRoomRoot(g: Layout, files: seq<File>, k: nat, fb: nat)
    requires k < |files| && fb == g.nmeta + NBlocks(DIRENT * (2 + k)) + Sum(files[..k])
    requires !Room(g, fb, DIRENT * (2 + k), DIRENT)
    ensures !Fits(g, files)
  {
    if DIRENT * (2 + k) + DIRENT <= MAXFILE * BSIZE {
      NBlocksNone();
      hide NBlocks;
      NoRoom(g, files, k, k + 1, 0);
    }
  }

  lemma NoRoomFile(g: Layout, files: seq<File>, k: nat, fb: nat)
    requires k < |files| && fb == g.nmeta + NBlocks(DIRENT * (3 + k)) + Sum(files[..k])
    requires !Room(g, fb, 0, |files[k].content|)
    ensures !Fits(g, files)
  {
    NBlocksNone();
    hide NBlocks;
    if |files[k].content| <= MAXFILE * BSIZE {
      NoRoom(g, files, k, k + 1, |files[k].content|);
    } else {
      assert !GoodFile(files[k]);
    }
  }

  lemma FitsNow(g: Layout, s: Img, z: seq<nat>, files: seq<File>)
    requires Built(g, s) && Exact(g, z, s.data, s.inds) && Holds(s, z, files, |files|) && ROOTINO < g.ninodes
    requires forall k | 0 <= k < |files| :: GoodFile(files[k])
    requires s.fb == g.nmeta + Total(files)
    ensures Fits(g, files) <==> s.fb < BPB
  {
    HoldsRoot(s, z, files, |files|);
  }

  /** The files as the kernel will find them. */
  ghost predicate Listed(s: Img, z: seq<nat>, types: seq<nat>, files: seq<File>)
  {
    && |types| == |z| && |files| + 2 <= |z|
    && types[ROOTINO] == T_DIR && z[ROOTINO] == Rounded(|Entries(files)|)
    && Contents(s.disk, s.data, ROOTINO, z[ROOTINO]) == Entries(files) + seq(z[ROOTINO] - |Entries(files)|, _ => 0)
    && forall k | 0 <= k < |files| :: types[k + 2] == T_FILE && HasFile(s, z, k + 2, files[k])
  }

  lemma StageEnd(g: Layout, s: Img, z: seq<nat>, types: seq<nat>, fi: nat, files: seq<File>)
    requires Built(g, s) && Exact(g, z, s.data, s.inds) && Holds(s, z, files, |files|)
    requires Numbered(g, types, z, fi) && fi == |files| + 2
    requires forall k | 0 <= k < |files| :: GoodFile(files[k])
    requires s.fb == g.nmeta + NBlocks(DIRENT * (2 + |files|)) + Sum(files[..|files|])
    ensures s.fb == g.nmeta + Total(files) && (Fits(g, files) <==> s.fb < BPB)
    ensures z[ROOTINO] == |Entries(files)|
    ensures FilesOk(g, z[ROOTINO := Rounded(z[ROOTINO])], types, s.data, s.inds) <==> |Entries(files)| % BSIZE != 0
  {
    assert files[..|files|] == files;
    hide Built;
    hide Exact;
    hide FilesOk;
    hide Fits;
    hide Entries;
    hide GoodFile;
    HoldsRoot(s, z, files, |files|);
    FitsNow(g, s, z, files);
    RootRounding(g, z, types, s.data, s.inds, fi);
  }

  lemma ListedEnd(g: Layout, s: Img, z: seq<nat>, types: seq<nat>, fi: nat, files: seq<File>, disk: seq<Block>)
    requires Holds(s, z, files, |files|) && ZeroTails(s, z) && Numbered(g, types, z, fi) && fi == |files| + 2
    requires SameBytes(s.disk, s.data, disk, s.data)
    ensures Listed(s.(disk := disk), z[ROOTINO := Rounded(z[ROOTINO])], types, files)
  {
    hide SameBytes;
    hide ZeroTails;
    hide Contents;
    assert files[..|files|] == files;
    HoldsRoot(s, z, files, |files|);
    hide Entries;
    hide Holds;
    RootContents(s, z, Entries(files), Rounded(z[ROOTINO]));
    KeepsFiles(s, z, disk, z[ROOTINO := Rounded(z[ROOTINO])], files);
  }

  /** The last two writes, of the root's size and of the bitmap, leave the files as they were. */
  lemma KeepsFiles(s: Img, z: seq<nat>, disk: seq<Block>, z1: seq<nat>, files: seq<File>)
    requires SameBytes(s.disk, s.data, disk, s.data) && |z1| == |z|
    requires forall j | 0 <= j < |z| && j != ROOTINO :: z1[j] == z[j]
    requires forall k | 0 <= k < |files| :: HasFile(s, z, k + 2, files[k])
    ensures forall k | 0 <= k < |files| :: HasFile(s.(disk := disk), z1, k + 2, files[k])
    ensures forall n: nat :: Contents(disk, s.data, ROOTINO, n) == Contents(s.disk, s.data, ROOTINO, n)
  {
    hide Byte;
    forall k | 0 <= k < |files|
      ensures HasFile(s.(disk := disk), z1, k + 2, files[k])
    {
      assert HasFile(s, z, k + 2, files[k]);
      SameContents(s.disk, s.data, disk, k + 2, z[k + 2]);
    }
    forall n: nat
      ensures Contents(disk, s.data, ROOTINO, n) == Contents(s.disk, s.data, ROOTINO, n)
    {
      SameContents(s.disk, s.data, disk, ROOTINO, n);
    }
  }

  lemma SameContents(d0: seq<Block>, m: map<nat, nat>, d: seq<Block>, i: nat, n: nat)
    requires SameBytes(d0, m, d, m)
    ensures Contents(d, m, i, n) == Contents(d0, m, i, n)
  {
    hide Byte;
    var c, c0 := Contents(d, m, i, n), Contents(d0, m, i, n);
    assert forall p | 0 <= p < n :: Byte(d, m, i, p) == Byte(d0, m, i, p);
    assert forall p | 0 <= p < n :: c[p] == c0[p];
  }

  class Image {
    const g: Layout
    var disk: seq<Block>
    var addrs: seq<seq<nat>>
    var sizes: seq<nat>
    var types: seq<nat>
    var freeinode: nat
    var freeblock: nat
    ghost var data: map<nat, nat>
    ghost var inds: map<nat, nat>

    ghost function State(): Img
      reads this
    {
      Img(disk, addrs, freeblock, data, inds)
    }

    /** The state once `row` is written back as the addresses of `inum`. */
    ghost function With(inum: nat, row: seq<nat>): Img
      requires inum < |addrs|
      reads this
    {
      Img(disk, addrs[inum := row], freeblock, data, inds)
    }

    /** The block for `fbn` in iappend(), handed out from freeblock if the file has none.  Reading a
        block past the end of the image fails, and mkfs gives up. */
    method MapBlock(inum: nat, row: seq<nat>, fbn: nat) returns (ok: bool, row1: seq<nat>, x: nat)
      requires |addrs| == g.ninodes && inum < g.ninodes && fbn < MAXFILE && Built(g, With(inum, row))
      modifies `disk, `freeblock, `data, `inds
      ensures ok <==> old(freeblock) + Missing(old(With(inum, row)), inum, fbn) <= g.size
      ensures ok ==> MappedIn(g, old(With(inum, row)), With(inum, row1), inum, fbn, x)
    {
      hide Built;
      hide SameBytes;
      ImageMap(g, With(inum, row), inum, fbn);
      SameBytesAsSelf(disk, data);
      row1 := row;
      if fbn < NDIRECT {
        if row1[fbn] == 0 {
          RowUpdate(addrs, inum, row, fbn, freeblock);
          if freeblock < g.size {
            TakeDirect(g, With(inum, row), inum, fbn);
          }
          row1 := row1[fbn := freeblock];
          data := data[Key(inum, fbn) := freeblock];
          freeblock := freeblock + 1;
        }
        x := row1[fbn];
      } else {
        if row1[NDIRECT] == 0 {
          RowUpdate(addrs, inum, row, NDIRECT, freeblock);
          if freeblock < g.size {
            TakeInd(g, With(inum, row), inum);
          }
          row1 := row1[NDIRECT := freeblock];
          inds := inds[inum := freeblock];
          freeblock := freeblock + 1;
        }
        if |disk| <= row1[NDIRECT] {
          return false, row1, 0;
        }
        ImageMap(g, With(inum, row1), inum, fbn);
        var indirect := disk[row1[NDIRECT]];
        x := Entry(indirect, fbn);
        if x == 0 {
          if freeblock < g.size {
            TakeEntry(g, With(inum, row1), inum, fbn);
          }
          x := freeblock;
          disk := disk[row1[NDIRECT] := PutWord(indirect, fbn - NDIRECT, x)];
          data := data[Key(inum, fbn) := x];
          freeblock := freeblock + 1;
        }
      }
      ok := x < |disk|;
    }

    /** One turn of the loop of iappend(): as much of `p` as goes into the block at the end of the file. */
    method AppendBlock(inum: nat, row: seq<nat>, off: nat, p: seq<nat>, ghost z: seq<nat>)
      returns (ok: bool, row1: seq<nat>, n1: nat)
      requires |addrs| == g.ninodes && inum < g.ninodes && inum < |z| && z[inum] == off
      requires Built(g, With(inum, row)) && Exact(g, z, data, inds) && off / BSIZE < MAXFILE && 0 < |p|
      modifies `disk, `freeblock, `data, `inds
      ensures ok <==> old(freeblock) + NBlocks(off + 1) - NBlocks(off) <= g.size
      ensures ok ==> 0 < n1 <= |p|
      ensures ok ==> Appended(g, old(With(inum, row)), z, With(inum, row1), z[inum := off + n1], inum, p[..n1])
    {
      hide Built;
      hide Exact;
      hide Appended;
      hide MappedIn;
      hide NBlocks;
      hide Missing;
      hide Needed;
      MissingAtEnd(g, With(inum, row), z, inum);
      NBlocksStep(off, 1);
      ghost var s := With(inum, row);
      var fbn := off / BSIZE;
      var x;
      ok, row1, x := MapBlock(inum, row, fbn);
      n1 := if |p| < (fbn + 1) * BSIZE - off then |p| else (fbn + 1) * BSIZE - off;
      if ok {
        AppendPiece(g, s, z, With(inum, row1), inum, x, p[..n1]);
        disk := disk[x := Patched(disk[x], off - fbn * BSIZE, p[..n1])];
      }
    }

    /** iappend(): the bytes `p` are added at the end of the file; it succeeds exactly when they fit. */
    method Iappend(inum: nat, p: seq<nat>) returns (ok: bool)
      requires Built(g, State()) && Exact(g, sizes, data, inds) && inum < g.ninodes && inum < |sizes|
      modifies `disk, `addrs, `sizes, `freeblock, `data, `inds
      ensures ok <==> Room(g, old(freeblock), old(sizes)[inum], |p|)
      ensures ok ==> Appended(g, old(State()), old(sizes), State(), sizes, inum, p)
    {
      hide Built;
      hide Exact;
      hide Appended;
      ImageMap(g, State(), inum, 0);
      ExactSizes(g, sizes, data, inds);
      var row := addrs[inum];
      var off := sizes[inum];
      var k := 0;
      assert addrs[inum := row] == addrs && sizes[inum := off] == sizes;
      AppendedNothing(g, State(), sizes, inum);
      while k < |p|
        invariant 0 <= k <= |p| && off == old(sizes)[inum] + k
        invariant addrs == old(addrs) && sizes == old(sizes)
        invariant Appended(g, old(State()), sizes, With(inum, row), sizes[inum := off], inum, p[..k])
      {
        ghost var s, z := With(inum, row), sizes[inum := off];
        AppendedFacts(g, old(State()), sizes, s, z, inum, p[..k]);
        if MAXFILE <= off / BSIZE {
          return false;
        }
        NBlocksMonotone(off + 1, sizes[inum] + |p|);
        hide NBlocks;
        var row1, n1;
        ok, row1, n1 := AppendBlock(inum, row, off, p[k..], z);
        if !ok {
          return false;
        }
        row := row1;
        AppendedMore(g, old(State()), sizes, s, z, With(inum, row), z[inum := off + n1], inum, p[..k], p[k..][..n1]);
        assert p[..k] + p[k..][..n1] == p[..k + n1];
        off := off + n1;
        k := k + n1;
        assert z[inum := off] == sizes[inum := off];
      }
      assert p[..k] == p;
      AppendedFacts(g, old(State()), sizes, With(inum, row), sizes[inum := off], inum, p);
      ImageMap(g, With(inum, row), inum, 0);
      sizes := sizes[inum := off];
      addrs := addrs[inum := row];
      ok := true;
    }

    ghost predicate Ready()
      reads this
    {
      && Built(g, State()) && Exact(g, sizes, data, inds)
      && Numbered(g, types, sizes, freeinode) && ZeroTails(State(), sizes)
    }

    /** The start of main(): the layout, and an image of zeros. */
    constructor (fssize: nat, ninodes: nat, nlog: nat)
      requires LayoutOk(MakeLayout(fssize, ninodes, nlog)) && 0 < ninodes
      ensures g == MakeLayout(fssize, ninodes, nlog)
      ensures Ready() && freeinode == ROOTINO && freeblock == g.nmeta
    {
      g := MakeLayout(fssize, ninodes, nlog);
      disk, addrs := [], seq(ninodes, _ => seq(NDIRECT + 1, _ => 0));
      sizes, types := seq(ninodes, _ => 0), seq(ninodes, _ => 0);
      freeinode, freeblock := ROOTINO, MakeLayout(fssize, ninodes, nlog).nmeta;
      data, inds := map[], map[];
      new;
      hide LayoutOk;
      var i := 0;
      while i < fssize
        invariant 0 <= i <= fssize && |disk| == i && forall b | 0 <= b < i :: disk[b] == Zeroed()
        invariant addrs == seq(ninodes, _ => seq(NDIRECT + 1, _ => 0)) && sizes == types == seq(ninodes, _ => 0)
        invariant freeinode == ROOTINO && freeblock == g.nmeta && data == map[] && inds == map[]
      {
        disk := disk + [Zeroed()];
        i := i + 1;
      }
      Blank(g, State(), sizes);
    }

    /** ialloc(): the next inode, written as an empty file. */
    method Ialloc(t: nat) returns (inum: nat)
      requires Ready() && freeinode < g.ninodes
      modifies `addrs, `sizes, `types, `freeinode
      ensures inum == old(freeinode) && freeinode == inum + 1
      ensures addrs == old(addrs) && sizes == old(sizes) && types == old(types)[inum := t]
    {
      hide Built;
      hide Exact;
      hide ZeroTails;
      EmptyRow(g, State(), sizes, freeinode);
      inum := freeinode;
      freeinode := freeinode + 1;
      addrs := addrs[inum := seq(NDIRECT + 1, _ => 0)];
      sizes := sizes[inum := 0];
      types := types[inum := t];
    }

    /** main()'s loop over a file: read a block, append it. */
    method AppendAll(inum: nat, content: seq<nat>) returns (ok: bool)
      requires Built(g, State()) && Exact(g, sizes, data, inds) && inum < g.ninodes && inum < |sizes|
      modifies `disk, `addrs, `sizes, `freeblock, `data, `inds
      ensures ok <==> Room(g, old(freeblock), old(sizes)[inum], |content|)
      ensures ok ==> Appended(g, old(State()), old(sizes), State(), sizes, inum, content)
    {
      hide Built;
      hide Exact;
      hide Appended;
      hide Room;
      hide NBlocks;
      var k := 0;
      AppendedNothing(g, State(), sizes, inum);
      while k < |content|
        invariant 0 <= k <= |content|
        invariant Appended(g, old(State()), old(sizes), State(), sizes, inum, content[..k])
      {
        AppendedFacts(g, old(State()), old(sizes), State(), sizes, inum, content[..k]);
        var cc := if |content| - k < BSIZE then |content| - k else BSIZE;
        ghost var s, z := State(), sizes;
        ok := Iappend(inum, content[k..k + cc]);
        if !ok {
          if Room(g, old(freeblock), old(sizes)[inum], |content|) {
            MoreRoom(g, old(freeblock), s.fb, old(sizes)[inum], k, cc, |content|);
          }
          return false;
        }
        AppendedMore(g, old(State()), old(sizes), s, z, State(), sizes, inum, content[..k], content[k..k + cc]);
        assert content[..k] + content[k..k + cc] == content[..k + cc];
        k := k + cc;
      }
      assert content[..k] == content;
      AppendedFacts(g, old(State()), old(sizes), State(), sizes, inum, content);
      RoomUsed(g, old(freeblock), State(), old(sizes)[inum], |content|);
      ok := true;
    }

    /** balloc(): the bitmap block for the blocks below `freeblock`. */
    method Balloc() returns (ok: bool)
      requires Built(g, State())
      modifies `disk
      ensures ok <==> freeblock < BPB
      ensures ok ==> FsOk(g, disk, addrs, Below(freeblock), data, inds)
      ensures ok ==> SameBytes(old(disk), old(data), disk, data)
    {
      hide Built;
      hide FsOk;
      hide SameBytes;
      if BPB <= freeblock {
        return false;
      }
      var buf := Zeroed();
      forall b | 0 <= b < BPB
        ensures !BitAt(buf, b)
      {
        ZeroBlockBits(b);
      }
      var i := 0;
      while i < freeblock
        invariant 0 <= i <= freeblock && |buf| == BSIZE
        invariant forall b | 0 <= b < BPB :: BitAt(buf, b) <==> b < i
      {
        forall b | 0 <= b < BPB
          ensures BitAt(SetBit(buf, i), b) <==> b < i + 1
        {
          BitUpdate(buf, i, b);
        }
        buf := SetBit(buf, i);
        i := i + 1;
      }
      BitmapWritten(g, State(), buf);
      disk := disk[g.bmapstart := buf];
      ok := true;
    }

    /** After `k` of `files`. */
    ghost predicate Stage(files: seq<File>, k: nat)
      reads this
    {
      && Ready() && freeinode == k + 2 && Holds(State(), sizes, files, k)
      && freeblock == g.nmeta + NBlocks(DIRENT * (2 + k)) + Sum(files[..k])
    }

    /** main() up to its loop: the root directory with "." and "..". */
    method MakeRoot(files: seq<File>) returns (ok: bool)
      requires Ready() && freeinode == ROOTINO && freeblock == g.nmeta && 2 <= g.ninodes
      modifies this
      ensures ok ==> Stage(files, 0)
      ensures !ok ==> !Fits(g, files)
    {
      hide Built;
      hide Exact;
      hide ZeroTails;
      hide Appended;
      hide Holds;
      hide Dirent;
      hide Fits;
      var inum := Ialloc(T_DIR);
      ghost var s, z := State(), sizes;
      RootFits(g, files);
      ok := Iappend(inum, Dirent(inum, [46]));
      if !ok {
        return;
      }
      ghost var s1, z1 := State(), sizes;
      AppendedFacts(g, s, z, s1, z1, inum, Dirent(inum, [46]));
      ok := Iappend(inum, Dirent(inum, [46, 46]));
      if !ok {
        return;
      }
      AppendedMore(g, s, z, s1, z1, State(), sizes, inum, Dirent(inum, [46]), Dirent(inum, [46, 46]));
      AppendedFacts(g, s, z, State(), sizes, inum, Dirent(inum, [46]) + Dirent(inum, [46, 46]));
      AppendedTails(g, s, z, State(), sizes, inum, Dirent(inum, [46]) + Dirent(inum, [46, 46]));
      HoldsNone(g, s, z, State(), sizes, files);
    }

    /** One turn of main()'s loop. */
    method AddFile(files: seq<File>, k: nat) returns (ok: bool)
      requires k < |files| && k + 3 <= g.ninodes && Stage(files, k)
      modifies this
      ensures ok ==> Stage(files, k + 1) && GoodFile(files[k])
      ensures !ok ==> !Fits(g, files)
    {
      hide Built;
      hide Exact;
      hide ZeroTails;
      hide Appended;
      hide Holds;
      hide Dirent;
      hide ShortName;
      hide BaseName;
      hide NBlocks;
      hide Sum;
      var f := files[k];
      if 47 in BaseName(f.arg) {
        return false;
      }
      hide Fits;
      var inum := Ialloc(T_FILE);
      ghost var s, z := State(), sizes;
      HoldsRoot(s, z, files, k);
      var de := Dirent(inum, ShortName(f.arg));
      ok := Iappend(ROOTINO, de);
      if !ok {
        NoRoomRoot(g, files, k, s.fb);
        return;
      }
      ghost var s1, z1 := State(), sizes;
      AppendedFacts(g, s, z, s1, z1, ROOTINO, de);
      ok := AppendAll(inum, f.content);
      if !ok {
        NoRoomFile(g, files, k, s1.fb);
        return;
      }
      AppendedFacts(g, s1, z1, State(), sizes, inum, f.content);
      AppendedTails(g, s, z, s1, z1, ROOTINO, de);
      AppendedTails(g, s1, z1, State(), sizes, inum, f.content);
      HoldsMore(g, s, z, s1, z1, State(), sizes, files, k);
      OneMore(files, k);
      NBlocksNone();
    }

    /** main()'s loop. */
    method AddFiles(files: seq<File>) returns (ok: bool)
      requires Ready() && freeinode == ROOTINO && freeblock == g.nmeta && |files| + 2 <= g.ninodes
      modifies this
      ensures ok ==> Stage(files, |files|) && forall k | 0 <= k < |files| :: GoodFile(files[k])
      ensures !ok ==> !Fits(g, files)
    {
      hide Ready;
      hide Holds;
      hide Fits;
      hide NBlocks;
      hide Sum;
      hide GoodFile;
      ok := MakeRoot(files);
      if !ok {
        return;
      }
      var k := 0;
      while k < |files|
        invariant 0 <= k <= |files| && Stage(files, k)
        invariant forall j | 0 <= j < k :: GoodFile(files[j])
      {
        ok := AddFile(files, k);
        if !ok {
          return;
        }
        k := k + 1;
      }
      ok := true;
    }

    /** main(): the image holds the files, every block up to `freeblock` has its one place, and mkfs succeeds
        exactly when everything fits.  The root directory has a hole exactly when its entries fill whole blocks. */
    method Make(files: seq<File>) returns (ok: bool)
      requires Ready() && freeinode == ROOTINO && freeblock == g.nmeta && |files| + 2 <= g.ninodes
      modifies this
      ensures ok <==> Fits(g, files)
      ensures ok ==> FsOk(g, disk, addrs, Below(freeblock), data, inds) && freeblock == g.nmeta + Total(files)
      ensures ok ==> Listed(State(), sizes, types, files)
      ensures ok ==> (FilesOk(g, sizes, types, data, inds) <==> |Entries(files)| % BSIZE != 0)
    {
      hide Ready;
      hide Fits;
      hide Listed;
      hide FsOk;
      hide Entries;
      hide Total;
      hide GoodFile;
      hide Holds;
      ok := AddFiles(files);
      if !ok {
        return;
      }
      ReadyFacts();
      ghost var s, z := State(), sizes;
      StageEnd(g, s, z, types, freeinode, files);
      var off := sizes[ROOTINO];
      sizes := sizes[ROOTINO := Rounded(off)];
      ok := Balloc();
      if ok {
        ListedEnd(g, s, z, types, freeinode, files, disk);
      }
    }

    lemma ReadyFacts()
      requires Ready()
      ensures Built(g, State()) && Exact(g, sizes, data, inds)
      ensures Numbered(g, types, sizes, freeinode) && ZeroTails(State(), sizes) && |sizes| == g.ninodes
    {
    }
  }

  lemma {:induction false} EmptyFiles(files: seq<File>)
    requires forall k | 0 <= k < |files| :: files[k].content == []
    ensures Sum(files) == 0
  {
    if files != [] {
      NBlocksNone();
      EmptyFiles(files[..|files| - 1]);
    }
  }

  /** 62 empty files fit, and their directory fills one block. */
  lemma FullDirectory(files: seq<File>)
    requires files == seq(62, _ => File([], []))
    ensures Fits(MakeLayout(2000, 200, 30), files) && |Entries(files)| == BSIZE
    ensures LayoutOk(MakeLayout(2000, 200, 30))
  {
    EmptyFiles(files);
    hide Sum;
    hide Entries;
  }

  /** An image that fails the invariant: with 62 files the root has 64 entries, which fill one block, and the block that
      its rounded size adds is not there. */
  method RootHole() returns (image: Image)
    ensures image.g == MakeLayout(2000, 200, 30)
    ensures FsOk(image.g, image.disk, image.addrs, Below(image.freeblock), image.data, image.inds)
    ensures ROOTINO < |image.sizes| && image.sizes[ROOTINO] == 2 * BSIZE
    ensures !FilesOk(image.g, image.sizes, image.types, image.data, image.inds)
  {
    hide Fits;
    hide FsOk;
    hide FilesOk;
    hide Entries;
    hide LayoutOk;
    var files := seq(62, _ => File([], []));
    FullDirectory(files);
    image := new Image(2000, 200, 30);
    var ok := image.Make(files);
  }
}
