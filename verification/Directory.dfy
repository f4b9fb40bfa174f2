/** Directories: dirlookup() of kernel/fs.c, and what it finds in the root directory that mkfs/mkfs.c makes. */
module Directory {
  import opened FsBlock
  import opened FsState
  import opened FsMap
  import opened FileSystem
  import opened MkfsFiles

  /** The byte at k of a C string, which ends with a zero. */
  function CharAt(s: seq<nat>, k: nat): (c: nat)
  {
    if k < |s| then s[k] else 0
  }

  /** The part of a name that counts: up to its first zero, and at most n bytes. */
  function Clip(s: seq<nat>, n: nat): (r: seq<nat>)
    decreases n
  {
    if n == 0 || CharAt(s, 0) == 0 then [] else [s[0]] + Clip(s[1..], n - 1)
  }

  /** namecmp(): zero exactly if the names agree as far as they count. */
  method Namecmp(s: seq<nat>, t: seq<nat>) returns (d: int)
    ensures d == 0 <==> Clip(s, DIRSIZ) == Clip(t, DIRSIZ)
  {
    var k := 0;
    Tail(s, 0);
    Tail(t, 0);
    while k < DIRSIZ && CharAt(s, k) != 0 && CharAt(s, k) == CharAt(t, k)
      invariant 0 <= k <= DIRSIZ && k <= |s| && k <= |t|
      invariant Clip(s, DIRSIZ) == Clip(t, DIRSIZ) <==> Clip(s[k..], DIRSIZ - k) == Clip(t[k..], DIRSIZ - k)
    {
      Tail(s, k);
      Tail(t, k);
      assert s[k..][1..] == s[k + 1..] && t[k..][1..] == t[k + 1..];
      SameHead(s[k], Clip(s[k + 1..], DIRSIZ - k - 1), Clip(t[k + 1..], DIRSIZ - k - 1));
      k := k + 1;
    }
    if k == DIRSIZ {
      return 0;
    }
    Tail(s, k);
    Tail(t, k);
    Ends(s[k..], t[k..], DIRSIZ - k);
    d := CharAt(s, k) - CharAt(t, k);
  }

  lemma Tail(s: seq<nat>, k: nat)
    requires k <= |s|
    ensures CharAt(s[k..], 0) == CharAt(s, k) && s[0..] == s
  {
  }

  lemma Ends(s: seq<nat>, t: seq<nat>, n: nat)
    requires n > 0 && (CharAt(s, 0) == 0 || CharAt(s, 0) != CharAt(t, 0))
    ensures Clip(s, n) == Clip(t, n) <==> CharAt(s, 0) == CharAt(t, 0)
  {
    var a, b := Clip(s, n), Clip(t, n);
    assert a != [] ==> a[0] == s[0];
    assert b != [] ==> b[0] == t[0];
  }

  lemma SameHead(c: nat, a: seq<nat>, b: seq<nat>)
    ensures [c] + a == [c] + b <==> a == b
  {
    if [c] + a == [c] + b {
      assert a == ([c] + a)[1..] && b == ([c] + b)[1..];
    }
  }

  /** Entry k of a directory: the inode number and the name. */
  function Inum(c: seq<nat>, k: nat): (n: nat)
    requires DIRENT * k + DIRENT <= |c|
  {
    c[DIRENT * k] + 256 * c[DIRENT * k + 1]
  }

  function Name(c: seq<nat>, k: nat): (r: seq<nat>)
    requires DIRENT * k + DIRENT <= |c|
    ensures |r| == DIRSIZ
  {
    c[DIRENT * k + 2..DIRENT * k + DIRENT]
  }

  /** Entry k is in use and has this name. */
  predicate Names(c: seq<nat>, k: nat, name: seq<nat>)
  {
    DIRENT * k + DIRENT <= |c| && Inum(c, k) != 0 && Clip(Name(c, k), DIRSIZ) == Clip(name, DIRSIZ)
  }

  /** Entry k is the first with this name. */
  ghost predicate First(c: seq<nat>, k: nat, name: seq<nat>)
  {
    Names(c, k, name) && forall j: nat | j < k :: !Names(c, j, name)
  }

  ghost predicate Absent(c: seq<nat>, name: seq<nat>)
  {
    forall j: nat :: !Names(c, j, name)
  }

  lemma Dirent16(c: seq<nat>, k: nat, de: seq<nat>)
    requires DIRENT * k + DIRENT <= |c| && de == c[DIRENT * k..DIRENT * k + DIRENT]
    ensures |de| == DIRENT && Inum(c, k) == de[0] + 256 * de[1] && Name(c, k) == de[2..]
  {
  }

  /** dirlookup(): the inode of the first entry with this name, and where it is; 0 if there is none.  It panics if this
      is no directory, or on a last entry that is cut short. */
  method Dirlookup(fs: FileSys, i: nat, name: seq<nat>) returns (panic: bool, inum: nat, off: nat)
    requires fs.Valid() && i < fs.g.ninodes
    modifies fs`disk, fs`addrs, fs`used, fs`data, fs`inds, fs`logged
    ensures fs.State() == old(fs.State())
    ensures var c := Contents(fs.disk, fs.data, i, fs.sizes[i]);
      if fs.types[i] != T_DIR then panic
      else if Absent(c, name) then (panic <==> |c| % DIRENT != 0) && inum == 0
      else !panic && off % DIRENT == 0 && First(c, off / DIRENT, name) && inum == Inum(c, off / DIRENT)
  {
    hide Clip;
    hide Inum;
    hide Name;
    hide FsOk;
    SizesFit(fs.g, fs.sizes, fs.types, fs.data, fs.inds, i);
    hide FilesOk;
    panic, inum, off := false, 0, 0;
    if fs.types[i] != T_DIR {
      return true, 0, 0;
    }
    ghost var c := Contents(fs.disk, fs.data, i, fs.sizes[i]);
    hide Contents;
    ghost var k := 0;
    while off < fs.sizes[i]
      invariant fs.State() == old(fs.State()) && off == DIRENT * k && k >= 0
      invariant off <= fs.sizes[i]
      invariant forall j: nat | j < k :: !Names(c, j, name)
    {
      var r, de := fs.Readi(i, off, DIRENT, DIRENT);
      if r != DIRENT {
        assert Absent(c, name);
        return true, 0, off;
      }
      Dirent16(c, k, de);
      var n := de[0] + 256 * de[1];
      if n != 0 {
        var d := Namecmp(name, de[2..]);
        if d == 0 {
          assert Names(c, k, name) && off / DIRENT == k;
          return false, n, off;
        }
      }
      off := off + DIRENT;
      k := k + 1;
    }
    assert Absent(c, name);
  }

  lemma SizesFit(g: Layout, sizes: seq<nat>, types: seq<nat>, data: map<nat, nat>, inds: map<nat, nat>, i: nat)
    requires FilesOk(g, sizes, types, data, inds) && i < g.ninodes
    ensures |sizes| == |types| == g.ninodes && sizes[i] <= MAXFILE * BSIZE
  {
  }

  // ---- the root directory of a new image ----

  lemma {:induction false} ClipField(s: seq<nat>, t: seq<nat>, n: nat)
    requires forall k | 0 <= k < n :: CharAt(s, k) == CharAt(t, k)
    ensures Clip(s, n) == Clip(t, n)
    decreases n
  {
    if n > 0 && CharAt(s, 0) != 0 {
      assert CharAt(t, 0) == CharAt(s, 0);
      forall k | 0 <= k < n - 1
        ensures CharAt(s[1..], k) == CharAt(t[1..], k)
      {
        assert CharAt(s, k + 1) == CharAt(t, k + 1);
      }
      ClipField(s[1..], t[1..], n - 1);
    }
  }

  /** The name in an entry counts as the name it was made from. */
  lemma FieldNames(name: seq<nat>)
    ensures Clip(NameField(name), DIRSIZ) == Clip(name, DIRSIZ)
  {
    ClipField(NameField(name), name, DIRSIZ);
  }

  /** The inode number and the name that entry k of the root was made from. */
  function RootEntry(files: seq<File>, k: nat): (e: (nat, seq<nat>))
    requires k < 2 + |files|
  {
    if k == 0 then (ROOTINO, [46]) else if k == 1 then (ROOTINO, [46, 46]) else (k, ShortName(files[k - 2].arg))
  }

  lemma {:induction false} EntryAt(files: seq<File>, k: nat)
    requires k < 2 + |files|
    ensures var e := RootEntry(files, k); Entries(files)[DIRENT * k..DIRENT * k + DIRENT] == Dirent(e.0, e.1)
    decreases |files|
  {
    hide Dirent;
    hide ShortName;
    if files == [] {
      var a, b := Dirent(ROOTINO, [46]), Dirent(ROOTINO, [46, 46]);
      assert (a + b)[..DIRENT] == a && (a + b)[DIRENT..2 * DIRENT] == b;
    } else {
      var n := |files| - 1;
      var front, last := Entries(files[..n]), Dirent(n + 2, ShortName(files[n].arg));
      if k < 2 + n {
        EntryAt(files[..n], k);
        assert (front + last)[DIRENT * k..DIRENT * k + DIRENT] == front[DIRENT * k..DIRENT * k + DIRENT];
      } else {
        assert (front + last)[DIRENT * k..DIRENT * k + DIRENT] == last;
      }
    }
  }

  /** What an entry of the root says. */
  lemma RootNames(files: seq<File>, pad: nat, k: nat, name: seq<nat>)
    requires k < 2 + |files| < 0x10000
    ensures var c := Entries(files) + seq(pad, _ => 0);
      && DIRENT * k + DIRENT <= |c| && Inum(c, k) == RootEntry(files, k).0
      && (Names(c, k, name) <==> Clip(RootEntry(files, k).1, DIRSIZ) == Clip(name, DIRSIZ))
  {
    hide Clip;
    hide NameField;
    var e, all := RootEntry(files, k), Entries(files);
    hide Entries;
    EntryAt(files, k);
    var c := all + seq(pad, _ => 0);
    assert c[DIRENT * k..DIRENT * k + DIRENT] == all[DIRENT * k..DIRENT * k + DIRENT];
    Dirent16(c, k, Dirent(e.0, e.1));
    FieldNames(e.1);
  }

  /** Looking up the name of a file in the root leads to its inode, if its first fourteen bytes differ from those of the
      names before it. */
  lemma RootLookup(files: seq<File>, pad: nat, k: nat)
    requires k < |files| && |files| + 2 < 0x10000
    ensures var c := Entries(files) + seq(pad, _ => 0);
      var name := ShortName(files[k].arg);
      First(c, k + 2, name)
      <==> forall j: nat | j < k + 2 :: Clip(RootEntry(files, j).1, DIRSIZ) != Clip(name, DIRSIZ)
    ensures var c := Entries(files) + seq(pad, _ => 0);
      DIRENT * (k + 2) + DIRENT <= |c| && Inum(c, k + 2) == k + 2
  {
    hide Clip;
    hide Entries;
    hide Inum;
    hide Names;
    hide ShortName;
    var c, name := Entries(files) + seq(pad, _ => 0), ShortName(files[k].arg);
    RootNames(files, pad, k + 2, name);
    forall j: nat | j < k + 2
      ensures Names(c, j, name) <==> Clip(RootEntry(files, j).1, DIRSIZ) == Clip(name, DIRSIZ)
    {
      RootNames(files, pad, j, name);
    }
  }
}
