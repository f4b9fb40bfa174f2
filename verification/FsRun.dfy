/** Whole runs of the file system, starting from the image that mkfs makes: each operation acts on a table of
    files, and the blocks on the disk always spell out that table. */
module FsRun {
  import opened FsBlock
  import opened FsState
  import opened FsMap
  import opened FsWrite
  import opened FileSystem
  import opened MkfsState
  import opened MkfsFiles
  import opened Mkfs

  /** A file as its users see it; type 0 is a free inode. */
  datatype AFile = AFile(t: nat, bytes: seq<nat>)

  ghost function Files(disk: seq<Block>, data: map<nat, nat>, sizes: seq<nat>, types: seq<nat>): (a: seq<AFile>)
    requires |sizes| == |types|
    ensures |a| == |sizes|
    ensures forall i | 0 <= i < |a| :: a[i] == AFile(types[i], Contents(disk, data, i, sizes[i]))
  {
    seq(|sizes|, i requires 0 <= i < |sizes| => AFile(types[i], Contents(disk, data, i, sizes[i])))
  }

  /** The operations on inodes.  `src` is what copyin() can read of the `n` bytes to write, `room` what
      copyout() can store. */
  datatype Op =
    | Write(i: nat, src: seq<nat>, off: nat, n: nat)
    | Read(i: nat, off: nat, n: nat, room: nat)
    | Truncate(i: nat)
    | Release(i: nat)
    | Create(t: nat)

  predicate Callable(op: Op, ninodes: nat)
  {
    match op
    case Write(i, src, off, n) => i < ninodes && |src| <= n < UINT_LIMIT && off < UINT_LIMIT
    case Read(i, off, n, _) => i < ninodes && n < UINT_LIMIT && off < UINT_LIMIT
    case Truncate(i) => i < ninodes
    case Release(i) => i < ninodes
    case Create(t) => t != 0
  }

  /** What an operation that returned `r` and `out` does to the files; `full` says that the disk is full afterwards. */
  ghost predicate Effect(a: seq<AFile>, a1: seq<AFile>, op: Op, r: int, out: seq<nat>, full: bool)
    requires Callable(op, |a|)
  {
    match op
    case Write(i, src, off, n) =>
      if a[i].t == 0 || BadRange(|a[i].bytes|, off, n) then a1 == a && r == -1
      else exists w: nat :: Overwritten(a, a1, i, src, off, n, r, w, full)
    case Read(i, off, n, room) => a1 == a && ReadResult(a[i].bytes, off, n, room, r, out)
    case Truncate(i) => a1 == a[i := AFile(a[i].t, [])]
    case Release(i) => a1 == a[i := AFile(0, [])]
    case Create(t) =>
      if r == 0 then a1 == a && forall i | 1 <= i < |a| :: a[i].t != 0
      else
        && 1 <= r < |a| && a[r].t == 0 && (forall i | 1 <= i < r :: a[i].t != 0)
        && a1 == a[r := AFile(t, [])]
  }

  /** `w` of the source bytes reached the file, which now reaches to off + r if it was shorter: all of the readable
      ones, unless the disk is full. */
  ghost predicate Overwritten(a: seq<AFile>, a1: seq<AFile>, i: nat, src: seq<nat>, off: nat, n: nat, r: int, w: nat,
                              full: bool)
    requires i < |a|
  {
    && off <= |a[i].bytes| && 0 <= r <= w <= |src| && (|src| == n ==> r == w)
    && (AllWritten(|src|, n, r, w) || full)
    && Larger(|a[i].bytes|, off + r) <= |Overwrite(a[i].bytes, off, src[..w])|
    && a1 == a[i := AFile(a[i].t, Overwrite(a[i].bytes, off, src[..w])[..Larger(|a[i].bytes|, off + r)])]
  }

  lemma WriteEffect(g: Layout, d0: seq<Block>, m0: map<nat, nat>, z0: seq<nat>, d: seq<Block>, m: map<nat, nat>,
                    z: seq<nat>,
                    types: seq<nat>, i: nat, src: seq<nat>, off: nat, n: nat, r: nat, w: nat, full: bool)
    requires i < |z0| == |types| && r <= w <= |src| <= n && (|src| == n ==> r == w)
    requires AllWritten(|src|, n, r, w) || full
    requires FileWritten(d0, m0, z0, d, m, z, i, off, r, src[..w])
    ensures |z| == |z0| && Overwritten(Files(d0, m0, z0, types), Files(d, m, z, types), i, src, off, n, r, w, full)
  {
    hide Contents;
    var a, a1 := Files(d0, m0, z0, types), Files(d, m, z, types);
    hide Files;
    forall j | 0 <= j < |a| && j != i
      ensures a1[j] == a[j]
    {
      assert z[j] == z0[j];
    }
    assert a1 == a[i := a1[i]];
  }

  /** Emptying file `i`, and perhaps freeing its inode. */
  lemma EmptyEffect(d0: seq<Block>, m0: map<nat, nat>, z0: seq<nat>, t0: seq<nat>, d: seq<Block>, m: map<nat, nat>,
                    i: nat, t: nat)
    requires i < |z0| == |t0|
    requires forall j: nat, z: nat | j != i :: Contents(d, m, j, z) == Contents(d0, m0, j, z)
    ensures Files(d, m, z0[i := 0], t0[i := t]) == Files(d0, m0, z0, t0)[i := AFile(t, [])]
  {
    hide Contents;
    assert Contents(d, m, i, 0) == [];
  }

  class Session {
    const fs: FileSys

    constructor (fs: FileSys)
      ensures this.fs == fs
    {
      this.fs := fs;
    }

    ghost predicate Sound()
      reads fs
    {
      fs.Valid() && fs.Flushed()
    }

    ghost function Table(): (a: seq<AFile>)
      requires Sound()
      reads fs
      ensures |a| == fs.g.ninodes
    {
      Files(fs.disk, fs.data, fs.sizes, fs.types)
    }

    /** One operation. */
    method Do(op: Op) returns (r: int, out: seq<nat>)
      requires Sound() && Callable(op, fs.g.ninodes)
      modifies fs
      ensures Sound() && Effect(old(Table()), Table(), op, r, out, Full(fs.g, fs.used))
    {
      hide FsOk;
      hide FileWritten;
      hide Contents;
      hide Overwritten;
      hide ReadResult;
      hide BadRange;
      hide Full;
      hide AllWritten;
      r, out := -1, [];
      ghost var d0, m0, z0, t0 := fs.disk, fs.data, fs.sizes, fs.types;
      match op {
        case Write(i, src, off, n) =>
          if fs.types[i] != 0 {
            ghost var w;
            r, w := fs.Writei(i, src, off, n);
            if r != -1 {
              WriteEffect(fs.g, d0, m0, z0, fs.disk, fs.data, fs.sizes, fs.types, i, src, off, n, r, w,
                          Full(fs.g, fs.used));
            }
          }
        case Read(i, off, n, room) =>
          r, out := fs.Readi(i, off, n, room);
        case Truncate(i) =>
          fs.Itrunc(i);
          EmptyEffect(d0, m0, z0, t0, fs.disk, fs.data, i, t0[i]);
          assert t0[i := t0[i]] == t0;
        case Release(i) =>
          fs.FreeInode(i);
          EmptyEffect(d0, m0, z0, t0, fs.disk, fs.data, i, 0);
        case Create(t) =>
          r := fs.Ialloc(t);
          if r != 0 {
            EmptyEffect(d0, m0, z0, t0, fs.disk, fs.data, r, t);
            assert z0[r := 0] == z0;
          }
      }
    }

    /** A run: every step has its effect on the table of files, and after it a bitmap bit is set exactly for the
        metadata and the blocks that one slot of one inode names.  `used` are the blocks in use after each step. */
    method Run(ops: seq<Op>) returns (results: seq<(int, seq<nat>)>, ghost trace: seq<seq<AFile>>,
                                      ghost used: seq<set<nat>>)
      requires Sound() && forall op | op in ops :: Callable(op, fs.g.ninodes)
      modifies fs
      ensures Sound() && |results| == |ops| && |trace| == |used| == |ops| + 1
      ensures trace[0] == old(Table()) && trace[|ops|] == Table() && used[|ops|] == fs.used
      ensures forall k | 0 <= k < |trace| :: |trace[k]| == fs.g.ninodes
      ensures forall k | 0 <= k < |ops| ::
        Effect(trace[k], trace[k + 1], ops[k], results[k].0, results[k].1, Full(fs.g, used[k + 1]))
    {
      hide Effect;
      hide Files;
      hide Full;
      hide FsOk;
      hide FilesOk;
      results, trace, used := [], [Table()], [fs.used];
      var k := 0;
      while k < |ops|
        invariant 0 <= k <= |ops| && Sound() && |results| == k && |trace| == |used| == k + 1
        invariant trace[0] == old(Table()) && trace[k] == Table() && used[k] == fs.used
        invariant forall j | 0 <= j < |trace| :: |trace[j]| == fs.g.ninodes
        invariant forall j | 0 <= j < k ::
          Effect(trace[j], trace[j + 1], ops[j], results[j].0, results[j].1, Full(fs.g, used[j + 1]))
      {
        assert ops[k] in ops;
        var r, out := Do(ops[k]);
        results := results + [(r, out)];
        trace, used := trace + [Table()], used + [fs.used];
        k := k + 1;
      }
    }
  }

  /** The run starts from the image of mkfs, whose root directory has no hole. */
  method Boot(fssize: nat, ninodes: nat, nlog: nat, files: seq<File>) returns (ok: bool, s: Session?)
    requires LayoutOk(MakeLayout(fssize, ninodes, nlog)) && |files| + 2 <= ninodes && |Entries(files)| % BSIZE != 0
    ensures ok <==> Fits(MakeLayout(fssize, ninodes, nlog), files)
    ensures ok <==> s != null
    ensures ok ==> fresh(s) && fresh(s.fs) && s.Sound() && s.fs.g == MakeLayout(fssize, ninodes, nlog)
    ensures ok ==>
      |s.Table()| == ninodes && forall k | 0 <= k < |files| :: s.Table()[k + 2] == AFile(T_FILE, files[k].content)
  {
    hide FsOk;
    hide FilesOk;
    hide Fits;
    hide Entries;
    hide LayoutOk;
    var image := new Image(fssize, ninodes, nlog);
    ok := image.Make(files);
    s := null;
    if ok {
      var fs := new FileSys.Mount(image.g, image.disk, image.addrs, image.sizes, image.types,
                                  Below(image.freeblock), image.data, image.inds);
      s := new Session(fs);
      forall k | 0 <= k < |files|
        ensures s.Table()[k + 2] == AFile(T_FILE, files[k].content)
      {
        assert HasFile(image.State(), image.sizes, k + 2, files[k]);
      }
    }
  }
}
