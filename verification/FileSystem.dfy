/** The block allocator and file reading and writing of kernel/fs.c.

  `disk` is what bread() returns and log_write() records, `addrs`, `sizes` and `types` are the in-memory
  inodes and `dAddrs`, `dSizes`, `dTypes` the inodes on the disk, which iupdate() writes.  `logged`
  collects the blocks passed to log_write().
 */
module FileSystem {
  import opened FsBlock
  import opened FsState
  import opened FsMap
  import opened FsWrite
  import opened FsTrunc
  import opened FsLog

  /** The search of balloc(): the lowest block whose bit is clear, or 0. */
  method FindFree(g: Layout, disk: seq<Block>, ghost used: set<nat>) returns (r: nat)
    requires Sized(g, disk) && Bitmap(g, disk, used) && 0 in used
    ensures r == 0 ==> forall b | 0 <= b < g.size :: b in used
    ensures r != 0 ==> r < g.size && r !in used && forall b | 0 <= b < r :: b in used
  {
    hide Bitmap;
    hide Sized;
    var b := 0;
    while b < g.size
      invariant 0 <= b && b % BPB == 0
      invariant forall c | 0 <= c < b && c < g.size :: c in used
    {
      var bi := 0;
      while bi < BPB && b + bi < g.size
        invariant 0 <= bi <= BPB
        invariant forall c | 0 <= c < b + bi && c < g.size :: c in used
      {
        ScanBit(g, disk, used, b, bi);
        if !BitAt(disk[BBlock(g, b)], bi) {
          return b + bi;
        }
        bi := bi + 1;
      }
      b := b + BPB;
    }
    return 0;
  }

  /** Every block below a file's size is there; a free inode has no blocks. */
  ghost predicate FilesOk(g: Layout, sizes: seq<nat>, types: seq<nat>, data: map<nat, nat>, inds: map<nat, nat>)
  {
    && |sizes| == g.ninodes && |types| == g.ninodes
    && (forall i | 0 <= i < g.ninodes :: sizes[i] <= MAXFILE * BSIZE)
    && (forall i,
        bn {:trigger Key(i, bn)} | 0 <= i < g.ninodes && 0 <= bn && bn * BSIZE < sizes[i] :: Key(i, bn) in data)
    && (forall i | 0 <= i < g.ninodes && types[i] == 0 :: sizes[i] == 0 && i !in inds)
    && (forall i,
        bn {:trigger Key(i, bn)} | 0 <= i < g.ninodes && types[i] == 0 && 0 <= bn < MAXFILE :: Key(i, bn) !in data)
  }

  /** The file as a sequence of bytes. */
  ghost function Contents(disk: seq<Block>, data: map<nat, nat>, i: nat, size: nat): (c: seq<nat>)
    ensures |c| == size
  {
    seq(size, p requires 0 <= p < size => Byte(disk, data, i, p))
  }

  /** `c` with `src` written over it at `off`, extended if `src` reaches past its end. */
  function Overwrite(c: seq<nat>, off: nat, src: seq<nat>): (r: seq<nat>)
    requires off <= |c|
    ensures |r| == if off + |src| < |c| then |c| else off + |src|
  {
    c[..off] + src + (if off + |src| < |c| then c[off + |src|..] else [])
  }

  lemma WrittenContents(d0: seq<Block>, m0: map<nat, nat>, d: seq<Block>, m: map<nat, nat>,
                        i: nat, off: nat, src: seq<nat>, size0: nat, size: nat)
    requires BytesWritten(d0, m0, d, m, i, off, src) && off <= size0 <= size
    requires size == size0 || size <= off + |src|
    ensures size <= |Overwrite(Contents(d0, m0, i, size0), off, src)|
    ensures Contents(d, m, i, size) == Overwrite(Contents(d0, m0, i, size0), off, src)[..size]
    ensures forall j: nat, z: nat | j != i :: Contents(d, m, j, z) == Contents(d0, m0, j, z)
  {
    hide Byte;
    var c0, c := Contents(d0, m0, i, size0), Contents(d, m, i, size);
    var o := Overwrite(c0, off, src);
    forall p | 0 <= p < size
      ensures c[p] == o[p]
    {
      assert c[p] == Byte(d, m, i, p);
    }
    assert c == o[..size];
    forall j: nat, z: nat | j != i
      ensures Contents(d, m, j, z) == Contents(d0, m0, j, z)
    {
      assert forall p | 0 <= p < z :: Byte(d, m, j, p) == Byte(d0, m0, j, p);
    }
  }

  /** Reading back what was written. */
  lemma ReadBack(c: seq<nat>, off: nat, src: seq<nat>)
    requires off <= |c|
    ensures Overwrite(c, off, src)[off..off + |src|] == src
    ensures Overwrite(c, off, src)[..off] == c[..off]
    ensures off + |src| <= |c| ==> Overwrite(c, off, src)[off + |src|..] == c[off + |src|..]
  {
  }

  /** What readi() returns for a file with contents `c`. */
  predicate ReadResult(c: seq<nat>, off: nat, n: nat, room: nat, r: int, out: seq<nat>)
  {
    if off > |c| || (off + n) % UINT_LIMIT < off then r == 0 && out == []
    else
      var n1 := if |c| < off + n then |c| - off else n;
      && |out| <= n1 && out == c[off..off + |out|]
      && (if n1 <= room then r == n1 == |out| else r == -1)
  }

  /** A stretch of one block is a stretch of the file. */
  lemma BlockContents(disk: seq<Block>, data: map<nat, nat>, i: nat, size: nat, off: nat, m: nat)
    requires off / BSIZE < MAXFILE && Key(i, off / BSIZE) in data && off % BSIZE + m <= BSIZE && off + m <= size
    requires data[Key(i, off / BSIZE)] < |disk| && |disk[data[Key(i, off / BSIZE)]]| == BSIZE
    ensures disk[data[Key(i, off / BSIZE)]][off % BSIZE..off % BSIZE + m] == Contents(disk, data, i, size)[off..off + m]
  {
    var b := disk[data[Key(i, off / BSIZE)]][off % BSIZE..off % BSIZE + m];
    var c := Contents(disk, data, i, size)[off..off + m];
    forall q | 0 <= q < m
      ensures b[q] == c[q]
    {
      assert (off + q) / BSIZE == off / BSIZE && (off + q) % BSIZE == off % BSIZE + q;
      assert c[q] == Byte(disk, data, i, off + q);
    }
  }

  /** The tests at the top of writei(), in 32-bit arithmetic. */
  predicate BadRange(size: nat, off: nat, n: nat)
  {
    off > size || (off + n) % UINT_LIMIT < off || (off + n) % UINT_LIMIT > MAXFILE * BSIZE
  }

  /** Growing a file to cover what was written leaves no hole. */
  lemma GrownFilesOk(g: Layout, sizes: seq<nat>, types: seq<nat>, m0: map<nat, nat>, m: map<nat, nat>,
                     inds0: map<nat, nat>, inds: map<nat, nat>, i: nat, off: nat, end: nat, hi: nat)
    requires FilesOk(g, sizes, types, m0, inds0) && i < g.ninodes && types[i] != 0
    requires Grew(m0, m, i, off / BSIZE, hi) && IndGrew(inds0, inds, i)
    requires off <= sizes[i] && off <= end && (end == off || end <= hi * BSIZE)
    ensures FilesOk(g, sizes[i := if sizes[i] < end then end else sizes[i]], types, m, inds)
  {
    var size := if sizes[i] < end then end else sizes[i];
    var sizes' := sizes[i := size];
    forall j, bn | 0 <= j < g.ninodes && 0 <= bn && bn * BSIZE < sizes'[j]
      ensures Key(j, bn) in m
    {
      if j == i && sizes[i] <= bn * BSIZE {
        assert off / BSIZE <= bn < hi;
        assert Key(i, off / BSIZE) <= Key(i, bn) < Key(i, hi);
      } else {
        assert Key(j, bn) in m0;
      }
    }
    forall j, bn | 0 <= j < g.ninodes && types[j] == 0 && 0 <= bn < MAXFILE
      ensures Key(j, bn) !in m
    {
      assert Key(j, bn) !in m0;
      assert j != i;
    }
  }

  lemma WroteOk(g: Layout, s0: Fs, s: Fs, i: nat, off: nat, src: seq<nat>, lo: nat, hi: nat)
    requires Wrote(g, s0, s, i, off, src, lo, hi)
    ensures StateOk(g, s)
  {
  }

  lemma FileRange(g: Layout, sizes: seq<nat>, types: seq<nat>, data: map<nat, nat>, inds: map<nat, nat>,
                   i: nat, off: nat, n: nat)
    requires FilesOk(g, sizes, types, data, inds) && i < g.ninodes && n < UINT_LIMIT
    ensures |sizes| == |types| == g.ninodes && sizes[i] <= MAXFILE * BSIZE
    ensures !BadRange(sizes[i], off, n) ==> off + n <= MAXFILE * BSIZE
  {
  }

  lemma AddrsShape(g: Layout, s: Fs)
    requires StateOk(g, s)
    ensures |s.addrs| == g.ninodes && forall i | 0 <= i < g.ninodes :: |s.addrs[i]| == NDIRECT + 1
  {
  }

  function Larger(a: nat, b: nat): nat
  {
    if a < b then b else a
  }

  /** The effect of a write that returned `r`, as files: file `i` is overwritten and perhaps extended at
      `off` by `src`, and every other file is what it was. */
  ghost predicate FileWritten(d0: seq<Block>, m0: map<nat, nat>, sizes0: seq<nat>, d: seq<Block>, m: map<nat, nat>,
                              sizes: seq<nat>, i: nat, off: nat, r: nat, src: seq<nat>)
  {
    && i < |sizes0| && off <= sizes0[i] && r <= |src|
    && sizes == sizes0[i := Larger(sizes0[i], off + r)]
    && Contents(d, m, i, sizes[i]) == Overwrite(Contents(d0, m0, i, sizes0[i]), off, src)[..sizes[i]]
    && forall j: nat, z: nat | j != i :: Contents(d, m, j, z) == Contents(d0, m0, j, z)
  }

  lemma OverwriteAppend(c: seq<nat>, off: nat, a: seq<nat>, b: seq<nat>)
    requires off <= |c|
    ensures Overwrite(Overwrite(c, off, a), off + |a|, b) == Overwrite(c, off, a + b)
  {
  }

  /** Two writes, the first complete and the second where it ended, are one write. */
  lemma WriteThenWrite(d0: seq<Block>, m0: map<nat, nat>, sizes0: seq<nat>, d1: seq<Block>, m1: map<nat, nat>,
                       sizes1: seq<nat>,
                       d2: seq<Block>, m2: map<nat, nat>, sizes2: seq<nat>, i: nat, off: nat, a: seq<nat>, r: nat,
                       b: seq<nat>)
    requires FileWritten(d0, m0, sizes0, d1, m1, sizes1, i, off, |a|, a)
    requires FileWritten(d1, m1, sizes1, d2, m2, sizes2, i, off + |a|, r, b)
    ensures FileWritten(d0, m0, sizes0, d2, m2, sizes2, i, off, |a| + r, a + b)
  {
    var c0, c1 := Contents(d0, m0, i, sizes0[i]), Contents(d1, m1, i, sizes1[i]);
    hide Contents;
    assert c1 == Overwrite(c0, off, a);
    OverwriteAppend(c0, off, a, b);
    hide Overwrite;
    forall j: nat, z: nat | j != i
      ensures Contents(d2, m2, j, z) == Contents(d0, m0, j, z)
    {
      assert Contents(d2, m2, j, z) == Contents(d1, m1, j, z);
    }
  }

  lemma WroteNone(d: seq<Block>, m: map<nat, nat>, sizes: seq<nat>, i: nat, off: nat)
    requires i < |sizes| && off <= sizes[i]
    ensures FileWritten(d, m, sizes, d, m, sizes, i, off, 0, [])
  {
    hide Contents;
    var c := Contents(d, m, i, sizes[i]);
    assert Overwrite(c, off, []) == c;
  }

  /** A write of up to three blocks' worth logs at most MAXOPBLOCKS blocks, seven if one bitmap block covers the disk.
      */
  ghost predicate LogBound(g: Layout, logged0: set<nat>, logged: set<nat>, n: nat)
  {
    n <= 3 * BSIZE ==> |logged - logged0| <= 10 && (g.size <= BPB ==> |logged - logged0| <= 7)
  }

  lemma WriteLogs(g: Layout, s0: Fs, s: Fs, i: nat, off: nat, n: nat, src: seq<nat>, hi: nat,
                  sizes: seq<nat>, types: seq<nat>)
    requires Wrote(g, s0, s, i, off, src, off / BSIZE, hi) && FilesOk(g, sizes, types, s0.data, s0.inds)
    requires i < g.ninodes && off <= sizes[i] && hi <= (off + n + BSIZE - 1) / BSIZE
    ensures LogBound(g, s0.logged, s.logged + {IBlock(g, i)}, n)
  {
    hide Wrote;
    assert off % BSIZE != 0 ==> Key(i, off / BSIZE) in s0.data;
    hide FilesOk;
    if n <= 3 * BSIZE {
      TransactionBound(g, s0, s, i, off, n, src, hi, IBlock(g, i));
    }
  }

  /** Everything writei() promises follows from what its loop did. */
  lemma WriteDone(g: Layout, s0: Fs, s: Fs, i: nat, off: nat, src: seq<nat>, hi: nat, tot: nat,
                  sizes: seq<nat>, types: seq<nat>)
    requires Wrote(g, s0, s, i, off, src, off / BSIZE, hi) && FilesOk(g, sizes, types, s0.data, s0.inds)
    requires i < g.ninodes == |sizes| == |types| && types[i] != 0 && off <= sizes[i] && tot <= |src|
    requires tot == 0 || off + tot <= hi * BSIZE
    ensures FilesOk(g, sizes[i := Larger(sizes[i], off + tot)], types, s.data, s.inds)
    ensures FileWritten(s0.disk, s0.data, sizes, s.disk, s.data, sizes[i := Larger(sizes[i], off + tot)], i, off, tot,
                        src)
  {
    hide FilesOk;
    hide FsOk;
    hide BytesWritten;
    hide Grew;
    hide Charged;
    hide Contents;
    hide Overwrite;
    GrownFilesOk(g, sizes, types, s0.data, s.data, s0.inds, s.inds, i, off, off + tot, hi);
    WrittenContents(s0.disk, s0.data, s.disk, s.data, i, off, src, sizes[i], Larger(sizes[i], off + tot));
  }

  /** The two disks agree outside the metadata. */
  ghost predicate SameData(g: Layout, disk0: seq<Block>, disk: seq<Block>)
  {
    |disk| == |disk0| == g.size && forall c | g.nmeta <= c < g.size :: disk[c] == disk0[c]
  }

  /** Two steps of a truncation. */
  lemma FreedMore(g: Layout, s0: Fs, s1: Fs, s2: Fs, i: nat)
    requires SameData(g, s0.disk, s1.disk) && SameData(g, s1.disk, s2.disk)
    requires OtherInodes(s0.addrs, s1.addrs, i) && OtherInodes(s1.addrs, s2.addrs, i)
    requires Logs(s0.disk, s1.disk, s0.logged, s1.logged, {}) && Logs(s1.disk, s2.disk, s1.logged, s2.logged, {})
    ensures SameData(g, s0.disk, s2.disk) && OtherInodes(s0.addrs, s2.addrs, i)
    ensures Logs(s0.disk, s2.disk, s0.logged, s2.logged, {})
  {
  }

  /** Without an indirect block there are no blocks past the direct ones. */
  lemma NoIndirect(g: Layout, s: Fs, m: map<nat, nat>, i: nat)
    requires StateOk(g, s) && i < g.ninodes && i !in s.inds && s.data == Without(m, i, NDIRECT)
    ensures s.data == Without(m, i, MAXFILE)
  {
    forall bn | NDIRECT <= bn < MAXFILE
      ensures Key(i, bn) !in s.data
    {
      assert Lookup(s.data, i, bn) == 0;
    }
    forall k | k in s.data
      ensures !(Key(i, 0) <= k < Key(i, MAXFILE))
    {
      assert k == Key(i, 0) + (k - Key(i, 0));
      assert Key(i, NDIRECT) <= k < Key(i, MAXFILE) ==> k == Key(i, k - Key(i, 0));
    }
  }

  /** After truncation the other files are untouched and the inode owns nothing. */
  lemma TruncatedFiles(g: Layout, disk0: seq<Block>, addrs0: seq<seq<nat>>, used0: set<nat>,
                       data0: map<nat, nat>, inds0: map<nat, nat>, disk: seq<Block>,
                       sizes: seq<nat>, types: seq<nat>, i: nat, t: nat)
    requires FsOk(g, disk0, addrs0, used0, data0, inds0) && FilesOk(g, sizes, types, data0, inds0)
    requires SameData(g, disk0, disk) && i < g.ninodes
    ensures FilesOk(g, sizes[i := 0], types[i := t], Without(data0, i, MAXFILE), inds0 - {i})
    ensures forall j: nat, z: nat | j != i ::
      Contents(disk, Without(data0, i, MAXFILE), j, z) == Contents(disk0, data0, j, z)
  {
    Places(g, disk0, addrs0, used0, data0, inds0);
    hide FsOk;
    hide Bitmap;
    forall j: nat, z: nat | j != i
      ensures Contents(disk, Without(data0, i, MAXFILE), j, z) == Contents(disk0, data0, j, z)
    {
      hide FilesOk;
      forall p: nat
        ensures Byte(disk, Without(data0, i, MAXFILE), j, p) == Byte(disk0, data0, j, p)
      {
        WithoutBytes(g, disk0, disk, data0, i, j, p);
      }
    }
    WithoutFilesOk(g, sizes, types, data0, inds0, i, t);
  }

  lemma WithoutFilesOk(g: Layout, sizes: seq<nat>, types: seq<nat>, data: map<nat, nat>, inds: map<nat, nat>, i: nat,
                       t: nat)
    requires FilesOk(g, sizes, types, data, inds) && i < g.ninodes
    ensures FilesOk(g, sizes[i := 0], types[i := t], Without(data, i, MAXFILE), inds - {i})
  {
  }

  /** The effect of the transactions so far: a write, or nothing if the offset is beyond the end of the file. */
  ghost predicate SoFar(d0: seq<Block>, m0: map<nat, nat>, sizes0: seq<nat>, d: seq<Block>, m: map<nat, nat>,
                        sizes: seq<nat>, i: nat, off: nat, r: nat, src: seq<nat>)
  {
    && i < |sizes0|
    && if off <= sizes0[i] then FileWritten(d0, m0, sizes0, d, m, sizes, i, off, r, src)
       else r == 0 && d == d0 && m == m0 && sizes == sizes0
  }

  lemma ChunkWritten(d0: seq<Block>, m0: map<nat, nat>, sizes0: seq<nat>, d1: seq<Block>, m1: map<nat, nat>,
                     sizes1: seq<nat>,
                     d2: seq<Block>, m2: map<nat, nat>, sizes2: seq<nat>, i: nat, off: nat, src: seq<nat>,
                     done: nat, r: nat, w: nat, piece: seq<nat>)
    requires done <= |src| && SoFar(d0, m0, sizes0, d1, m1, sizes1, i, off, done, src[..done])
    requires r <= w <= |piece| && done + |piece| <= |src| && piece == src[done..done + |piece|]
    requires FileWritten(d1, m1, sizes1, d2, m2, sizes2, i, off + done, r, piece[..w])
    ensures SoFar(d0, m0, sizes0, d2, m2, sizes2, i, off, done + r, src[..done + w])
    ensures i < |sizes2| && off + done + r <= sizes2[i]
  {
    hide FileWritten;
    WrittenSizes(d1, m1, sizes1, d2, m2, sizes2, i, off + done, r, piece[..w]);
    assert src[..done] + piece[..w] == src[..done + w];
    WriteThenWrite(d0, m0, sizes0, d1, m1, sizes1, d2, m2, sizes2, i, off, src[..done], r, piece[..w]);
  }

  lemma WrittenSizes(d0: seq<Block>, m0: map<nat, nat>, sizes0: seq<nat>, d: seq<Block>, m: map<nat, nat>,
                     sizes: seq<nat>, i: nat, off: nat, r: nat, src: seq<nat>)
    requires FileWritten(d0, m0, sizes0, d, m, sizes, i, off, r, src)
    ensures i < |sizes| == |sizes0| && off <= sizes0[i] && off + r <= sizes[i]
  {
  }

  lemma StartWrite(g: Layout, disk: seq<Block>, data: map<nat, nat>, inds: map<nat, nat>,
                   sizes: seq<nat>, types: seq<nat>, i: nat, off: nat)
    requires FilesOk(g, sizes, types, data, inds) && i < g.ninodes
    ensures SoFar(disk, data, sizes, disk, data, sizes, i, off, 0, [])
  {
    if off <= sizes[i] {
      WroteNone(disk, data, sizes, i, off);
    }
  }

  /** Every block of the disk is in use. */
  ghost predicate Full(g: Layout, used: set<nat>)
  {
    forall b | 0 <= b < g.size :: b in used
  }

  /** All of the `len` readable bytes out of `n` reached the file; `r`, the bytes that count as written, falls short
      only if the source does, and then by less than a block. */
  predicate AllWritten(len: nat, n: nat, r: nat, w: nat)
  {
    w == len && if len == n then r == n else r <= len < r + BSIZE && r < n
  }

  /** ((MAXOPBLOCKS - 1 - 1 - 2) / 2) * BSIZE */
  const MAX_CHUNK: nat := 3072

  /** How many of the `n` bytes that are left go into one transaction. */
  function Chunk(n: nat): (c: nat)
  {
    if n > MAX_CHUNK then MAX_CHUNK else n
  }

  /** How many of the bytes of the next chunk can be read, when `len` of `n` can and `done` are written. */
  function Piece(len: nat, n: nat, done: nat): (m: nat)
    requires done <= len && done <= n
  {
    if len < done + Chunk(n - done) then len - done else Chunk(n - done)
  }

  /** The next chunk ends beyond the largest file. */
  predicate TooFar(off: nat, n: nat)
  {
    off + Chunk(n) > MAXFILE * BSIZE
  }

  /** One chunk is refused for its range exactly when the write starts beyond the end or has reached the largest file.
      */
  lemma ChunkRange(size: nat, off: nat, n: nat)
    requires size <= MAXFILE * BSIZE && off < UINT_LIMIT
    ensures BadRange(size, off, Chunk(n)) <==> off > size || TooFar(off, n)
  {
  }

  /** Why a write of `n` bytes at `off0`, of which `len` can be read, ended at `off`. */
  ghost predicate WriteEnd(size0: nat, off0: nat, n: nat, len: nat, off: nat, w: nat, full: bool)
    requires off0 <= off
  {
    || (n > 0 && off0 > size0) || (off - off0 < n && TooFar(off, n - (off - off0)))
    || AllWritten(len, n, off - off0, w) || full
  }

  lemma ChunkStops(size0: nat, size: nat, off0: nat, n: nat, len: nat, done: nat, m: nat, r: int, w: nat, full: bool)
    requires done < n && len <= n && done <= len && off0 + done < UINT_LIMIT && size <= MAXFILE * BSIZE
    requires if done == 0 then size == size0 else off0 + done <= size
    requires m == if len < done + Chunk(n - done) then len - done else Chunk(n - done)
    requires r == -1 <==> BadRange(size, off0 + done, Chunk(n - done))
    requires r != -1 ==> 0 <= r <= w && (AllWritten(m, Chunk(n - done), r, w) || full) && r != Chunk(n - done)
    ensures r == -1 ==> WriteEnd(size0, off0, n, len, off0 + done, done, full)
    ensures r != -1 ==> WriteEnd(size0, off0, n, len, off0 + done + r, done + w, full)
  {
    ChunkRange(size, off0 + done, n - done);
  }

  /** Bytes are written only from an offset within the file. */
  lemma ChunkStart(d0: seq<Block>, m0: map<nat, nat>, sizes0: seq<nat>, d: seq<Block>, m: map<nat, nat>,
                   sizes: seq<nat>, i: nat, off: nat, r: nat, src: seq<nat>)
    requires SoFar(d0, m0, sizes0, d, m, sizes, i, off, r, src) && r > 0
    ensures off <= sizes0[i] && |sizes| == |sizes0|
  {
  }

  lemma WriteComplete(size0: nat, off0: nat, n: nat, len: nat, off: nat, w: nat, full: bool)
    requires off == off0 + n && w == n && len == n
    ensures WriteEnd(size0, off0, n, len, off, w, full)
  {
  }

  class FileSys {
    const g: Layout
    var disk: seq<Block>
    var addrs: seq<seq<nat>>
    var sizes: seq<nat>
    var types: seq<nat>
    var dAddrs: seq<seq<nat>>
    var dSizes: seq<nat>
    var dTypes: seq<nat>
    ghost var used: set<nat>
    ghost var data: map<nat, nat>
    ghost var inds: map<nat, nat>
    ghost var logged: set<nat>

    ghost function State(): Fs
      reads this
    {
      Fs(disk, addrs, used, data, inds, logged)
    }

    ghost predicate Ok()
      reads this
    {
      StateOk(g, State())
    }


    /** The state after mounting an image whose inodes are `addrs`, `sizes` and `types`. */
    constructor Mount(g: Layout, disk: seq<Block>, addrs: seq<seq<nat>>, sizes: seq<nat>, types: seq<nat>,
                      ghost used: set<nat>, ghost data: map<nat, nat>, ghost inds: map<nat, nat>)
      requires FsOk(g, disk, addrs, used, data, inds) && FilesOk(g, sizes, types, data, inds)
      ensures Valid() && Flushed() && this.g == g && State() == Fs(disk, addrs, used, data, inds, {})
      ensures this.sizes == sizes && this.types == types
    {
      this.g := g;
      this.disk, this.addrs, this.sizes, this.types := disk, addrs, sizes, types;
      this.dAddrs, this.dSizes, this.dTypes := addrs, sizes, types;
      this.used, this.data, this.inds, this.logged := used, data, inds, {};
    }

    /** bzero() */
    method Bzero(b: nat)
      requires b < |disk|
      modifies `disk, `logged
      ensures disk == old(disk)[b := Zeroed()] && logged == old(logged) + {b}
    {
      disk := disk[b := Zeroed()];
      logged := logged + {b};
    }

    /** balloc(): the lowest free block, marked and zeroed, or 0 if every block is in use. */
    method Balloc() returns (r: nat)
      requires Ok()
      modifies `disk, `logged
      ensures r == 0 ==> disk == old(disk) && logged == old(logged) && forall b | 0 <= b < g.size :: b in used
      ensures r != 0 ==> g.nmeta <= r < g.size && r !in used && (forall b | 0 <= b < r :: b in used)
      ensures r != 0 ==> BBlock(g, r) < |old(disk)| == g.size && |old(disk)[BBlock(g, r)]| == BSIZE
      ensures r != 0 ==> disk == Allocated(g, old(disk), r) && logged == old(logged) + {BBlock(g, r), r}
      ensures r != 0 ==> forall c | g.nmeta <= c < g.size && c != r :: disk[c] == old(disk)[c]
      ensures Logs(old(disk), disk, old(logged), logged, {})
    {
      MetaUsed(g, disk, addrs, used, data, inds);
      hide FsOk;
      hide Logs;
      LogsNothing(disk, logged);
      r := FindFree(g, disk, used);
      if r != 0 {
        AllocatedBits(g, disk, used, r);
        hide Bitmap;
        var bit := SetBit(disk[BBlock(g, r)], r % BPB);
        LogsOne(disk, disk, logged, logged, BBlock(g, r), bit);
        disk := disk[BBlock(g, r) := bit];
        logged := logged + {BBlock(g, r)};
        LogsOne(old(disk), disk, old(logged), logged, r, Zeroed());
        Bzero(r);
        assert old(logged) + {BBlock(g, r)} + {r} == old(logged) + {BBlock(g, r), r};
      }
    }

    /** The first part of bmap(): a direct block. */
    method BmapDirect(i: nat, bn: nat) returns (r: nat)
      requires Ok() && i < g.ninodes && bn < NDIRECT
      modifies `disk, `addrs, `used, `data, `logged
      ensures Mapped(g, old(State()), State(), i, bn, r)
      ensures Logs(old(disk), disk, old(logged), logged, {})
    {
      hide Mapped;
      hide Logs;
      LogsNothing(disk, logged);
      hide FsOk;
      FileMap(g, disk, addrs, used, data, inds, i, bn);
      r := addrs[i][bn];
      if r == 0 {
        r := Balloc();
        if r == 0 {
          MappedFull(g, State(), i, bn);
          return;
        }
        MappedDirect(g, old(State()), i, bn, r);
        addrs := SetAddr(addrs, i, bn, r);
        used, data := used + {r}, data[Key(i, bn) := r];
      } else {
        MappedAlready(g, State(), i, bn);
      }
    }

    /** The indirect block of inode `i`, allocated if there is none yet. */
    method IndirectBlock(i: nat) returns (r: nat)
      requires Ok() && i < g.ninodes
      modifies `disk, `addrs, `used, `inds, `logged
      ensures r == 0 ==> State() == old(State()) && i !in inds && forall b | 0 <= b < g.size :: b in used
      ensures r != 0 ==> i in inds && inds[i] == r
      ensures r != 0 && i in old(inds) ==> State() == old(State())
      ensures r != 0 && i !in old(inds) ==> IndAdded(g, old(State()), State(), i, r)
      ensures Logs(old(disk), disk, old(logged), logged, {})
    {
      hide Logs;
      LogsNothing(disk, logged);
      hide IndAdded;
      hide FsOk;
      FileMap(g, disk, addrs, used, data, inds, i, 0);
      r := addrs[i][NDIRECT];
      if r == 0 {
        r := Balloc();
        if r == 0 {
          return;
        }
        AddInd(g, old(State()), i, r);
        addrs := SetAddr(addrs, i, NDIRECT, r);
        used, inds := used + {r}, inds[i := r];
      }
    }

    /** The entry of the indirect block for block `bn`, filled in if it is empty. */
    method BmapEntry(i: nat, bn: nat, ind: nat) returns (r: nat)
      requires Ok() && i < g.ninodes && NDIRECT <= bn < MAXFILE && i in inds && inds[i] == ind
      modifies `disk, `used, `data, `logged
      ensures Mapped(g, old(State()), State(), i, bn, r)
      ensures Logs(old(disk), disk, old(logged), logged, {})
    {
      hide Logs;
      LogsNothing(disk, logged);
      hide FsOk;
      hide Mapped;
      FileMap(g, disk, addrs, used, data, inds, i, bn);
      r := WordAt(disk[ind], bn - NDIRECT);
      if r == 0 {
        r := Balloc();
        if r == 0 {
          MappedFull(g, State(), i, bn);
          return;
        }
        MappedEntry(g, old(State()), i, bn, r);
        LogsOne(old(disk), disk, old(logged), logged, ind, PutWord(disk[ind], bn - NDIRECT, r));
        disk := disk[ind := PutWord(disk[ind], bn - NDIRECT, r)];
        logged := logged + {ind};
        used, data := used + {r}, data[Key(i, bn) := r];
      } else {
        MappedAlready(g, State(), i, bn);
      }
    }

    /** bmap(): the disk block of block `bn` of file `i`, allocated if the file has none; 0 if the disk is full. */
    method Bmap(i: nat, bn: nat) returns (r: nat)
      requires Ok() && i < g.ninodes && bn < MAXFILE
      modifies `disk, `addrs, `used, `data, `inds, `logged
      ensures Mapped(g, old(State()), State(), i, bn, r)
      ensures Logs(old(disk), disk, old(logged), logged, {})
    {
      hide Logs;
      if bn < NDIRECT {
        r := BmapDirect(i, bn);
        return;
      }
      hide FsOk;
      hide Mapped;
      hide IndAdded;
      FileMap(g, disk, addrs, used, data, inds, i, bn);
      r := IndirectBlock(i);
      if r == 0 {
        MappedFull(g, State(), i, bn);
        return;
      }
      ghost var s1 := State();
      r := BmapEntry(i, bn, r);
      LogsMore(old(disk), s1.disk, disk, old(logged), s1.logged, logged, {});
      if i !in old(inds) {
        MappedAfterInd(g, old(State()), s1, State(), i, bn, inds[i], r);
      }
    }

    /** The body of writei()'s loop for one block: bmap(), bread(), copyin() and log_write().  `piece` is
        what copyin() could read of the `m` bytes asked for; if that is less, the buffer is left changed
        but not logged. */
    method WriteBlock(i: nat, at: nat, piece: seq<nat>, m: nat, ghost s0: Fs, ghost off: nat, ghost src: seq<nat>,
                      ghost lo: nat) returns (mapped: bool)
      requires Ok() && StateOk(g, s0) && i < g.ninodes && at / BSIZE < MAXFILE
      requires at % BSIZE + m <= BSIZE && |piece| <= m
      requires at == off + |src| && Wrote(g, s0, State(), i, off, src, lo, at / BSIZE)
      modifies `disk, `addrs, `used, `data, `inds, `logged
      ensures Ok()
      ensures mapped ==> Wrote(g, s0, State(), i, off, src + piece, lo, at / BSIZE + 1)
      ensures !mapped ==> Wrote(g, s0, State(), i, off, src, lo, at / BSIZE) && forall b | 0 <= b < g.size :: b in used
      ensures Logs(old(disk), disk, old(logged), logged,
                   if mapped && |piece| < m then Torn(data, i, at, 0, |piece|) else {})
    {
      hide Wrote;
      hide Logs;
      hide FsOk;
      ghost var s := State();
      var addr := Bmap(i, at / BSIZE);
      ghost var s1 := State();
      if addr == 0 {
        WroteNoSpace(g, s0, s, s1, i, off, src, lo, at / BSIZE);
        return false;
      }
      FileMap(g, disk, addrs, used, data, inds, i, at / BSIZE);
      hide Mapped;
      WroteBlock(g, s0, s, s1, i, off, src, lo, at / BSIZE, addr, piece, |piece| == m);
      WriteBlockLogs(s.disk, disk, s.logged, logged, data, i, at, piece, m);
      disk := disk[addr := Patched(disk[addr], at % BSIZE, piece)];
      if |piece| == m {
        logged := logged + {addr};
      }
      WroteOk(g, s0, State(), i, off, src + piece, lo, at / BSIZE + 1);
      return true;
    }

    /** The loop of writei().  `src` is the part of the `n` source bytes that copyin() can read. */
    method WriteBlocks(i: nat, src: seq<nat>, off0: nat, n: nat) returns (tot: nat, ghost w: nat, ghost hi: nat)
      requires Ok() && i < g.ninodes && |src| <= n && off0 + n <= MAXFILE * BSIZE
      modifies `disk, `addrs, `used, `data, `inds, `logged
      ensures Ok()
      ensures tot <= w <= |src| && (tot == n ==> w == n) && (|src| == n ==> tot == w)
      ensures AllWritten(|src|, n, tot, w) || Full(g, used)
      ensures Wrote(g, old(State()), State(), i, off0, src[..w], off0 / BSIZE, hi)
      ensures hi <= (off0 + n + BSIZE - 1) / BSIZE && (tot == 0 || off0 + tot <= hi * BSIZE)
      ensures Logs(old(disk), disk, old(logged), logged, Torn(data, i, off0, tot, w))
    {
      hide Wrote;
      hide FsOk;
      hide Logs;
      LogsNothing(disk, logged);
      var off := off0;
      tot, w, hi := 0, 0, off0 / BSIZE;
      WroteNothing(g, State(), i, off0, hi);
      assert src[..0] == [];
      while tot < n
        invariant Ok() && off == off0 + tot && tot == w <= |src| && tot <= n
        invariant Wrote(g, old(State()), State(), i, off0, src[..w], off0 / BSIZE, hi)
        invariant hi <= (off0 + n + BSIZE - 1) / BSIZE
        invariant if tot == 0 then hi == off0 / BSIZE else off <= hi * BSIZE && (tot < n ==> off == hi * BSIZE)
        invariant Logs(old(disk), disk, old(logged), logged, {})
      {
        var m := if n - tot < BSIZE - off % BSIZE then n - tot else BSIZE - off % BSIZE;
        var piece := if |src| < tot + m then src[tot..] else src[tot..tot + m];
        assert src[..w] + piece == src[..tot + |piece|];
        ghost var s1 := State();
        var mapped := WriteBlock(i, off, piece, m, old(State()), off0, src[..w], off0 / BSIZE);
        ghost var but := if mapped && |piece| < m then Torn(data, i, off, 0, |piece|) else {};
        LogsMore(old(disk), s1.disk, disk, old(logged), s1.logged, logged, but);
        if !mapped {
          break;
        }
        hi, w := hi + 1, tot + |piece|;
        if |piece| < m {
          break;
        }
        tot := tot + m;
        off := off + m;
      }
    }

    ghost predicate Valid()
      reads this
    {
      && Ok() && FilesOk(g, sizes, types, data, inds)
      && |dAddrs| == g.ninodes && |dSizes| == g.ninodes && |dTypes| == g.ninodes && |addrs| == g.ninodes
    }

    /** The inode on the disk is the one in memory. */
    ghost predicate Synced(i: nat)
      requires Valid() && i < g.ninodes
      reads this
    {
      dAddrs[i] == addrs[i] && dSizes[i] == sizes[i] && dTypes[i] == types[i]
    }

    /** Every inode on the disk is the one in memory. */
    ghost predicate Flushed()
      reads this
    {
      dAddrs == addrs && dSizes == sizes && dTypes == types
    }

    /** iupdate() */
    method Iupdate(i: nat)
      requires i < |addrs| && i < |sizes| && i < |types| && i < |dAddrs| && i < |dSizes| && i < |dTypes|
      modifies `dAddrs, `dSizes, `dTypes, `logged
      ensures dAddrs == old(dAddrs)[i := addrs[i]] && dSizes == old(dSizes)[i := sizes[i]]
      ensures dTypes == old(dTypes)[i := types[i]]
      ensures logged == old(logged) + {IBlock(g, i)}
      ensures |dAddrs| == |dSizes| == |dTypes| ==>
        InodesLogged(g, old(dAddrs), old(dSizes), old(dTypes), dAddrs, dSizes, dTypes, logged)
    {
      dAddrs := dAddrs[i := addrs[i]];
      dSizes := dSizes[i := sizes[i]];
      dTypes := dTypes[i := types[i]];
      logged := logged + {IBlock(g, i)};
    }

    /** writei(): the file becomes the old one with the readable part of the source written over it; no
        other file changes, not even if the disk fills up or the source cannot be read.  `w` counts the bytes
        that reached buffers, `r` those that count as written: they differ only when copyin() fails. */
    method Writei(i: nat, src: seq<nat>, off: nat, n: nat) returns (r: int, ghost w: nat)
      requires Valid() && i < g.ninodes && types[i] != 0 && |src| <= n && off < UINT_LIMIT && n < UINT_LIMIT
      modifies `disk, `addrs, `sizes, `used, `data, `inds, `logged, `dAddrs, `dSizes, `dTypes
      ensures Valid()
      ensures r == -1 <==> BadRange(old(sizes)[i], off, n)
      ensures r == -1 ==> State() == old(State()) && sizes == old(sizes)
      ensures r != -1 ==> 0 <= r <= w <= |src| && (r == n ==> w == n) && (|src| == n ==> r == w)
      ensures r != -1 ==> AllWritten(|src|, n, r, w) || Full(g, used)
      ensures r != -1 ==> FileWritten(old(disk), old(data), old(sizes), disk, data, sizes, i, off, r, src[..w])
      ensures r != -1 ==> Synced(i) && LogBound(g, old(logged), logged, n)
      ensures old(Flushed()) ==> Flushed()
      ensures Logs(old(disk), disk, old(logged), logged, if r == -1 then {} else Torn(data, i, off, r, w))
      ensures InodesLogged(g, old(dAddrs), old(dSizes), old(dTypes), dAddrs, dSizes, dTypes, logged)
    {
      hide Wrote;
      hide FsOk;
      hide Logs;
      hide FileWritten;
      hide LogBound;
      FileRange(g, sizes, types, data, inds, i, off, n);
      hide FilesOk;
      w := 0;
      if off > sizes[i] || (off + n) % UINT_LIMIT < off || (off + n) % UINT_LIMIT > MAXFILE * BSIZE {
        LogsNothing(disk, logged);
        return -1, 0;
      }
      ghost var s0 := State();
      ghost var hi;
      var tot;
      tot, w, hi := WriteBlocks(i, src, off, n);
      WriteDone(g, s0, State(), i, off, src[..w], hi, tot, sizes, types);
      WriteLogs(g, s0, State(), i, off, n, src[..w], hi, sizes, types);
      AddrsShape(g, State());
      assert sizes[i := sizes[i]] == sizes;
      if off + tot > sizes[i] {
        sizes := sizes[i := off + tot];
      }
      WroteAddrs(g, s0, State(), i, off, src[..w], off / BSIZE, hi);
      LogsAlso(old(disk), disk, old(logged), logged, Torn(data, i, off, tot, w), {IBlock(g, i)});
      hide Torn;
      Iupdate(i);
      hide InodesLogged;
      assert old(Flushed()) ==> dSizes == sizes && dTypes == types;
      r := tot;
    }

    /** One iteration of readi()'s loop: the block is there, so bmap() allocates nothing. */
    method ReadBlock(i: nat, at: nat, m: nat) returns (piece: seq<nat>)
      requires Valid() && i < g.ninodes && at % BSIZE + m <= BSIZE && 0 < m && at + m <= sizes[i]
      modifies `disk, `addrs, `used, `data, `inds, `logged
      ensures State() == old(State())
      ensures piece == Contents(disk, data, i, sizes[i])[at..at + m]
    {
      hide FsOk;
      assert at / BSIZE < MAXFILE && Key(i, at / BSIZE) in data;
      hide FilesOk;
      var addr := Bmap(i, at / BSIZE);
      assert data[Key(i, at / BSIZE)] == addr;
      FileMap(g, disk, addrs, used, data, inds, i, at / BSIZE);
      hide Mapped;
      BlockContents(disk, data, i, sizes[i], at, m);
      piece := disk[addr][at % BSIZE..at % BSIZE + m];
    }

    /** The loop of readi().  `room` is the number of bytes copyout() can store before it fails. */
    method ReadBlocks(i: nat, off: nat, n: nat, room: nat) returns (r: int, out: seq<nat>)
      requires Valid() && i < g.ninodes && off + n <= sizes[i]
      modifies `disk, `addrs, `used, `data, `inds, `logged
      ensures State() == old(State())
      ensures |out| <= n && out == Contents(disk, data, i, sizes[i])[off..off + |out|]
      ensures if n <= room then r == n == |out| else r == -1
    {
      hide FsOk;
      FileRange(g, sizes, types, data, inds, i, off, 0);
      hide FilesOk;
      var tot, at := 0, off;
      out := [];
      ghost var c := Contents(disk, data, i, sizes[i]);
      hide Contents;
      while tot < n
        invariant State() == old(State()) && at == off + tot && tot <= n && tot <= room
        invariant |out| == tot && out == c[off..at]
      {
        var m := if n - tot < BSIZE - at % BSIZE then n - tot else BSIZE - at % BSIZE;
        var piece := ReadBlock(i, at, m);
        if tot + m > room {
          return -1, out;
        }
        assert c[off..at] + c[at..at + m] == c[off..at + m];
        out := out + piece;
        tot := tot + m;
        at := at + m;
      }
      r := tot;
    }

    /** readi(): the bytes of the file from `off` on, clipped to its size; the state of the file system does
        not change, so no transaction is needed. */
    method Readi(i: nat, off: nat, n: nat, room: nat) returns (r: int, out: seq<nat>)
      requires Valid() && i < g.ninodes && off < UINT_LIMIT && n < UINT_LIMIT
      modifies `disk, `addrs, `used, `data, `inds, `logged
      ensures State() == old(State())
      ensures ReadResult(Contents(disk, data, i, sizes[i]), off, n, room, r, out)
    {
      hide FsOk;
      FileRange(g, sizes, types, data, inds, i, off, 0);
      hide FilesOk;
      if off > sizes[i] || (off + n) % UINT_LIMIT < off {
        return 0, [];
      }
      var n1 := if off + n > sizes[i] then sizes[i] - off else n;
      r, out := ReadBlocks(i, off, n1, room);
    }

    /** bfree(): a panic exactly if the block is free already. */
    method Bfree(b: nat) returns (panic: bool)
      requires Sized(g, disk) && Bitmap(g, disk, used) && b < g.size
      modifies `disk, `logged
      ensures BBlock(g, b) < |old(disk)| && |old(disk)[BBlock(g, b)]| == BSIZE
      ensures panic <==> b !in used
      ensures panic ==> disk == old(disk) && logged == old(logged)
      ensures !panic ==> disk == Freed(g, old(disk), b) && logged == old(logged) + {BBlock(g, b)}
      ensures forall c | g.nmeta <= c < g.size :: disk[c] == old(disk)[c]
      ensures Logs(old(disk), disk, old(logged), logged, {})
    {
      FreedBits(g, disk, used, b);
      BitOf(g, disk, used, b);
      hide Bitmap;
      panic := !BitAt(disk[BBlock(g, b)], b % BPB);
      if panic {
        return;
      }
      var bp := ClearBit(disk[BBlock(g, b)], b % BPB);
      disk := disk[BBlock(g, b) := bp];
      logged := logged + {BBlock(g, b)};
    }

    /** One direct block of itrunc(). */
    method FreeSlot(i: nat, k: nat)
      requires Ok() && i < g.ninodes && k < NDIRECT
      modifies `disk, `addrs, `used, `data, `logged
      ensures Ok() && data == old(data) - {Key(i, k)}
      ensures SameData(g, old(disk), disk) && OtherInodes(old(addrs), addrs, i)
      ensures Logs(old(disk), disk, old(logged), logged, {})
    {
      hide Logs;
      LogsNothing(disk, logged);
      hide FsOk;
      hide Without;
      FileMap(g, disk, addrs, used, data, inds, i, k);
      var b := addrs[i][k];
      if b != 0 {
        Places(g, disk, addrs, used, data, inds);
        hide Bitmap;
        hide Sized;
        FreeDirect(g, disk, addrs, used, data, inds, i, k);
        var panic := Bfree(b);
        hide Freed;
        used, data := used - {b}, data - {Key(i, k)};
        addrs := SetAddr(addrs, i, k, 0);
      } else {
        assert data - {Key(i, k)} == data;
      }
    }

    /** The first loop of itrunc(): the direct blocks. */
    method FreeDirects(i: nat)
      requires Ok() && i < g.ninodes
      modifies `disk, `addrs, `used, `data, `logged
      ensures Ok() && data == Without(old(data), i, NDIRECT)
      ensures SameData(g, old(disk), disk) && OtherInodes(old(addrs), addrs, i)
      ensures Logs(old(disk), disk, old(logged), logged, {})
    {
      hide Logs;
      hide FsOk;
      AddrsShape(g, State());
      Places(g, disk, addrs, used, data, inds);
      hide Bitmap;
      hide Sized;
      assert Without(data, i, 0) == data;
      hide Without;
      LogsNothing(disk, logged);
      assert SameData(g, disk, disk) && OtherInodes(addrs, addrs, i);
      hide SameData;
      hide OtherInodes;
      for k := 0 to NDIRECT
        invariant Ok() && data == Without(old(data), i, k)
        invariant SameData(g, old(disk), disk) && OtherInodes(old(addrs), addrs, i)
        invariant Logs(old(disk), disk, old(logged), logged, {})
      {
        WithoutMore(old(data), i, k);
        ghost var s := State();
        FreeSlot(i, k);
        FreedMore(g, old(State()), s, State(), i);
      }
    }

    /** One entry of the indirect block of itrunc(). */
    method FreeOneEntry(i: nat, bn: nat, ind: nat)
      requires Emptying(g, disk, addrs, used, data, inds, i, bn)
      requires i in inds && inds[i] == ind && i < g.ninodes && NDIRECT <= bn < MAXFILE
      modifies `disk, `used, `data, `logged
      ensures Emptying(g, disk, addrs, used, data, inds, i, bn + 1) && data == old(data) - {Key(i, bn)}
      ensures SameData(g, old(disk), disk)
      ensures Logs(old(disk), disk, old(logged), logged, {})
    {
      hide Logs;
      LogsNothing(disk, logged);
      hide Emptying;
      EntryMap(g, disk, addrs, used, data, inds, i, bn);
      hide Bitmap;
      hide Sized;
      var b := WordAt(disk[ind], bn - NDIRECT);
      if b != 0 {
        FreeEntry(g, disk, addrs, used, data, inds, i, bn);
        var panic := Bfree(b);
        hide Freed;
        used, data := used - {b}, data - {Key(i, bn)};
      } else {
        SkipEntry(g, disk, addrs, used, data, inds, i, bn);
        assert data - {Key(i, bn)} == data;
      }
    }

    /** The loop of itrunc() over the entries of the indirect block. */
    method FreeEntries(i: nat, ind: nat, ghost m: map<nat, nat>)
      requires Emptying(g, disk, addrs, used, data, inds, i, NDIRECT) && data == Without(m, i, NDIRECT)
      requires i in inds && inds[i] == ind && i < g.ninodes && |disk| == g.size
      modifies `disk, `used, `data, `logged
      ensures Emptying(g, disk, addrs, used, data, inds, i, MAXFILE) && data == Without(m, i, MAXFILE)
      ensures SameData(g, old(disk), disk)
      ensures Logs(old(disk), disk, old(logged), logged, {})
    {
      hide Logs;
      LogsNothing(disk, logged);
      hide Emptying;
      hide Without;
      for bn := NDIRECT to MAXFILE
        invariant Emptying(g, disk, addrs, used, data, inds, i, bn) && data == Without(m, i, bn)
        invariant SameData(g, old(disk), disk)
        invariant Logs(old(disk), disk, old(logged), logged, {})
      {
        WithoutMore(m, i, bn);
        ghost var s := State();
        FreeOneEntry(i, bn, ind);
        LogsMore(old(disk), s.disk, disk, old(logged), s.logged, logged, {});
      }
    }

    /** The second part of itrunc(): the entries of the indirect block, then the block itself. */
    method FreeIndirect(i: nat, ghost m: map<nat, nat>)
      requires Ok() && i < g.ninodes && data == Without(m, i, NDIRECT)
      modifies `disk, `addrs, `used, `data, `inds, `logged
      ensures Ok() && data == Without(m, i, MAXFILE) && inds == old(inds) - {i}
      ensures SameData(g, old(disk), disk) && OtherInodes(old(addrs), addrs, i)
      ensures Logs(old(disk), disk, old(logged), logged, {})
    {
      hide Logs;
      LogsNothing(disk, logged);
      hide FsOk;
      hide Emptying;
      FileMap(g, disk, addrs, used, data, inds, i, 0);
      var ind := addrs[i][NDIRECT];
      if ind == 0 {
        NoIndirect(g, State(), m, i);
        assert inds - {i} == inds;
        return;
      }
      hide Without;
      StartEmptying(g, disk, addrs, used, data, inds, i);
      FreeEntries(i, ind, m);
      IndirectUsed(g, disk, addrs, used, data, inds, i);
      FreeInd(g, disk, addrs, used, data, inds, i);
      hide Bitmap;
      hide Sized;
      ghost var s := State();
      var panic := Bfree(ind);
      LogsMore(old(disk), s.disk, disk, old(logged), s.logged, logged, {});
      hide Freed;
      used, inds := used - {ind}, inds - {i};
      addrs := SetAddr(addrs, i, NDIRECT, 0);
    }

    /** itrunc(): the file is empty, all its blocks are free, and no other file changes. */
    method Itrunc(i: nat)
      requires Valid() && i < g.ninodes
      modifies `disk, `addrs, `sizes, `used, `data, `inds, `logged, `dAddrs, `dSizes, `dTypes
      ensures Valid() && Synced(i)
      ensures sizes == old(sizes)[i := 0] && data == Without(old(data), i, MAXFILE) && inds == old(inds) - {i}
      ensures forall j: nat, z: nat | j != i :: Contents(disk, data, j, z) == Contents(old(disk), old(data), j, z)
      ensures OtherInodes(old(addrs), addrs, i) && (old(Flushed()) ==> Flushed())
      ensures Logs(old(disk), disk, old(logged), logged, {})
      ensures InodesLogged(g, old(dAddrs), old(dSizes), old(dTypes), dAddrs, dSizes, dTypes, logged)
    {
      hide Logs;
      hide FsOk;
      FileRange(g, sizes, types, data, inds, i, 0, 0);
      hide FilesOk;
      hide Without;
      FreeDirects(i);
      ghost var s := State();
      FreeIndirect(i, old(data));
      LogsMore(old(disk), s.disk, disk, old(logged), s.logged, logged, {});
      LogsAlso(old(disk), disk, old(logged), logged, {}, {IBlock(g, i)});
      TruncatedFiles(g, old(disk), old(addrs), old(used), old(data), old(inds), disk, sizes, types, i, types[i]);
      assert types[i := types[i]] == types;
      AddrsShape(g, State());
      sizes := sizes[i := 0];
      Iupdate(i);
      assert old(dAddrs) == old(addrs) ==> dAddrs == addrs;
      assert old(dTypes) == types ==> dTypes == types;
    }

    /** iput() of the last reference to an inode without links: the inode and its blocks become free. */
    method FreeInode(i: nat)
      requires Valid() && i < g.ninodes
      modifies `disk, `addrs, `sizes, `types, `used, `data, `inds, `logged, `dAddrs, `dSizes, `dTypes
      ensures Valid() && Synced(i) && types == old(types)[i := 0] && sizes == old(sizes)[i := 0]
      ensures old(Flushed()) ==> Flushed()
      ensures data == Without(old(data), i, MAXFILE) && inds == old(inds) - {i}
      ensures forall j: nat, z: nat | j != i :: Contents(disk, data, j, z) == Contents(old(disk), old(data), j, z)
      ensures Logs(old(disk), disk, old(logged), logged, {})
      ensures InodesLogged(g, old(dAddrs), old(dSizes), old(dTypes), dAddrs, dSizes, dTypes, logged)
    {
      hide Logs;
      hide FsOk;
      FileRange(g, sizes, types, data, inds, i, 0, 0);
      hide FilesOk;
      hide Without;
      WithoutFilesOk(g, sizes, types, data, inds, i, 0);
      Itrunc(i);
      LogsAlso(old(disk), disk, old(logged), logged, {}, {IBlock(g, i)});
      types := types[i := 0];
      Iupdate(i);
      assert old(Flushed()) ==> dAddrs == addrs && dSizes == sizes && dTypes == types;
    }

    /** ialloc(): the lowest free inode from 1 on, now of type `t`, or 0 if there is none. */
    method Ialloc(t: nat) returns (inum: nat)
      requires Valid() && t != 0 && dTypes == types
      modifies `types, `dTypes, `dAddrs, `dSizes, `logged
      ensures Valid()
      ensures inum == 0 ==> types == old(types) && forall i | 1 <= i < g.ninodes :: types[i] != 0
      ensures inum != 0 ==>
        1 <= inum < g.ninodes && old(types)[inum] == 0 && types == old(types)[inum := t] && Synced(inum)
      ensures inum != 0 ==> sizes[inum] == 0 && forall i | 1 <= i < inum :: types[i] != 0
      ensures old(Flushed()) ==> Flushed()
      ensures old(logged) <= logged
      ensures InodesLogged(g, old(dAddrs), old(dSizes), old(dTypes), dAddrs, dSizes, dTypes, logged)
    {
      hide FsOk;
      inum := 1;
      while inum < g.ninodes
        invariant 1 <= inum && forall i | 1 <= i < inum && i < g.ninodes :: types[i] != 0
      {
        if dTypes[inum] == 0 {
          types := types[inum := t];
          Iupdate(inum);
          assert old(Flushed()) ==> dAddrs == addrs && dSizes == sizes;
          return;
        }
        inum := inum + 1;
      }
      return 0;
    }

    /** What log_write() has to cover. */
    ghost function OnDisk(): Image
      reads this
    {
      Image(disk, dAddrs, dSizes, dTypes)
    }

    /** One transaction of filewrite(): begin_op(), writei() and end_op(). */
    method WriteChunk(i: nat, src: seq<nat>, off: nat, n: nat) returns (r: int, ghost w: nat)
      requires Valid() && i < g.ninodes && types[i] != 0 && |src| <= n <= MAX_CHUNK && off < UINT_LIMIT
      modifies `disk, `addrs, `sizes, `used, `data, `inds, `logged, `dAddrs, `dSizes, `dTypes
      ensures Valid()
      ensures Cheap(g, logged)
      ensures r == -1 <==> BadRange(old(sizes)[i], off, n)
      ensures r == -1 ==> disk == old(disk) && data == old(data) && sizes == old(sizes) && logged == {}
      ensures r != -1 ==> 0 <= r <= w <= |src| && (r == n ==> w == n) && (|src| == n ==> r == w)
      ensures r != -1 ==> AllWritten(|src|, n, r, w) || Full(g, used)
      ensures r != -1 ==> FileWritten(old(disk), old(data), old(sizes), disk, data, sizes, i, off, r, src[..w])
      ensures Covers(g, old(OnDisk()), OnDisk(), logged, if r == -1 then {} else Torn(data, i, off, r, w))
    {
      hide FsOk;
      hide Full;
      hide FilesOk;
      hide FileWritten;
      hide Logs;
      hide InodesLogged;
      hide Torn;
      logged := {};
      r, w := Writei(i, src, off, n);
      assert logged - {} == logged;
    }

    /** The next transaction of a write of `src` at `off0`, of which `done` bytes are written. */
    method NextChunk(i: nat, src: seq<nat>, off0: nat, n: nat, done: nat, ghost x0: Image, ghost m0: map<nat, nat>,
                     ghost z0: seq<nat>, ghost images: seq<Image>, ghost log: seq<set<nat>>)
      returns (r: int, ghost w: nat)
      requires Valid() && i < g.ninodes && types[i] != 0 && done <= |src| <= n && done < n && off0 + done < UINT_LIMIT
      requires SoFar(x0.disk, m0, z0, disk, data, sizes, i, off0, done, src[..done])
      requires Transactions(g, x0, OnDisk(), images, log, {})
      modifies `disk, `addrs, `sizes, `used, `data, `inds, `logged, `dAddrs, `dSizes, `dTypes
      ensures Valid()
      ensures r == -1 <==> BadRange(old(sizes)[i], off0 + done, Chunk(n - done))
      ensures r == -1 ==> SoFar(x0.disk, m0, z0, disk, data, sizes, i, off0, done, src[..done]) && sizes == old(sizes)
      ensures r != -1 ==> 0 <= r <= w <= Piece(|src|, n, done) && (r == Chunk(n - done) ==> w == r)
      ensures r != -1 ==> AllWritten(Piece(|src|, n, done), Chunk(n - done), r, w) || Full(g, used)
      ensures r != -1 ==> SoFar(x0.disk, m0, z0, disk, data, sizes, i, off0, done + r, src[..done + w])
      ensures r != -1 ==> off0 + done + r <= sizes[i] <= MAXFILE * BSIZE
      ensures Transactions(g, x0, OnDisk(), images + [OnDisk()], log + [logged],
                           if r == -1 then {} else Torn(data, i, off0, done + r, done + w))
      ensures r == Chunk(n - done) ==> Torn(data, i, off0, done + r, done + w) == {}
    {
      hide FsOk;
      hide SoFar;
      hide BadRange;
      hide Full;
      hide AllWritten;
      hide Covers;
      hide Cheap;
      hide Torn;
      hide Transactions;
      hide FileWritten;
      FileRange(g, sizes, types, data, inds, i, 0, 0);
      hide FilesOk;
      var n1 := Chunk(n - done);
      var piece := if |src| < done + n1 then src[done..] else src[done..done + n1];
      ghost var x1, m1, z1 := OnDisk(), data, sizes;
      r, w := WriteChunk(i, piece, off0 + done, n1);
      NextTransaction(g, x0, x1, OnDisk(), images, log, logged,
                      if r == -1 then {} else Torn(data, i, off0 + done, r, w));
      if r != -1 {
        TornThere(data, i, off0, done, r, w);
        ChunkWritten(x0.disk, m0, z0, x1.disk, m1, z1, disk, data, sizes, i, off0, src, done, r, w, piece);
        FileRange(g, sizes, types, data, inds, i, 0, 0);
      }
    }

    /** The FD_INODE branch of filewrite(): at most MAX_CHUNK bytes per transaction.  `log` lists the blocks that each
        transaction logged: all that it changed from one image to the next, and no more than the MAXOPBLOCKS that
        begin_op() reserves.  It stops early only where the file cannot be extended, the disk is full or the source
        cannot be read. */
    method Filewrite(i: nat, src: seq<nat>, off0: nat, n: nat)
      returns (ret: int, off: nat, ghost w: nat, ghost images: seq<Image>, ghost log: seq<set<nat>>)
      requires Valid() && i < g.ninodes && types[i] != 0 && |src| <= n < 0x8000_0000 && off0 < UINT_LIMIT
      modifies `disk, `addrs, `sizes, `used, `data, `inds, `logged, `dAddrs, `dSizes, `dTypes
      ensures Valid()
      ensures ret == (if off - off0 == n then n else -1) && off0 <= off <= off0 + w && w <= |src|
      ensures n > 0 && (off0 > old(sizes)[i] || off0 + n > MAXFILE * BSIZE) ==> ret == -1
      ensures WriteEnd(old(sizes)[i], off0, n, |src|, off, w, Full(g, used))
      ensures SoFar(old(disk), old(data), old(sizes), disk, data, sizes, i, off0, off - off0, src[..w])
      ensures Transactions(g, old(OnDisk()), OnDisk(), images, log, Torn(data, i, off0, off - off0, w))
    {
      hide FsOk;
      hide SoFar;
      hide BadRange;
      hide Full;
      hide TooFar;
      hide WriteEnd;
      hide AllWritten;
      hide Torn;
      hide Transactions;
      ghost var x0, m0, z0 := OnDisk(), data, sizes;
      NoTransactions(g, x0);
      StartWrite(g, disk, data, inds, sizes, types, i, off0);
      FileRange(g, sizes, types, data, inds, i, 0, 0);
      hide FilesOk;
      var done := 0;
      off, w, images, log := off0, 0, [x0], [];
      assert src[..0] == [];
      while done < n
        invariant Valid() && done == off - off0 == w <= |src| && done <= n
        invariant off < UINT_LIMIT && i < |sizes| && sizes[i] <= MAXFILE * BSIZE
        invariant if done == 0 then sizes == z0 else off0 <= z0[i] && off <= sizes[i]
        invariant SoFar(x0.disk, m0, z0, disk, data, sizes, i, off0, done, src[..w])
        invariant Transactions(g, x0, OnDisk(), images, log, {})
      {
        var n1 := Chunk(n - done);
        ghost var z1 := sizes;
        var r;
        ghost var w1;
        r, w1 := NextChunk(i, src, off0, n, done, x0, m0, z0, images, log);
        images, log := images + [OnDisk()], log + [logged];
        if r > 0 {
          off := off + r;
        }
        w := if r == -1 then w else done + w1;
        if r != n1 {
          ChunkStops(z0[i], z1[i], off0, n, |src|, done, Piece(|src|, n, done), r, w1, Full(g, used));
          TornThere(data, i, off0, done, 0, 0);
          return -1, off, w, images, log;
        }
        ChunkStart(x0.disk, m0, z0, disk, data, sizes, i, off0, done + r, src[..w]);
        done := done + r;
      }
      TornThere(data, i, off0, done, 0, 0);
      WriteComplete(z0[i], off0, n, |src|, off, w, Full(g, used));
      ret := n;
    }
  }
}
