/** What a sequence of block writes by writei() of kernel/fs.c does to the file-system state. */
module FsWrite {
  import opened FsBlock
  import opened FsState
  import opened FsMap

  /** Bytes [off, off + |src|) of file `i` are now `src`; every other byte of every file is as it was. */
  ghost predicate BytesWritten(d0: seq<Block>, m0: map<nat, nat>, d: seq<Block>, m: map<nat, nat>,
                               i: nat, off: nat, src: seq<nat>)
  {
    forall j: nat, p: nat {:trigger Byte(d, m, j, p)} ::
      Byte(d, m, j, p) == if j == i && off <= p < off + |src| then src[p - off] else Byte(d0, m0, j, p)
  }

  lemma BytesNone(d0: seq<Block>, m0: map<nat, nat>, d: seq<Block>, m: map<nat, nat>, i: nat, off: nat)
    requires SameBytes(d0, m0, d, m)
    ensures BytesWritten(d0, m0, d, m, i, off, [])
  {
    hide Byte;
  }

  lemma BytesAppend(d0: seq<Block>, m0: map<nat, nat>, d1: seq<Block>, m1: map<nat, nat>,
                    d2: seq<Block>, m2: map<nat, nat>, i: nat, off: nat, a: seq<nat>, b: seq<nat>)
    requires BytesWritten(d0, m0, d1, m1, i, off, a) && BytesWritten(d1, m1, d2, m2, i, off + |a|, b)
    ensures BytesWritten(d0, m0, d2, m2, i, off, a + b)
  {
    hide Byte;
    forall j: nat, p: nat
      ensures Byte(d2, m2, j, p) == if j == i && off <= p < off + |a + b| then (a + b)[p - off] else Byte(d0, m0, j, p)
    {
      assert Byte(d1, m1, j, p) == if j == i && off <= p < off + |a| then a[p - off] else Byte(d0, m0, j, p);
    }
  }

  /** File `i` has gained blocks in [lo, hi) only, and has all of these. */
  ghost predicate Grew(m0: map<nat, nat>, m: map<nat, nat>, i: nat, lo: nat, hi: nat)
  {
    && lo <= hi <= MAXFILE
    && (forall k | k in m0 :: k in m && m[k] == m0[k])
    && (forall k | k in m && k !in m0 :: Key(i, lo) <= k < Key(i, hi))
    && (forall k | Key(i, lo) <= k < Key(i, hi) :: k in m)
  }

  ghost predicate IndGrew(inds0: map<nat, nat>, inds: map<nat, nat>, i: nat)
  {
    inds == inds0 || (i !in inds0 && i in inds && inds == inds0[i := inds[i]])
  }

  lemma GrewStep(m0: map<nat, nat>, m: map<nat, nat>, i: nat, lo: nat, hi: nat, r: nat)
    requires Grew(m0, m, i, lo, hi) && hi < MAXFILE
    requires Key(i, hi) in m ==> m[Key(i, hi)] == r
    ensures Grew(m0, m[Key(i, hi) := r], i, lo, hi + 1)
  {
  }

  /** The blocks allocated between the two states. */
  ghost function NewBlocks(m0: map<nat, nat>, m: map<nat, nat>, inds0: map<nat, nat>, inds: map<nat, nat>,
                           i: nat): set<nat>
  {
    (set k | k in m && k !in m0 :: m[k]) + (if i in inds && i !in inds0 then {inds[i]} else {})
  }

  /** The disk blocks of blocks [lo, hi) of file `i`. */
  ghost function Touched(m: map<nat, nat>, i: nat, lo: nat, hi: nat): set<nat>
  {
    set k | Key(i, lo) <= k < Key(i, hi) && k in m :: m[k]
  }

  ghost function Indirect(inds: map<nat, nat>, i: nat): set<nat>
  {
    if i in inds then {inds[i]} else {}
  }

  /** Just the new blocks became used; only written blocks, bitmap blocks of new blocks and the indirect
      block were logged. */
  ghost predicate Charged(g: Layout, s0: Fs, s: Fs, i: nat, lo: nat, hi: nat)
  {
    var gained := NewBlocks(s0.data, s.data, s0.inds, s.inds, i);
    && s.used == s0.used + gained
    && gained !! s0.used
    && s0.logged <= s.logged
    && s.logged <= s0.logged + Touched(s.data, i, lo, hi) + BBlocks(g, gained) + Indirect(s.inds, i)
  }

  lemma NewBlocksStep(s0: Fs, s: Fs, s1: Fs, i: nat, lo: nat, hi: nat, r: nat)
    requires Grew(s0.data, s.data, i, lo, hi) && IndGrew(s0.inds, s.inds, i) && IndGrew(s.inds, s1.inds, i)
    requires s1.data == s.data || (Key(i, hi) !in s.data && s1.data == s.data[Key(i, hi) := r])
    ensures NewBlocks(s0.data, s1.data, s0.inds, s1.inds, i)
         == NewBlocks(s0.data, s.data, s0.inds, s.inds, i) + Fresh(s, s1, i, hi)
  {
  }

  lemma BBlocksUnion(g: Layout, a: set<nat>, b: set<nat>)
    ensures BBlocks(g, a + b) == BBlocks(g, a) + BBlocks(g, b)
  {
  }

  lemma TouchedMore(m: map<nat, nat>, i: nat, lo: nat, hi: nat, r: nat)
    requires lo <= hi && (Key(i, hi) in m ==> m[Key(i, hi)] == r)
    ensures Touched(m[Key(i, hi) := r], i, lo, hi + 1) == Touched(m, i, lo, hi) + {r}
  {
    var m1 := m[Key(i, hi) := r];
    assert m1[Key(i, hi)] == r;
    forall b | b in Touched(m, i, lo, hi) + {r}
      ensures b in Touched(m1, i, lo, hi + 1)
    {
      if b != r {
        var k :| Key(i, lo) <= k < Key(i, hi) && k in m && m[k] == b;
        assert m1[k] == b;
      }
    }
  }

  /** One more call of bmap() is paid for. */
  lemma ChargedStep(g: Layout, s0: Fs, s: Fs, s1: Fs, i: nat, lo: nat, hi: nat, r: nat)
    requires Charged(g, s0, s, i, lo, hi) && Accounted(g, s, s1, i, hi)
    requires Grew(s0.data, s.data, i, lo, hi) && IndGrew(s0.inds, s.inds, i) && IndGrew(s.inds, s1.inds, i)
    requires s1.data == s.data || (Key(i, hi) !in s.data && s1.data == s.data[Key(i, hi) := r])
    requires forall k | k in s0.data :: s0.data[k] in s0.used
    ensures Touched(s1.data, i, lo, hi) == Touched(s.data, i, lo, hi)
    ensures s1.used == s0.used + NewBlocks(s0.data, s1.data, s0.inds, s1.inds, i)
    ensures NewBlocks(s0.data, s1.data, s0.inds, s1.inds, i) !! s0.used
    ensures s0.logged <= s1.logged
    ensures s1.logged <= s0.logged + Touched(s.data, i, lo,
                                             hi) + (if Key(i, hi) in s1.data then {s1.data[Key(i, hi)]} else {})
                       + BBlocks(g, NewBlocks(s0.data, s1.data, s0.inds, s1.inds, i)) + Indirect(s1.inds, i)
  {
    hide NewBlocks;
    hide BBlocks;
    hide Touched;
    NewBlocksStep(s0, s, s1, i, lo, hi, r);
    BBlocksUnion(g, NewBlocks(s0.data, s.data, s0.inds, s.inds, i), Fresh(s, s1, i, hi));
    TouchedSame(s.data, s1.data, i, lo, hi, r);
    hide Grew;
    hide Key;
  }

  lemma TouchedSame(m: map<nat, nat>, m1: map<nat, nat>, i: nat, lo: nat, hi: nat, r: nat)
    requires m1 == m || m1 == m[Key(i, hi) := r]
    ensures Touched(m1, i, lo, hi) == Touched(m, i, lo, hi)
  {
    assert forall k | Key(i, lo) <= k < Key(i, hi) :: k in m1 <==> k in m;
  }

  /** File `i` has been written: bytes, blocks, allocation and log. */
  ghost predicate Wrote(g: Layout, s0: Fs, s: Fs, i: nat, off: nat, src: seq<nat>, lo: nat, hi: nat)
  {
    && StateOk(g, s)
    && BytesWritten(s0.disk, s0.data, s.disk, s.data, i, off, src)
    && Grew(s0.data, s.data, i, lo, hi)
    && IndGrew(s0.inds, s.inds, i)
    && Charged(g, s0, s, i, lo, hi)
    && OtherInodes(s0.addrs, s.addrs, i)
  }

  lemma WroteAddrs(g: Layout, s0: Fs, s: Fs, i: nat, off: nat, src: seq<nat>, lo: nat, hi: nat)
    requires Wrote(g, s0, s, i, off, src, lo, hi) && i < |s0.addrs|
    ensures |s.addrs| == |s0.addrs| && s.addrs == s0.addrs[i := s.addrs[i]]
  {
    hide StateOk;
    hide BytesWritten;
    hide Grew;
    hide Charged;
  }

  lemma WroteNothing(g: Layout, s: Fs, i: nat, off: nat, lo: nat)
    requires StateOk(g, s) && lo <= MAXFILE
    ensures Wrote(g, s, s, i, off, [], lo, lo)
  {
    hide FsOk;
    hide BytesWritten;
    SameBytesAsSelf(s.disk, s.data);
    BytesNone(s.disk, s.data, s.disk, s.data, i, off);
    assert NewBlocks(s.data, s.data, s.inds, s.inds, i) == {};
  }

  /** bmap() found the disk full: nothing more is written, though an indirect block may be left behind. */
  lemma WroteNoSpace(g: Layout, s0: Fs, s: Fs, s1: Fs, i: nat, off: nat, src: seq<nat>, lo: nat, hi: nat)
    requires StateOk(g, s0) && Wrote(g, s0, s, i, off, src, lo, hi) && Mapped(g, s, s1, i, hi, 0)
    ensures Wrote(g, s0, s1, i, off, src, lo, hi)
  {
    hide FsOk;
    hide BytesWritten;
    hide SameBytes;
    hide Grew;
    hide Charged;
    hide Accounted;
    DataUsed(g, s0);
    BytesNone(s.disk, s.data, s1.disk, s1.data, i, off + |src|);
    BytesAppend(s0.disk, s0.data, s.disk, s.data, s1.disk, s1.data, i, off, src, []);
    assert src + [] == src;
    ChargedNoSpace(g, s0, s, s1, i, lo, hi);
  }

  lemma ChargedNoSpace(g: Layout, s0: Fs, s: Fs, s1: Fs, i: nat, lo: nat, hi: nat)
    requires Charged(g, s0, s, i, lo, hi) && Accounted(g, s, s1, i, hi)
    requires Grew(s0.data, s.data, i, lo, hi) && IndGrew(s0.inds, s.inds, i) && IndGrew(s.inds, s1.inds, i)
    requires s1.data == s.data && Key(i, hi) !in s.data
    requires forall k | k in s0.data :: s0.data[k] in s0.used
    ensures Charged(g, s0, s1, i, lo, hi)
  {
    hide NewBlocks;
    hide Touched;
    hide BBlocks;
    hide Grew;
    ChargedStep(g, s0, s, s1, i, lo, hi, 0);
  }

  lemma ChargedBlock(g: Layout, s0: Fs, s: Fs, s1: Fs, s2: Fs, i: nat, lo: nat, hi: nat, r: nat)
    requires Charged(g, s0, s, i, lo, hi) && Accounted(g, s, s1, i, hi)
    requires Grew(s0.data, s.data, i, lo, hi) && IndGrew(s0.inds, s.inds, i) && IndGrew(s.inds, s1.inds, i)
    requires s1.data == s.data[Key(i, hi) := r] && (Key(i, hi) in s.data ==> s1.data == s.data)
    requires forall k | k in s0.data :: s0.data[k] in s0.used
    requires s2.data == s1.data && s2.inds == s1.inds && s2.used == s1.used
    requires s2.logged == s1.logged || s2.logged == s1.logged + {r}
    ensures Charged(g, s0, s2, i, lo, hi + 1)
  {
    hide NewBlocks;
    hide Touched;
    hide BBlocks;
    assert lo <= hi;
    hide Grew;
    ChargedStep(g, s0, s, s1, i, lo, hi, r);
    TouchedMore(s.data, i, lo, hi, r);
    hide Key;
  }

  /** One block written: bmap() gave block `r`, and the buffer was patched and perhaps logged. */
  lemma WroteBlock(g: Layout, s0: Fs, s: Fs, s1: Fs, i: nat, off: nat, src: seq<nat>, lo: nat, hi: nat,
                   r: nat, piece: seq<nat>, log: bool)
    requires StateOk(g, s0) && Wrote(g, s0, s, i, off, src, lo, hi) && Mapped(g, s, s1, i, hi, r) && r != 0
    requires hi < MAXFILE && (off + |src|) / BSIZE == hi && (off + |src|) % BSIZE + |piece| <= BSIZE
    requires r < |s1.disk| && |s1.disk[r]| == BSIZE
    ensures Wrote(g, s0, s1.(disk := s1.disk[r := Patched(s1.disk[r], (off + |src|) % BSIZE, piece)],
                             logged := if log then s1.logged + {r} else s1.logged), i, off, src + piece, lo, hi + 1)
  {
    hide BytesWritten;
    hide SameBytes;
    hide Grew;
    hide Charged;
    hide Accounted;
    hide FsOk;
    hide Patched;
    hide Key;
    var at := off + |src|;
    var s2 := s1.(disk := s1.disk[r := Patched(s1.disk[r], at % BSIZE, piece)],
                  logged := if log then s1.logged + {r} else s1.logged);
    DataUsed(g, s0);
    PatchState(g, s1, i, at, r, piece);
    BlockBytes(s0.disk, s0.data, s.disk, s.data, s1.disk, s1.data, s2.disk, i, off, src, piece);
    GrewStep(s0.data, s.data, i, lo, hi, r);
    ChargedBlock(g, s0, s, s1, s2, i, lo, hi, r);
  }

  lemma BlockBytes(d0: seq<Block>, m0: map<nat, nat>, d: seq<Block>, m: map<nat, nat>, d1: seq<Block>, m1: map<nat,
                   nat>,
                   d2: seq<Block>, i: nat, off: nat, src: seq<nat>, piece: seq<nat>)
    requires BytesWritten(d0, m0, d, m, i, off, src) && SameBytes(d, m, d1, m1)
    requires BytesWritten(d1, m1, d2, m1, i, off + |src|, piece)
    ensures BytesWritten(d0, m0, d2, m1, i, off, src + piece)
  {
    hide BytesWritten;
    hide SameBytes;
    BytesNone(d, m, d1, m1, i, off + |src|);
    BytesAppend(d, m, d1, m1, d2, m1, i, off + |src|, [], piece);
    assert [] + piece == piece;
    BytesAppend(d0, m0, d, m, d2, m1, i, off, src, piece);
  }

  lemma PatchState(g: Layout, s: Fs, i: nat, at: nat, r: nat, piece: seq<nat>)
    requires StateOk(g, s) && at / BSIZE < MAXFILE && at % BSIZE + |piece| <= BSIZE
    requires Key(i, at / BSIZE) in s.data && s.data[Key(i, at / BSIZE)] == r && r < |s.disk| && |s.disk[r]| == BSIZE
    ensures FsOk(g, s.disk[r := Patched(s.disk[r], at % BSIZE, piece)], s.addrs, s.used, s.data, s.inds)
    ensures BytesWritten(s.disk, s.data, s.disk[r := Patched(s.disk[r], at % BSIZE, piece)], s.data, i, at, piece)
  {
    PatchOk(g, s.disk, s.addrs, s.used, s.data, s.inds, Key(i, at / BSIZE), Patched(s.disk[r], at % BSIZE, piece));
    PatchBytes(g, s.disk, s.used, s.data, s.inds, i, at, piece);
  }

  lemma DataUsed(g: Layout, s: Fs)
    requires StateOk(g, s)
    ensures forall k | k in s.data :: s.data[k] in s.used
  {
  }

  // ---- how much of the log one call of writei() can need ----

  lemma CardUnion(a: set<nat>, b: set<nat>)
    ensures |a + b| <= |a| + |b|
  {
    assert |a + b| + |a * b| == |a| + |b|;
  }

  lemma {:induction false} CardSubset(a: set<nat>, b: set<nat>)
    requires a <= b
    ensures |a| <= |b|
  {
    assert b == a + (b - a);
    assert |a + (b - a)| + |a * (b - a)| == |a| + |b - a|;
  }

  lemma {:induction false} TouchedCard(m: map<nat, nat>, i: nat, lo: nat, hi: nat)
    requires lo <= hi
    ensures |Touched(m, i, lo, hi)| <= hi - lo
    decreases hi - lo
  {
    if lo == hi {
      assert Touched(m, i, lo, hi) == {};
    } else {
      TouchedCard(m, i, lo, hi - 1);
      var last := if Key(i, hi - 1) in m then {m[Key(i, hi - 1)]} else {};
      assert Touched(m, i, lo, hi) <= Touched(m, i, lo, hi - 1) + last;
      CardSubset(Touched(m, i, lo, hi), Touched(m, i, lo, hi - 1) + last);
      CardUnion(Touched(m, i, lo, hi - 1), last);
    }
  }

  lemma {:induction false} BBlocksCard(g: Layout, blocks: set<nat>)
    ensures |BBlocks(g, blocks)| <= |blocks|
    decreases |blocks|
  {
    if blocks == {} {
      assert BBlocks(g, blocks) == {};
    } else {
      var b :| b in blocks;
      BBlocksCard(g, blocks - {b});
      assert blocks == (blocks - {b}) + {b};
      BBlocksUnion(g, blocks - {b}, {b});
      OneBlock(g, b);
      CardUnion(BBlocks(g, blocks - {b}), {BBlock(g, b)});
    }
  }

  lemma OneBitmapBlock(g: Layout, blocks: set<nat>)
    requires g.size <= BPB && forall b | b in blocks :: b < g.size
    ensures |BBlocks(g, blocks)| <= 1
  {
    CardSubset(BBlocks(g, blocks), {g.bmapstart});
  }

  /** The new blocks are blocks of the file from `lo1` on, and perhaps the indirect block. */
  lemma NewBlocksCard(s0: Fs, s: Fs, i: nat, lo: nat, lo1: nat, hi: nat)
    requires Grew(s0.data, s.data, i, lo, hi) && lo <= lo1 <= hi
    requires forall k | Key(i, lo) <= k < Key(i, lo1) :: k in s0.data
    ensures |NewBlocks(s0.data, s.data, s0.inds, s.inds, i)| <= hi - lo1 + 1
  {
    var d := set k | k in s.data && k !in s0.data :: s.data[k];
    var e := if i in s.inds && i !in s0.inds then {s.inds[i]} else {};
    assert d <= Touched(s.data, i, lo1, hi);
    CardSubset(d, Touched(s.data, i, lo1, hi));
    TouchedCard(s.data, i, lo1, hi);
    CardUnion(d, e);
  }

  lemma ChargedCard(g: Layout, s0: Fs, s: Fs, i: nat, lo: nat, hi: nat, inode: nat)
    requires Charged(g, s0, s, i, lo, hi) && lo <= hi
    ensures |s.logged + {inode} - s0.logged|
         <= (hi - lo) + |BBlocks(g, NewBlocks(s0.data, s.data, s0.inds, s.inds, i))| + 2
  {
    hide NewBlocks;
    hide Touched;
    hide BBlocks;
    var t, bb, x := Touched(s.data, i, lo, hi), BBlocks(g,
                                                        NewBlocks(s0.data, s.data, s0.inds, s.inds,
                                                                  i)), Indirect(s.inds, i);
    CardSubset(s.logged + {inode} - s0.logged, t + bb + x + {inode});
    CardUnion(t + bb + x, {inode});
    CardUnion(t + bb, x);
    CardUnion(t, bb);
    TouchedCard(s.data, i, lo, hi);
  }

  /** Writing at most three blocks' worth of bytes at any offset logs at most MAXOPBLOCKS blocks: up to
      four data blocks, four bitmap blocks, the indirect block and the inode's block.  It is the file having
      no hole below its size that saves the eleventh: a block written in part needs no allocation. */
  lemma TransactionBound(g: Layout, s0: Fs, s: Fs, i: nat, off: nat, n: nat, src: seq<nat>, hi: nat, inode: nat)
    requires Wrote(g, s0, s, i, off, src, off / BSIZE, hi)
    requires n <= 3 * BSIZE && hi <= (off + n + BSIZE - 1) / BSIZE
    requires off % BSIZE != 0 ==> Key(i, off / BSIZE) in s0.data
    ensures |s.logged + {inode} - s0.logged| <= 10
    ensures g.size <= BPB ==> |s.logged + {inode} - s0.logged| <= 7
  {
    hide FsOk;
    hide BytesWritten;
    hide NewBlocks;
    hide BBlocks;
    hide OtherInodes;
    UsedInRange(g, s);
    var lo, gained := off / BSIZE, NewBlocks(s0.data, s.data, s0.inds, s.inds, i);
    var lo1 := if off % BSIZE != 0 && lo < hi then lo + 1 else lo;
    NewBlocksCard(s0, s, i, lo, lo1, hi);
    BBlocksCard(g, gained);
    ChargedCard(g, s0, s, i, lo, hi, inode);
    if g.size <= BPB {
      assert gained <= s.used;
      OneBitmapBlock(g, gained);
    }
    BlockCount(off, n, lo, lo1, hi);
  }

  lemma BlockCount(off: nat, n: nat, lo: nat, lo1: nat, hi: nat)
    requires lo == off / BSIZE <= hi && n <= 3 * BSIZE && hi <= (off + n + BSIZE - 1) / BSIZE
    requires lo1 == if off % BSIZE != 0 && lo < hi then lo + 1 else lo
    ensures hi - lo <= 4 && (hi - lo) + (hi - lo1 + 1) + 2 <= 10
  {
  }

  lemma UsedInRange(g: Layout, s: Fs)
    requires StateOk(g, s)
    ensures forall b | b in s.used :: b < g.size
  {
  }
}
