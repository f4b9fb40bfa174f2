/** What bmap() of kernel/fs.c does to the file-system state: which blocks it allocates, which it logs,
    and that no byte of any file changes. */
module FsMap {
  import opened FsBlock
  import opened FsState

  /** The bitmap blocks that cover a set of blocks. */
  ghost function BBlocks(g: Layout, blocks: set<nat>): set<nat>
  {
    set b | b in blocks :: BBlock(g, b)
  }

  lemma SameBytesAsSelf(disk: seq<Block>, data: map<nat, nat>)
    ensures SameBytes(disk, data, disk, data)
  {
  }

  lemma MetaUsed(g: Layout, disk: seq<Block>, addrs: seq<seq<nat>>,
                 used: set<nat>, data: map<nat, nat>, inds: map<nat, nat>)
    requires FsOk(g, disk, addrs, used, data, inds)
    ensures Sized(g, disk) && Bitmap(g, disk, used)
    ensures 0 in used && forall b | 0 <= b < g.nmeta :: b in used
  {
  }

  /** What the inode says about block `bn` of file `i`. */
  lemma FileMap(g: Layout, disk: seq<Block>, addrs: seq<seq<nat>>,
                used: set<nat>, data: map<nat, nat>, inds: map<nat, nat>, i: nat, bn: nat)
    requires FsOk(g, disk, addrs, used, data, inds) && i < g.ninodes && bn < MAXFILE
    ensures |addrs| == g.ninodes && |addrs[i]| == NDIRECT + 1 && |disk| == g.size
    ensures Key(i, bn) in data ==> g.nmeta <= data[Key(i, bn)] < g.size && |disk[data[Key(i, bn)]]| == BSIZE
    ensures bn < NDIRECT ==> addrs[i][bn] == if Key(i, bn) in data then data[Key(i, bn)] else 0
    ensures addrs[i][NDIRECT] == if i in inds then inds[i] else 0
    ensures i in inds ==> g.nmeta <= inds[i] < g.size && |disk[inds[i]]| == BSIZE
    ensures NDIRECT <= bn && i in inds ==>
      Entry(disk[inds[i]], bn) == if Key(i, bn) in data then data[Key(i, bn)] else 0
    ensures NDIRECT <= bn && i !in inds ==> Key(i, bn) !in data
    ensures 0 < g.nmeta && g.size < UINT_LIMIT
  {
    assert Direct(addrs, i, NDIRECT) == if i in inds then inds[i] else 0;
    if bn < NDIRECT {
      assert Direct(addrs, i, bn) == Lookup(data, i, bn);
    } else {
      assert Lookup(data, i, bn) == if i in inds then Entry(disk[inds[i]], bn) else 0;
    }
  }

  /** Where the blocks of files are. */
  lemma Places(g: Layout, disk: seq<Block>, addrs: seq<seq<nat>>,
               used: set<nat>, data: map<nat, nat>, inds: map<nat, nat>)
    requires FsOk(g, disk, addrs, used, data, inds)
    ensures Sized(g, disk) && Bitmap(g, disk, used) && |disk| == g.size
    ensures forall t | t in data :: g.nmeta <= data[t] < g.size && data[t] in used
    ensures forall j | j in inds :: g.nmeta <= inds[j] < g.size && inds[j] in used
    ensures forall t, j | t in data && j in inds :: data[t] != inds[j]
  {
  }

  /** Allocating a block changes no byte, whether or not the block joins a file. */
  lemma AllocBytes(g: Layout, disk: seq<Block>, addrs: seq<seq<nat>>,
                   used: set<nat>, data: map<nat, nat>, inds: map<nat, nat>, b: nat)
    requires FsOk(g, disk, addrs, used, data, inds) && g.nmeta <= b < g.size && b !in used
    ensures BBlock(g, b) < |disk| && |disk[BBlock(g, b)]| == BSIZE
    ensures SameBytes(disk, data, Allocated(g, disk, b), data)
    ensures forall k: nat | k !in data :: SameBytes(disk, data, Allocated(g, disk, b), data[k := b])
  {
    hide FsOk;
    hide Allocated;
    hide Bitmap;
    hide SameBytes;
    hide Sized;
    Places(g, disk, addrs, used, data, inds);
    AllocatedBits(g, disk, used, b);
    var disk' := Allocated(g, disk, b);
    assert forall s | s in data :: data[s] < |disk| && disk'[data[s]] == disk[data[s]];
    AllocKeepsBytes(disk, disk', data, data);
    forall k: nat | k !in data
      ensures SameBytes(disk, data, disk', data[k := b])
    {
      AllocKeepsBytes(disk, disk', data, data[k := b]);
    }
  }

  lemma EntryBytes(g: Layout, disk: seq<Block>, addrs: seq<seq<nat>>,
                   used: set<nat>, data: map<nat, nat>, inds: map<nat, nat>, i: nat, k: nat, b: nat, block: Block)
    requires FsOk(g, disk, addrs, used, data, inds)
    requires i in inds && k !in data && g.nmeta <= b < g.size && b !in used
    ensures BBlock(g, b) < |disk| && |disk[BBlock(g, b)]| == BSIZE && inds[i] < |disk|
    ensures SameBytes(disk, data, Allocated(g, disk, b)[inds[i] := block], data[k := b])
  {
    hide FsOk;
    hide Allocated;
    hide Bitmap;
    hide SameBytes;
    hide Sized;
    Places(g, disk, addrs, used, data, inds);
    AllocatedBits(g, disk, used, b);
    var disk' := Allocated(g, disk, b)[inds[i] := block];
    assert forall t | t in data :: data[t] < |disk| && disk'[data[t]] == disk[data[t]];
    AllocKeepsBytes(disk, disk', data, data[k := b]);
  }

  /** The part of the state that allocation changes, as one value. */
  datatype Fs = Fs(disk: seq<Block>, addrs: seq<seq<nat>>, used: set<nat>,
                   data: map<nat, nat>, inds: map<nat, nat>, logged: set<nat>)

  ghost predicate StateOk(g: Layout, s: Fs)
  {
    FsOk(g, s.disk, s.addrs, s.used, s.data, s.inds)
  }

  /** What bmap() may do on the way from `s` to `s1`: nothing if the block is there; otherwise add the
      block and perhaps the indirect block, changing no byte of any file and no other inode.  The
      result 0 means that every block of the disk is in use. */
  ghost predicate Mapped(g: Layout, s: Fs, s1: Fs, i: nat, bn: nat, r: nat)
  {
    && StateOk(g, s1)
    && SameBytes(s.disk, s.data, s1.disk, s1.data)
    && (Key(i, bn) in s.data ==> s1 == s)
    && (if r == 0 then Key(i, bn) !in s.data && s1.data == s.data && (forall b | 0 <= b < g.size :: b in s1.used)
        else s1.data == s.data[Key(i, bn) := r])
    && (s1.inds == s.inds || (i !in s.inds && NDIRECT <= bn && i in s1.inds && s1.inds == s.inds[i := s1.inds[i]]))
    && OtherInodes(s.addrs, s1.addrs, i)
    && Accounted(g, s, s1, i, bn)
  }

  ghost predicate OtherInodes(addrs: seq<seq<nat>>, addrs1: seq<seq<nat>>, i: nat)
  {
    |addrs1| == |addrs| && forall j | 0 <= j < |addrs| && j != i :: addrs1[j] == addrs[j]
  }

  /** The blocks that one call of bmap() allocates. */
  ghost function Fresh(s: Fs, s1: Fs, i: nat, bn: nat): set<nat>
  {
    (if Key(i, bn) in s1.data && Key(i, bn) !in s.data then {s1.data[Key(i, bn)]} else {})
    + (if i in s1.inds && i !in s.inds then {s1.inds[i]} else {})
  }

  /** Just the fresh blocks become used, and only they, their bitmap blocks and the indirect block are logged. */
  ghost predicate Accounted(g: Layout, s: Fs, s1: Fs, i: nat, bn: nat)
  {
    && s1.used == s.used + Fresh(s, s1, i, bn)
    && Fresh(s, s1, i, bn) !! s.used
    && s.logged <= s1.logged
    && s1.logged <= s.logged + Fresh(s, s1, i, bn) + BBlocks(g, Fresh(s, s1, i, bn))
                  + (if NDIRECT <= bn && i in s1.inds then {s1.inds[i]} else {})
  }

  lemma MappedAlready(g: Layout, s: Fs, i: nat, bn: nat)
    requires StateOk(g, s) && Key(i, bn) in s.data && 0 < s.data[Key(i, bn)]
    ensures Mapped(g, s, s, i, bn, s.data[Key(i, bn)])
  {
    hide FsOk;
    hide SameBytes;
    SameBytesAsSelf(s.disk, s.data);
    assert s.data[Key(i, bn) := s.data[Key(i, bn)]] == s.data;
  }

  lemma MappedFull(g: Layout, s: Fs, i: nat, bn: nat)
    requires StateOk(g, s) && Key(i, bn) !in s.data && forall b | 0 <= b < g.size :: b in s.used
    ensures Mapped(g, s, s, i, bn, 0)
  {
    hide FsOk;
    hide SameBytes;
    SameBytesAsSelf(s.disk, s.data);
  }

  lemma OneBlock(g: Layout, b: nat)
    ensures BBlocks(g, {b}) == {BBlock(g, b)}
  {
  }

  lemma MappedDirect(g: Layout, s: Fs, i: nat, bn: nat, b: nat)
    requires StateOk(g, s) && i < g.ninodes && bn < NDIRECT && Key(i, bn) !in s.data
    requires g.nmeta <= b < g.size && b !in s.used && |s.addrs| == g.ninodes && |s.addrs[i]| == NDIRECT + 1
    requires 0 < b && BBlock(g, b) < |s.disk| == g.size && |s.disk[BBlock(g, b)]| == BSIZE
    ensures Mapped(g, s, Fs(Allocated(g, s.disk, b), SetAddr(s.addrs, i, bn, b), s.used + {b},
                            s.data[Key(i, bn) := b], s.inds, s.logged + {BBlock(g, b), b}), i, bn, b)
  {
    hide FsOk;
    hide SameBytes;
    AllocDirect(g, s.disk, s.addrs, s.used, s.data, s.inds, i, bn, b);
    AllocBytes(g, s.disk, s.addrs, s.used, s.data, s.inds, b);
    OneBlock(g, b);
    hide Allocated;
    hide BBlocks;
  }

  /** An indirect block, fresh and empty, has been given to inode `i`. */
  ghost predicate IndAdded(g: Layout, s: Fs, s1: Fs, i: nat, b: nat)
  {
    && StateOk(g, s1)
    && SameBytes(s.disk, s.data, s1.disk, s1.data)
    && s1.data == s.data && i !in s.inds && s1.inds == s.inds[i := b]
    && b !in s.used && s1.used == s.used + {b} && s1.logged == s.logged + {BBlock(g, b), b}
    && OtherInodes(s.addrs, s1.addrs, i)
  }

  lemma AddInd(g: Layout, s: Fs, i: nat, b: nat)
    requires StateOk(g, s) && i < g.ninodes && i !in s.inds
    requires g.nmeta <= b < g.size && b !in s.used && |s.addrs| == g.ninodes && |s.addrs[i]| == NDIRECT + 1
    requires BBlock(g, b) < |s.disk| == g.size && |s.disk[BBlock(g, b)]| == BSIZE
    ensures IndAdded(g, s, Fs(Allocated(g, s.disk, b), SetAddr(s.addrs, i, NDIRECT, b), s.used + {b},
                              s.data, s.inds[i := b], s.logged + {BBlock(g, b), b}), i, b)
  {
    hide FsOk;
    hide SameBytes;
    AllocInd(g, s.disk, s.addrs, s.used, s.data, s.inds, i, b);
    AllocBytes(g, s.disk, s.addrs, s.used, s.data, s.inds, b);
  }

  lemma MappedEntry(g: Layout, s: Fs, i: nat, bn: nat, b: nat)
    requires StateOk(g, s) && i < g.ninodes && NDIRECT <= bn < MAXFILE && i in s.inds && Key(i, bn) !in s.data
    requires g.nmeta <= b < g.size < UINT_LIMIT && b !in s.used && 0 < b
    requires BBlock(g, b) < |s.disk| == g.size && |s.disk[BBlock(g, b)]| == BSIZE
    requires s.inds[i] < |s.disk| && |Allocated(g, s.disk, b)[s.inds[i]]| == BSIZE
    ensures var disk1 := Allocated(g, s.disk, b);
      Mapped(g, s, Fs(disk1[s.inds[i] := PutWord(disk1[s.inds[i]], bn - NDIRECT, b)], s.addrs, s.used + {b},
                      s.data[Key(i, bn) := b], s.inds, s.logged + {BBlock(g, b), b} + {s.inds[i]}), i, bn, b)
  {
    hide FsOk;
    hide SameBytes;
    hide Allocated;
    hide PutWord;
    var disk1 := Allocated(g, s.disk, b);
    AllocEntry(g, s.disk, s.addrs, s.used, s.data, s.inds, i, bn, b);
    EntryBytes(g, s.disk, s.addrs, s.used, s.data, s.inds, i, Key(i, bn), b,
               PutWord(disk1[s.inds[i]], bn - NDIRECT, b));
    OneBlock(g, b);
    hide BBlocks;
  }

  lemma SameBytesTrans(d: seq<Block>, m: map<nat, nat>, d1: seq<Block>, m1: map<nat, nat>, d2: seq<Block>, m2: map<nat,
                       nat>)
    requires SameBytes(d, m, d1, m1) && SameBytes(d1, m1, d2, m2)
    ensures SameBytes(d, m, d2, m2)
  {
    hide Byte;
    forall j: nat, p: nat
      ensures Byte(d2, m2, j, p) == Byte(d, m, j, p)
    {
      assert Byte(d2, m2, j, p) == Byte(d1, m1, j, p);
    }
  }

  lemma AccountedAfterInd(g: Layout, s: Fs, s1: Fs, s2: Fs, i: nat, bn: nat, b: nat)
    requires NDIRECT <= bn && Key(i, bn) !in s.data && s1.data == s.data && i !in s.inds && s1.inds == s.inds[i := b]
    requires b !in s.used && s1.used == s.used + {b} && s1.logged == s.logged + {BBlock(g, b), b}
    requires Accounted(g, s1, s2, i, bn) && s2.inds == s1.inds
    ensures Accounted(g, s, s2, i, bn)
  {
    assert Fresh(s, s2, i, bn) == Fresh(s1, s2, i, bn) + {b};
    assert BBlocks(g, Fresh(s, s2, i, bn)) == BBlocks(g, Fresh(s1, s2, i, bn)) + {BBlock(g, b)};
  }

  lemma MappedAfterInd(g: Layout, s: Fs, s1: Fs, s2: Fs, i: nat, bn: nat, b: nat, r: nat)
    requires NDIRECT <= bn && Key(i, bn) !in s.data
    requires IndAdded(g, s, s1, i, b) && Mapped(g, s1, s2, i, bn, r)
    ensures Mapped(g, s, s2, i, bn, r)
  {
    hide FsOk;
    hide SameBytes;
    hide Accounted;
    SameBytesTrans(s.disk, s.data, s1.disk, s1.data, s2.disk, s2.data);
    assert i in s1.inds && s2.inds == s1.inds;
    AccountedAfterInd(g, s, s1, s2, i, bn, b);
  }
}
