/** The file-system state of kernel/fs.c as values: the free-block bitmap, the inodes' block
    addresses, and the map from files to blocks that they stand for.

  `used` is the set of blocks whose bitmap bit is set, `data` maps a block of a file, numbered by
  Key(inode, block of the file), to a disk block, and `inds` maps an inode to its indirect block.
 */
module FsState {
  import opened FsBlock

  /** The superblock: [ boot, super, log | inodes | bitmap | data ]; data blocks start at nmeta. */
  datatype Layout = Layout(size: nat, ninodes: nat, inodestart: nat, bmapstart: nat, nmeta: nat)

  const IPB: nat := 16  // inodes per block: BSIZE / sizeof(struct dinode)

  ghost predicate LayoutOk(g: Layout)
  {
    && 0 < g.inodestart
    && g.inodestart + g.ninodes / IPB < g.bmapstart
    && g.bmapstart + g.size / BPB < g.nmeta <= g.size < UINT_LIMIT
  }

  /** BBLOCK and IBLOCK of kernel/fs.h. */
  function BBlock(g: Layout, b: nat): nat
  {
    b / BPB + g.bmapstart
  }

  function IBlock(g: Layout, inum: nat): nat
  {
    inum / IPB + g.inodestart
  }

  ghost predicate Sized(g: Layout, disk: seq<Block>)
  {
    LayoutOk(g) && |disk| == g.size && forall b | 0 <= b < |disk| :: |disk[b]| == BSIZE
  }

  /** Bit `b` of the bitmap. */
  predicate Bit(g: Layout, disk: seq<Block>, b: nat)
    requires b / BPB + g.bmapstart < |disk| && |disk[BBlock(g, b)]| == BSIZE
  {
    BitAt(disk[BBlock(g, b)], b % BPB)
  }

  ghost predicate Bitmap(g: Layout, disk: seq<Block>, used: set<nat>)
    requires Sized(g, disk)
  {
    && (forall b | b in used :: b < g.size)
    && (forall b | 0 <= b < g.size :: b in used <==> Bit(g, disk, b))
  }

  /** Ownership: a block is in use exactly when it is metadata or exactly one inode slot names it. */
  ghost predicate Own(g: Layout, used: set<nat>, data: map<nat, nat>, inds: map<nat, nat>)
  {
    && (forall b | 0 <= b < g.nmeta :: b in used)
    && (forall s | s in data :: g.nmeta <= data[s] && data[s] in used)
    && (forall i | i in inds :: g.nmeta <= inds[i] && inds[i] in used)
    && (forall s, t | s in data && t in data && s != t :: data[s] != data[t])
    && (forall i, j | i in inds && j in inds && i != j :: inds[i] != inds[j])
    && (forall s, i | s in data && i in inds :: data[s] != inds[i])
    && (forall b | b in used && g.nmeta <= b :: b in data.Values || b in inds.Values)
  }

  function Direct(addrs: seq<seq<nat>>, i: nat, k: nat): nat
    requires i < |addrs| && k < |addrs[i]|
  {
    addrs[i][k]
  }

  /** ip->addrs[k] = b for the inode i. */
  function SetAddr(addrs: seq<seq<nat>>, i: nat, k: nat, b: nat): (r: seq<seq<nat>>)
    requires i < |addrs| && k < |addrs[i]|
    ensures |r| == |addrs| && forall j | 0 <= j < |addrs| :: |r[j]| == |addrs[j]|
    ensures forall j, l {:trigger Direct(r, j, l)} | 0 <= j < |addrs| && 0 <= l < |addrs[j]| ::
      Direct(r, j, l) == if j == i && l == k then b else Direct(addrs, j, l)
  {
    var row: seq<nat> := addrs[i][k := b];
    addrs[i := row]
  }

  ghost predicate Shape(g: Layout, addrs: seq<seq<nat>>)
  {
    |addrs| == g.ninodes && forall i | 0 <= i < |addrs| :: |addrs[i]| == NDIRECT + 1
  }

  /** The entry of an indirect block for block `bn` of the file. */
  function Entry(block: Block, bn: nat): nat
    requires |block| == BSIZE && NDIRECT <= bn < MAXFILE
  {
    WordAt(block, bn - NDIRECT)
  }

  /** One number for block `bn` of inode `i`. */
  function Key(i: nat, bn: nat): (k: nat)
  {
    MAXFILE * i + bn
  }

  ghost function Lookup(data: map<nat, nat>, i: nat, bn: nat): nat
  {
    if Key(i, bn) in data then data[Key(i, bn)] else 0
  }

  /** The inodes' addresses and the indirect blocks spell out `data` and `inds`; 0 means no block. */
  ghost predicate Inodes(g: Layout, disk: seq<Block>, addrs: seq<seq<nat>>,
                         data: map<nat, nat>, inds: map<nat, nat>)
    requires Sized(g, disk) && Shape(g, addrs)
  {
    && (forall s | s in data :: s < Key(g.ninodes, 0) && 0 < data[s])
    && (forall i | i in inds :: i < g.ninodes && 0 < inds[i] < g.size)
    && (forall i, k {:trigger Direct(addrs, i, k)} | 0 <= i < g.ninodes && 0 <= k < NDIRECT ::
          Direct(addrs, i, k) == Lookup(data, i, k))
    && (forall i | 0 <= i < g.ninodes :: Direct(addrs, i, NDIRECT) == if i in inds then inds[i] else 0)
    && (forall i, bn {:trigger Lookup(data, i, bn)} | 0 <= i < g.ninodes && NDIRECT <= bn < MAXFILE ::
          Lookup(data, i, bn) == if i in inds then Entry(disk[inds[i]], bn) else 0)
  }

  // ---- the bitmap ----

  lemma MarkUsed(g: Layout, disk: seq<Block>, used: set<nat>, b: nat)
    requires Sized(g, disk) && Bitmap(g, disk, used) && b < g.size
    ensures BBlock(g, b) < g.nmeta
    ensures Sized(g, disk[BBlock(g, b) := SetBit(disk[BBlock(g, b)], b % BPB)])
    ensures Bitmap(g, disk[BBlock(g, b) := SetBit(disk[BBlock(g, b)], b % BPB)], used + {b})
  {
    var disk' := disk[BBlock(g, b) := SetBit(disk[BBlock(g, b)], b % BPB)];
    forall c | 0 <= c < g.size
      ensures Bit(g, disk', c) <==> c == b || Bit(g, disk, c)
    {
      if c / BPB == b / BPB {
        BitUpdate(disk[BBlock(g, b)], b % BPB, c % BPB);
        assert c % BPB == b % BPB <==> c == b;
      }
    }
  }

  lemma MarkFree(g: Layout, disk: seq<Block>, used: set<nat>, b: nat)
    requires Sized(g, disk) && Bitmap(g, disk, used) && b < g.size
    ensures BBlock(g, b) < g.nmeta
    ensures Sized(g, disk[BBlock(g, b) := ClearBit(disk[BBlock(g, b)], b % BPB)])
    ensures Bitmap(g, disk[BBlock(g, b) := ClearBit(disk[BBlock(g, b)], b % BPB)], used - {b})
  {
    var disk' := disk[BBlock(g, b) := ClearBit(disk[BBlock(g, b)], b % BPB)];
    forall c | 0 <= c < g.size
      ensures Bit(g, disk', c) <==> c != b && Bit(g, disk, c)
    {
      if c / BPB == b / BPB {
        BitUpdate(disk[BBlock(g, b)], b % BPB, c % BPB);
        assert c % BPB == b % BPB <==> c == b;
      }
    }
  }

  /** Writing a data block leaves the bitmap alone. */
  lemma DataKeepsBitmap(g: Layout, disk: seq<Block>, used: set<nat>, b: nat, block: Block)
    requires Sized(g, disk) && Bitmap(g, disk, used) && g.nmeta <= b < g.size && |block| == BSIZE
    ensures Sized(g, disk[b := block]) && Bitmap(g, disk[b := block], used)
  {
    assert forall c | 0 <= c < g.size :: BBlock(g, c) < g.nmeta;
  }

  /** The bit that balloc() tests while scanning the block that starts at `b`. */
  lemma ScanBit(g: Layout, disk: seq<Block>, used: set<nat>, b: nat, bi: nat)
    requires Sized(g, disk) && Bitmap(g, disk, used) && b % BPB == 0 && bi < BPB && b + bi < g.size
    ensures BBlock(g, b) < |disk| && |disk[BBlock(g, b)]| == BSIZE
    ensures BitAt(disk[BBlock(g, b)], bi) <==> b + bi in used
  {
    assert (b + bi) / BPB == b / BPB && (b + bi) % BPB == bi;
    assert b + bi in used <==> Bit(g, disk, b + bi);
  }

  // ---- ownership ----

  lemma OwnAddData(g: Layout, used: set<nat>, data: map<nat, nat>, inds: map<nat, nat>, s: nat, b: nat)
    requires Own(g, used, data, inds) && s !in data && b !in used && g.nmeta <= b
    ensures Own(g, used + {b}, data[s := b], inds)
  {
    var data' := data[s := b];
    forall c | c in used + {b} && g.nmeta <= c
      ensures c in data'.Values || c in inds.Values
    {
      if c == b {
        assert data'[s] == c;
      } else if c in data.Values {
        var t :| t in data && data[t] == c;
        assert data'[t] == c;
      }
    }
  }

  lemma OwnAddInd(g: Layout, used: set<nat>, data: map<nat, nat>, inds: map<nat, nat>, i: nat, b: nat)
    requires Own(g, used, data, inds) && i !in inds && b !in used && g.nmeta <= b
    ensures Own(g, used + {b}, data, inds[i := b])
  {
    var inds' := inds[i := b];
    forall c | c in used + {b} && g.nmeta <= c
      ensures c in data.Values || c in inds'.Values
    {
      if c == b {
        assert inds'[i] == c;
      } else if c in inds.Values {
        var t :| t in inds && inds[t] == c;
        assert inds'[t] == c;
      }
    }
  }

  lemma OwnRemoveData(g: Layout, used: set<nat>, data: map<nat, nat>, inds: map<nat, nat>, s: nat)
    requires Own(g, used, data, inds) && s in data
    ensures Own(g, used - {data[s]}, data - {s}, inds)
  {
    var data' := data - {s};
    forall c | c in used - {data[s]} && g.nmeta <= c
      ensures c in data'.Values || c in inds.Values
    {
      if c in data.Values {
        var t :| t in data && data[t] == c;
        assert t in data' && data'[t] == c;
      }
    }
  }

  lemma OwnRemoveInd(g: Layout, used: set<nat>, data: map<nat, nat>, inds: map<nat, nat>, i: nat)
    requires Own(g, used, data, inds) && i in inds
    ensures Own(g, used - {inds[i]}, data, inds - {i})
  {
    var inds' := inds - {i};
    forall c | c in used - {inds[i]} && g.nmeta <= c
      ensures c in data.Values || c in inds'.Values
    {
      if c in inds.Values {
        var t :| t in inds && inds[t] == c;
        assert t in inds' && inds'[t] == c;
      }
    }
  }

  // ---- inodes ----

  /** Writes that miss the indirect blocks leave the file map alone. */
  lemma InodesFrame(g: Layout, disk: seq<Block>, disk': seq<Block>, addrs: seq<seq<nat>>,
                    data: map<nat, nat>, inds: map<nat, nat>)
    requires Sized(g, disk) && Sized(g, disk') && Shape(g, addrs) && Inodes(g, disk, addrs, data, inds)
    requires forall i | i in inds :: disk'[inds[i]] == disk[inds[i]]
    ensures Inodes(g, disk', addrs, data, inds)
  {
  }

  lemma InodesAddDirect(g: Layout, disk: seq<Block>, addrs: seq<seq<nat>>,
                        data: map<nat, nat>, inds: map<nat, nat>, i: nat, k: nat, b: nat)
    requires Sized(g, disk) && Shape(g, addrs) && Inodes(g, disk, addrs, data, inds)
    requires i < g.ninodes && k < NDIRECT && 0 < b
    ensures Inodes(g, disk, SetAddr(addrs, i, k, b), data[Key(i, k) := b], inds)
  {
    LookupUpdate(data, i, k, b);
    hide Lookup;
  }

  /** A fresh, zeroed indirect block has no entries. */
  lemma InodesAddInd(g: Layout, disk: seq<Block>, addrs: seq<seq<nat>>,
                     data: map<nat, nat>, inds: map<nat, nat>, i: nat, b: nat)
    requires Sized(g, disk) && Shape(g, addrs) && Inodes(g, disk, addrs, data, inds)
    requires i < g.ninodes && i !in inds && 0 < b < g.size && disk[b] == Zeroed()
    ensures Inodes(g, disk, SetAddr(addrs, i, NDIRECT, b), data, inds[i := b])
  {
    forall bn | NDIRECT <= bn < MAXFILE
      ensures Entry(disk[b], bn) == 0
    {
      ZeroWord(bn - NDIRECT);
    }
  }

  lemma InodesAddEntry(g: Layout, disk: seq<Block>, addrs: seq<seq<nat>>,
                       data: map<nat, nat>, inds: map<nat, nat>, i: nat, bn: nat, b: nat)
    requires Sized(g, disk) && Shape(g, addrs) && Inodes(g, disk, addrs, data, inds)
    requires i in inds && NDIRECT <= bn < MAXFILE && 0 < b < UINT_LIMIT
    requires forall j | j in inds && j != i :: inds[j] != inds[i]
    ensures |disk[inds[i]]| == BSIZE
    ensures Sized(g, disk[inds[i] := PutWord(disk[inds[i]], bn - NDIRECT, b)])
    ensures Inodes(g, disk[inds[i] := PutWord(disk[inds[i]], bn - NDIRECT, b)], addrs, data[Key(i, bn) := b], inds)
  {
    EntryUpdate(disk[inds[i]], bn, b);
    LookupUpdate(data, i, bn, b);
    hide Entry;
    hide PutWord;
    hide Lookup;
    var block := PutWord(disk[inds[i]], bn - NDIRECT, b);
    assert forall j | j in inds && j != i :: disk[inds[i] := block][inds[j]] == disk[inds[j]];
  }

  lemma LookupUpdate(data: map<nat, nat>, i: nat, bn: nat, b: nat)
    requires bn < MAXFILE
    ensures forall j: nat, l: nat {:trigger Lookup(data[Key(i, bn) := b], j, l)} {:trigger Lookup(data, j, l)} |
      l < MAXFILE ::
      Lookup(data[Key(i, bn) := b], j, l) == if j == i && l == bn then b else Lookup(data, j, l)
  {
  }

  lemma EntryUpdate(block: Block, bn: nat, b: nat)
    requires |block| == BSIZE && NDIRECT <= bn < MAXFILE && b < UINT_LIMIT
    ensures forall l {:trigger Entry(PutWord(block, bn - NDIRECT, b), l)} | NDIRECT <= l < MAXFILE ::
      Entry(PutWord(block, bn - NDIRECT, b), l) == if l == bn then b else Entry(block, l)
  {
    forall l | NDIRECT <= l < MAXFILE
      ensures Entry(PutWord(block, bn - NDIRECT, b), l) == if l == bn then b else Entry(block, l)
    {
      WordUpdate(block, bn - NDIRECT, b, l - NDIRECT);
    }
  }

  // ---- the whole state ----

  ghost predicate FsOk(g: Layout, disk: seq<Block>, addrs: seq<seq<nat>>,
                       used: set<nat>, data: map<nat, nat>, inds: map<nat, nat>)
  {
    && Sized(g, disk) && Shape(g, addrs)
    && Bitmap(g, disk, used)
    && Own(g, used, data, inds)
    && Inodes(g, disk, addrs, data, inds)
  }

  /** What balloc() does to the disk: the bit is set and the block is zeroed. */
  function Allocated(g: Layout, disk: seq<Block>, b: nat): (r: seq<Block>)
    requires b < |disk| && BBlock(g, b) < |disk| && |disk[BBlock(g, b)]| == BSIZE
    ensures |r| == |disk|
  {
    disk[BBlock(g, b) := SetBit(disk[BBlock(g, b)], b % BPB)][b := Zeroed()]
  }

  lemma AllocatedBits(g: Layout, disk: seq<Block>, used: set<nat>, b: nat)
    requires Sized(g, disk) && Bitmap(g, disk, used) && g.nmeta <= b < g.size
    ensures BBlock(g, b) < g.nmeta && |disk[BBlock(g, b)]| == BSIZE
    ensures Sized(g, Allocated(g, disk, b)) && Bitmap(g, Allocated(g, disk, b), used + {b})
    ensures Allocated(g, disk, b)[b] == Zeroed()
    ensures forall c | g.nmeta <= c < g.size && c != b :: Allocated(g, disk, b)[c] == disk[c]
  {
    MarkUsed(g, disk, used, b);
    hide Bitmap;
    var disk1 := disk[BBlock(g, b) := SetBit(disk[BBlock(g, b)], b % BPB)];
    DataKeepsBitmap(g, disk1, used + {b}, b, Zeroed());
  }

  /** A block fresh from balloc() is marked, zeroed, and not yet part of any file; no block in use changes. */
  lemma AllocatedOk(g: Layout, disk: seq<Block>, addrs: seq<seq<nat>>,
                    used: set<nat>, data: map<nat, nat>, inds: map<nat, nat>, b: nat)
    requires FsOk(g, disk, addrs, used, data, inds) && g.nmeta <= b < g.size && b !in used
    ensures BBlock(g, b) < g.nmeta && |disk[BBlock(g, b)]| == BSIZE
    ensures Sized(g, Allocated(g, disk, b)) && Bitmap(g, Allocated(g, disk, b), used + {b})
    ensures Inodes(g, Allocated(g, disk, b), addrs, data, inds)
    ensures Allocated(g, disk, b)[b] == Zeroed()
    ensures forall c | g.nmeta <= c < g.size && c != b :: Allocated(g, disk, b)[c] == disk[c]
  {
    AllocatedBits(g, disk, used, b);
    hide Bitmap;
    hide Allocated;
    InodesFrame(g, disk, Allocated(g, disk, b), addrs, data, inds);
  }

  lemma AllocDirect(g: Layout, disk: seq<Block>, addrs: seq<seq<nat>>,
                    used: set<nat>, data: map<nat, nat>, inds: map<nat, nat>, i: nat, k: nat, b: nat)
    requires FsOk(g, disk, addrs, used, data, inds) && g.nmeta <= b < g.size && b !in used
    requires i < g.ninodes && k < NDIRECT && Key(i, k) !in data
    ensures FsOk(g, Allocated(g, disk, b), SetAddr(addrs, i, k, b), used + {b}, data[Key(i, k) := b], inds)
  {
    AllocatedOk(g, disk, addrs, used, data, inds, b);
    OwnAddData(g, used, data, inds, Key(i, k), b);
    InodesAddDirect(g, Allocated(g, disk, b), addrs, data, inds, i, k, b);
  }

  lemma AllocInd(g: Layout, disk: seq<Block>, addrs: seq<seq<nat>>,
                 used: set<nat>, data: map<nat, nat>, inds: map<nat, nat>, i: nat, b: nat)
    requires FsOk(g, disk, addrs, used, data, inds) && g.nmeta <= b < g.size && b !in used
    requires i < g.ninodes && i !in inds
    ensures FsOk(g, Allocated(g, disk, b), SetAddr(addrs, i, NDIRECT, b), used + {b}, data, inds[i := b])
  {
    AllocatedOk(g, disk, addrs, used, data, inds, b);
    OwnAddInd(g, used, data, inds, i, b);
    InodesAddInd(g, Allocated(g, disk, b), addrs, data, inds, i, b);
  }

  lemma AllocEntry(g: Layout, disk: seq<Block>, addrs: seq<seq<nat>>,
                   used: set<nat>, data: map<nat, nat>, inds: map<nat, nat>, i: nat, bn: nat, b: nat)
    requires FsOk(g, disk, addrs, used, data, inds) && g.nmeta <= b < g.size && b !in used
    requires i in inds && NDIRECT <= bn < MAXFILE && Key(i, bn) !in data
    ensures BBlock(g, b) < |disk| && |disk[BBlock(g, b)]| == BSIZE && inds[i] < |disk|
    ensures |Allocated(g, disk, b)[inds[i]]| == BSIZE
    ensures var disk1 := Allocated(g, disk, b);
      FsOk(g, disk1[inds[i] := PutWord(disk1[inds[i]], bn - NDIRECT, b)], addrs, used + {b}, data[Key(i, bn) := b],
           inds)
  {
    AllocatedOk(g, disk, addrs, used, data, inds, b);
    OwnAddData(g, used, data, inds, Key(i, bn), b);
    var disk1 := Allocated(g, disk, b);
    InodesAddEntry(g, disk1, addrs, data, inds, i, bn, b);
    DataKeepsBitmap(g, disk1, used + {b}, inds[i], PutWord(disk1[inds[i]], bn - NDIRECT, b));
  }

  // ---- the bytes of the files ----

  /** Byte `p` of file `i`; a byte of a block that the file does not have reads as 0. */
  ghost function Byte(disk: seq<Block>, data: map<nat, nat>, i: nat, p: nat): nat
  {
    var k := Key(i, p / BSIZE);
    if p / BSIZE < MAXFILE && k in data && data[k] < |disk| && |disk[data[k]]| == BSIZE
    then disk[data[k]][p % BSIZE] else 0
  }

  /** No byte of any file differs. */
  ghost predicate SameBytes(disk: seq<Block>, data: map<nat, nat>, disk': seq<Block>, data': map<nat, nat>)
  {
    forall j: nat, p: nat {:trigger Byte(disk', data', j, p)} :: Byte(disk', data', j, p) == Byte(disk, data, j, p)
  }

  /** Allocation changes no byte of any file. */
  lemma AllocKeepsBytes(disk: seq<Block>, disk': seq<Block>, data: map<nat, nat>, data': map<nat, nat>)
    requires |disk| == |disk'|
    requires forall s | s in data :: s in data' && data'[s] == data[s] < |disk| && disk'[data[s]] == disk[data[s]]
    requires forall s | s in data' && s !in data :: data'[s] < |disk| && disk'[data'[s]] == Zeroed()
    ensures SameBytes(disk, data, disk', data')
  {
  }

  /** Writing `src` into the block at `off` changes just those bytes of just that file. */
  lemma PatchBytes(g: Layout, disk: seq<Block>, used: set<nat>, data: map<nat, nat>, inds: map<nat, nat>,
                   i: nat, off: nat, src: seq<nat>)
    requires Own(g, used, data, inds) && off / BSIZE < MAXFILE && Key(i, off / BSIZE) in data
    requires data[Key(i, off / BSIZE)] < |disk| && |disk[data[Key(i, off / BSIZE)]]| == BSIZE
    requires off % BSIZE + |src| <= BSIZE
    ensures var v := data[Key(i, off / BSIZE)];
      var disk' := disk[v := Patched(disk[v], off % BSIZE, src)];
      forall j: nat, p: nat {:trigger Byte(disk', data, j, p)} ::
        Byte(disk', data, j, p) == if j == i && off <= p < off + |src| then src[p - off] else Byte(disk, data, j, p)
  {
    var v := data[Key(i, off / BSIZE)];
    var disk' := disk[v := Patched(disk[v], off % BSIZE, src)];
    forall j: nat, p: nat
      ensures Byte(disk', data, j, p) ==
              if j == i && off <= p < off + |src| then src[p - off] else Byte(disk, data, j, p)
    {
      if p / BSIZE < MAXFILE && Key(j, p / BSIZE) in data && data[Key(j, p / BSIZE)] == v {
        assert Key(j, p / BSIZE) == Key(i, off / BSIZE);
        assert j == i && p / BSIZE == off / BSIZE;
      }
    }
  }

  /** Writing a block that a file owns keeps the whole state consistent. */
  lemma PatchOk(g: Layout, disk: seq<Block>, addrs: seq<seq<nat>>,
                used: set<nat>, data: map<nat, nat>, inds: map<nat, nat>, k: nat, block: Block)
    requires FsOk(g, disk, addrs, used, data, inds) && k in data && |block| == BSIZE
    ensures FsOk(g, disk[data[k] := block], addrs, used, data, inds)
  {
    DataKeepsBitmap(g, disk, used, data[k], block);
    InodesFrame(g, disk, disk[data[k] := block], addrs, data, inds);
  }
}
