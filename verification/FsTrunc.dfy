/** What itrunc() of kernel/fs.c does to the file-system state, one freed block at a time. */
module FsTrunc {
  import opened FsBlock
  import opened FsState
  import opened FsMap

  /** What bfree() does to the disk: the bit is cleared. */
  function Freed(g: Layout, disk: seq<Block>, b: nat): (r: seq<Block>)
    requires BBlock(g, b) < |disk| && |disk[BBlock(g, b)]| == BSIZE
    ensures |r| == |disk|
  {
    disk[BBlock(g, b) := ClearBit(disk[BBlock(g, b)], b % BPB)]
  }

  /** The file map without the first `hi` blocks of file `i`. */
  ghost function Without(m: map<nat, nat>, i: nat, hi: nat): map<nat, nat>
  {
    map k | k in m && !(Key(i, 0) <= k < Key(i, hi)) :: m[k]
  }

  lemma WithoutMore(m: map<nat, nat>, i: nat, bn: nat)
    ensures Without(m, i, bn + 1) == Without(m, i, bn) - {Key(i, bn)}
    ensures Key(i, bn) in Without(m, i, bn) <==> Key(i, bn) in m
    ensures Key(i, bn) !in m ==> Without(m, i, bn + 1) == Without(m, i, bn)
  {
  }

  /** Inodes, except that the entries of inode `i` below `from` are already given up. */
  ghost predicate InodesFrom(g: Layout, disk: seq<Block>, addrs: seq<seq<nat>>,
                             data: map<nat, nat>, inds: map<nat, nat>, i: nat, from: nat)
    requires Sized(g, disk) && Shape(g, addrs)
  {
    && (forall s | s in data :: s < Key(g.ninodes, 0) && 0 < data[s])
    && (forall j | j in inds :: j < g.ninodes && 0 < inds[j] < g.size)
    && (forall j, k {:trigger Direct(addrs, j, k)} | 0 <= j < g.ninodes && 0 <= k < NDIRECT ::
          Direct(addrs, j, k) == Lookup(data, j, k))
    && (forall j | 0 <= j < g.ninodes :: Direct(addrs, j, NDIRECT) == if j in inds then inds[j] else 0)
    && (forall j, bn {:trigger Lookup(data, j, bn)} | 0 <= j < g.ninodes && NDIRECT <= bn < MAXFILE ::
          Lookup(data, j, bn) == if j in inds && !(j == i && bn < from) then Entry(disk[inds[j]], bn) else 0)
  }

  /** The state while the indirect block of inode `i` is being emptied. */
  ghost predicate Emptying(g: Layout, disk: seq<Block>, addrs: seq<seq<nat>>,
                           used: set<nat>, data: map<nat, nat>, inds: map<nat, nat>, i: nat, from: nat)
  {
    && Sized(g, disk) && Shape(g, addrs)
    && Bitmap(g, disk, used)
    && Own(g, used, data, inds)
    && InodesFrom(g, disk, addrs, data, inds, i, from)
  }

  lemma LookupRemove(data: map<nat, nat>, i: nat, bn: nat)
    requires bn < MAXFILE
    ensures forall j: nat, l: nat {:trigger Lookup(data - {Key(i, bn)}, j, l)} | l < MAXFILE ::
      Lookup(data - {Key(i, bn)}, j, l) == if j == i && l == bn then 0 else Lookup(data, j, l)
  {
  }

  lemma FreedBits(g: Layout, disk: seq<Block>, used: set<nat>, b: nat)
    requires Sized(g, disk) && Bitmap(g, disk, used) && b < g.size
    ensures BBlock(g, b) < g.nmeta && |disk[BBlock(g, b)]| == BSIZE
    ensures Sized(g, Freed(g, disk, b)) && Bitmap(g, Freed(g, disk, b), used - {b})
    ensures forall c | g.nmeta <= c < g.size :: Freed(g, disk, b)[c] == disk[c]
  {
    MarkFree(g, disk, used, b);
  }

  /** The bit that bfree() tests. */
  lemma BitOf(g: Layout, disk: seq<Block>, used: set<nat>, b: nat)
    requires Sized(g, disk) && Bitmap(g, disk, used) && b < g.size
    ensures BBlock(g, b) < |disk| && |disk[BBlock(g, b)]| == BSIZE
    ensures BitAt(disk[BBlock(g, b)], b % BPB) <==> b in used
  {
    assert b in used <==> Bit(g, disk, b);
  }

  lemma OwnedPlaces(g: Layout, disk: seq<Block>, used: set<nat>, data: map<nat, nat>, inds: map<nat, nat>)
    requires Sized(g, disk) && Bitmap(g, disk, used) && Own(g, used, data, inds)
    ensures |disk| == g.size
    ensures forall s | s in data :: g.nmeta <= data[s] < g.size
    ensures forall j | j in inds :: g.nmeta <= inds[j] < g.size
  {
  }

  lemma InodesRemoveDirect(g: Layout, disk: seq<Block>, addrs: seq<seq<nat>>,
                           data: map<nat, nat>, inds: map<nat, nat>, i: nat, k: nat)
    requires Sized(g, disk) && Shape(g, addrs) && Inodes(g, disk, addrs, data, inds) && i < g.ninodes && k < NDIRECT
    ensures Inodes(g, disk, SetAddr(addrs, i, k, 0), data - {Key(i, k)}, inds)
  {
    LookupRemove(data, i, k);
    hide Lookup;
    hide Entry;
  }

  lemma FreeDirect(g: Layout, disk: seq<Block>, addrs: seq<seq<nat>>,
                   used: set<nat>, data: map<nat, nat>, inds: map<nat, nat>, i: nat, k: nat)
    requires FsOk(g, disk, addrs, used, data, inds) && i < g.ninodes && k < NDIRECT && Key(i, k) in data
    ensures |addrs| == g.ninodes && |addrs[i]| == NDIRECT + 1 && g.nmeta <= data[Key(i, k)] < g.size
    ensures BBlock(g, data[Key(i, k)]) < |disk| && |disk[BBlock(g, data[Key(i, k)])]| == BSIZE
    ensures FsOk(g, Freed(g, disk, data[Key(i, k)]), SetAddr(addrs, i, k, 0), used - {data[Key(i, k)]},
                 data - {Key(i, k)}, inds)
  {
    hide Bitmap;
    hide Own;
    hide Inodes;
    hide Freed;
    var b := data[Key(i, k)];
    OwnedPlaces(g, disk, used, data, inds);
    FreedBits(g, disk, used, b);
    OwnRemoveData(g, used, data, inds, Key(i, k));
    InodesFrame(g, disk, Freed(g, disk, b), addrs, data, inds);
    InodesRemoveDirect(g, Freed(g, disk, b), addrs, data, inds, i, k);
  }

  lemma StartEmptying(g: Layout, disk: seq<Block>, addrs: seq<seq<nat>>,
                      used: set<nat>, data: map<nat, nat>, inds: map<nat, nat>, i: nat)
    requires FsOk(g, disk, addrs, used, data, inds)
    ensures Emptying(g, disk, addrs, used, data, inds, i, NDIRECT)
  {
    hide Bitmap;
    hide Own;
  }

  lemma InodesFromRemove(g: Layout, disk: seq<Block>, disk': seq<Block>, addrs: seq<seq<nat>>,
                         data: map<nat, nat>, inds: map<nat, nat>, i: nat, bn: nat)
    requires Sized(g, disk) && Sized(g, disk') && Shape(g, addrs) && InodesFrom(g, disk, addrs, data, inds, i, bn)
    requires NDIRECT <= bn < MAXFILE && forall j | j in inds :: disk'[inds[j]] == disk[inds[j]]
    ensures InodesFrom(g, disk', addrs, data - {Key(i, bn)}, inds, i, bn + 1)
  {
    LookupRemove(data, i, bn);
    hide Lookup;
    hide Entry;
  }

  lemma FreeEntry(g: Layout, disk: seq<Block>, addrs: seq<seq<nat>>,
                  used: set<nat>, data: map<nat, nat>, inds: map<nat, nat>, i: nat, bn: nat)
    requires Emptying(g, disk, addrs, used, data, inds, i, bn)
    requires NDIRECT <= bn < MAXFILE && Key(i, bn) in data
    ensures g.nmeta <= data[Key(i, bn)] < g.size
    ensures BBlock(g, data[Key(i, bn)]) < |disk| && |disk[BBlock(g, data[Key(i, bn)])]| == BSIZE
    ensures Emptying(g, Freed(g, disk, data[Key(i, bn)]), addrs, used - {data[Key(i, bn)]}, data - {Key(i, bn)}, inds,
                     i, bn + 1)
  {
    hide Bitmap;
    hide Own;
    hide InodesFrom;
    hide Freed;
    var b := data[Key(i, bn)];
    OwnedPlaces(g, disk, used, data, inds);
    FreedBits(g, disk, used, b);
    OwnRemoveData(g, used, data, inds, Key(i, bn));
    InodesFromRemove(g, disk, Freed(g, disk, b), addrs, data, inds, i, bn);
  }

  lemma SkipEntry(g: Layout, disk: seq<Block>, addrs: seq<seq<nat>>,
                  used: set<nat>, data: map<nat, nat>, inds: map<nat, nat>, i: nat, bn: nat)
    requires Emptying(g, disk, addrs, used, data, inds, i, bn)
    requires NDIRECT <= bn < MAXFILE && Key(i, bn) !in data
    ensures Emptying(g, disk, addrs, used, data, inds, i, bn + 1)
  {
    hide Bitmap;
    hide Own;
    assert Lookup(data, i, bn) == 0;
  }

  lemma InodesRemoveInd(g: Layout, disk: seq<Block>, disk': seq<Block>, addrs: seq<seq<nat>>,
                        data: map<nat, nat>, inds: map<nat, nat>, i: nat)
    requires Sized(g, disk) && Sized(g, disk') && Shape(g, addrs) && InodesFrom(g, disk, addrs, data, inds, i, MAXFILE)
    requires i < g.ninodes && forall j | j in inds :: disk'[inds[j]] == disk[inds[j]]
    ensures Inodes(g, disk', SetAddr(addrs, i, NDIRECT, 0), data, inds - {i})
  {
    hide Lookup;
    hide Entry;
  }

  lemma FreeInd(g: Layout, disk: seq<Block>, addrs: seq<seq<nat>>,
                used: set<nat>, data: map<nat, nat>, inds: map<nat, nat>, i: nat)
    requires Emptying(g, disk, addrs, used, data, inds, i, MAXFILE) && i in inds && i < g.ninodes
    ensures g.ninodes == |addrs| && |addrs[i]| == NDIRECT + 1 && g.nmeta <= inds[i] < g.size
    ensures BBlock(g, inds[i]) < |disk| && |disk[BBlock(g, inds[i])]| == BSIZE
    ensures FsOk(g, Freed(g, disk, inds[i]), SetAddr(addrs, i, NDIRECT, 0), used - {inds[i]}, data, inds - {i})
  {
    hide Bitmap;
    hide Own;
    hide InodesFrom;
    hide Inodes;
    hide Freed;
    OwnedPlaces(g, disk, used, data, inds);
    FreedBits(g, disk, used, inds[i]);
    OwnRemoveInd(g, used, data, inds, i);
    InodesRemoveInd(g, disk, Freed(g, disk, inds[i]), addrs, data, inds, i);
  }

  /** What the indirect block says while it is being emptied. */
  lemma EntryMap(g: Layout, disk: seq<Block>, addrs: seq<seq<nat>>,
                 used: set<nat>, data: map<nat, nat>, inds: map<nat, nat>, i: nat, bn: nat)
    requires Emptying(g, disk, addrs, used, data, inds, i, bn) && i in inds && i < g.ninodes && NDIRECT <= bn < MAXFILE
    ensures Sized(g, disk) && Bitmap(g, disk, used) && |disk| == g.size
    ensures g.nmeta <= inds[i] < g.size && |disk[inds[i]]| == BSIZE
    ensures Entry(disk[inds[i]], bn) == if Key(i, bn) in data then data[Key(i, bn)] else 0
    ensures Key(i, bn) in data ==> data[Key(i, bn)] < g.size && data[Key(i, bn)] in used && 0 < data[Key(i, bn)]
  {
    assert Lookup(data, i, bn) == Entry(disk[inds[i]], bn);
  }

  lemma IndirectUsed(g: Layout, disk: seq<Block>, addrs: seq<seq<nat>>,
                     used: set<nat>, data: map<nat, nat>, inds: map<nat, nat>, i: nat)
    requires Emptying(g, disk, addrs, used, data, inds, i, MAXFILE) && i in inds
    ensures Sized(g, disk) && Bitmap(g, disk, used) && |disk| == g.size && inds[i] < g.size && inds[i] in used
  {
  }

  /** A file without blocks reads as nothing; the others keep their bytes. */
  lemma WithoutBytes(g: Layout, disk0: seq<Block>, disk: seq<Block>, m: map<nat, nat>, i: nat, j: nat, p: nat)
    requires |disk| == |disk0| == g.size && forall c | g.nmeta <= c < g.size :: disk[c] == disk0[c]
    requires forall k | k in m :: g.nmeta <= m[k] < g.size
    requires j != i
    ensures Byte(disk, Without(m, i, MAXFILE), j, p) == Byte(disk0, m, j, p)
  {
  }
}
