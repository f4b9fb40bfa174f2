/** Write-ahead discipline of kernel/fs.c: whatever an operation changes on the disk it passes to log_write(). */
module FsLog {
  import opened FsBlock
  import opened FsState
  import opened FsMap
  import opened FsTrunc

  /** Every block that changed is in the log now, those in `but` perhaps excepted; nothing has left the log. */
  ghost predicate Logs(disk0: seq<Block>, disk: seq<Block>, logged0: set<nat>, logged: set<nat>, but: set<nat>)
  {
    && |disk| == |disk0| && logged0 <= logged
    && forall b | 0 <= b < |disk0| && b !in but && disk[b] != disk0[b] :: b in logged
  }

  lemma LogsNothing(disk: seq<Block>, logged: set<nat>)
    ensures Logs(disk, disk, logged, logged, {})
  {
  }

  /** One block more is changed and logged. */
  lemma LogsOne(disk0: seq<Block>, disk: seq<Block>, logged0: set<nat>, logged: set<nat>, b: nat, block: Block)
    requires Logs(disk0, disk, logged0, logged, {}) && b < |disk|
    ensures Logs(disk0, disk[b := block], logged0, logged + {b}, {})
  {
  }

  lemma LogsMore(disk0: seq<Block>, disk1: seq<Block>, disk: seq<Block>,
                 logged0: set<nat>, logged1: set<nat>, logged: set<nat>, but: set<nat>)
    requires Logs(disk0, disk1, logged0, logged1, {}) && Logs(disk1, disk, logged1, logged, but)
    ensures Logs(disk0, disk, logged0, logged, but)
  {
  }

  lemma LogsAlso(disk0: seq<Block>, disk: seq<Block>, logged0: set<nat>, logged: set<nat>, but: set<nat>,
                 more: set<nat>)
    requires Logs(disk0, disk, logged0, logged, but)
    ensures Logs(disk0, disk, logged0, logged + more, but)
  {
  }

  /** Every inode whose fields on the disk changed has its block in the log. */
  ghost predicate InodesLogged(g: Layout, addrs0: seq<seq<nat>>, sizes0: seq<nat>, types0: seq<nat>,
                               addrs: seq<seq<nat>>, sizes: seq<nat>, types: seq<nat>, logged: set<nat>)
  {
    && |addrs| == |addrs0| == |sizes| == |sizes0| == |types| == |types0|
    && forall i {:trigger IBlock(g, i)} |
      0 <= i < |addrs0| && (addrs[i] != addrs0[i] || sizes[i] != sizes0[i] || types[i] != types0[i]) ::
      IBlock(g, i) in logged
  }

  /** The block that a failed copy left changed but not logged, if the copy got past its first byte. */
  ghost function Torn(data: map<nat, nat>, i: nat, off: nat, r: nat, w: nat): (but: set<nat>)
  {
    if r < w && Key(i, (off + r) / BSIZE) in data then {data[Key(i, (off + r) / BSIZE)]} else {}
  }

  /** Writing `piece` into a block of the file, which is logged if all `m` bytes could be copied. */
  lemma WriteBlockLogs(disk0: seq<Block>, disk: seq<Block>, logged0: set<nat>, logged: set<nat>, data: map<nat, nat>,
                       i: nat, at: nat, piece: seq<nat>, m: nat)
    requires Logs(disk0, disk, logged0, logged, {}) && Key(i, at / BSIZE) in data && |piece| <= m
    requires data[Key(i, at / BSIZE)] < |disk| && at % BSIZE + |piece| <= |disk[data[Key(i, at / BSIZE)]]|
    ensures var b := data[Key(i, at / BSIZE)];
      Logs(disk0, disk[b := Patched(disk[b], at % BSIZE, piece)], logged0,
           if |piece| == m then logged + {b} else logged, if |piece| < m then Torn(data, i, at, 0, |piece|) else {})
    ensures var b := data[Key(i, at / BSIZE)];
      var disk' := disk[b := Patched(disk[b], at % BSIZE, piece)];
      Logs(disk0, disk', logged0, if |piece| == m then logged + {b} else logged, {})
      <==> |piece| == m || b in logged || disk'[b] == disk0[b]
  {
    var b := data[Key(i, at / BSIZE)];
    if piece == [] {
      assert Patched(disk[b], at % BSIZE, piece) == disk[b];
    }
  }

  /** What survives on the disk, once logged: the blocks and the inodes. */
  datatype Image = Image(disk: seq<Block>, addrs: seq<seq<nat>>, sizes: seq<nat>, types: seq<nat>)

  /** A transaction that logged `logged` covers the step from one image to the next. */
  ghost predicate Covers(g: Layout, x: Image, y: Image, logged: set<nat>, but: set<nat>)
  {
    && Logs(x.disk, y.disk, {}, logged, but)
    && InodesLogged(g, x.addrs, x.sizes, x.types, y.addrs, y.sizes, y.types, logged)
  }

  /** The transactions that led from image `x` to image `y`: each covers what it changed and logged no more than it
      reserved; only the last one may have a torn block. */
  ghost predicate Transactions(g: Layout, x: Image, y: Image, images: seq<Image>, log: seq<set<nat>>, but: set<nat>)
  {
    && |images| == |log| + 1 && images[0] == x && images[|log|] == y
    && (forall k | 0 <= k < |log| ::
          Covers(g, images[k], images[k + 1], log[k], if k + 1 == |log| then but else {}))
    && (forall l | l in log :: Cheap(g, l))
  }

  ghost predicate Cheap(g: Layout, logged: set<nat>)
  {
    |logged| <= 10 && (g.size <= BPB ==> |logged| <= 7)
  }

  lemma NoTransactions(g: Layout, x: Image)
    ensures Transactions(g, x, x, [x], [], {})
  {
  }

  lemma NextTransaction(g: Layout, x: Image, y: Image, z: Image, images: seq<Image>, log: seq<set<nat>>,
                        logged: set<nat>, but: set<nat>)
    requires Transactions(g, x, y, images, log, {}) && Covers(g, y, z, logged, but) && Cheap(g, logged)
    ensures Transactions(g, x, z, images + [z], log + [logged], but)
  {
    hide Covers;
    hide Cheap;
    var images1, log1 := images + [z], log + [logged];
    forall k | 0 <= k < |log1|
      ensures Covers(g, images1[k], images1[k + 1], log1[k], if k + 1 == |log1| then but else {})
    {
      if k < |log| {
        assert Covers(g, images[k], images[k + 1], log[k], {});
      }
    }
  }

  lemma TornThere(data: map<nat, nat>, i: nat, off: nat, done: nat, r: nat, w: nat)
    ensures Torn(data, i, off + done, r, w) == Torn(data, i, off, done + r, done + w)
    ensures Torn(data, i, off, done, done) == {} && (r == w ==> Torn(data, i, off + done, r, w) == {})
  {
  }
}
