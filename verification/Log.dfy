/** The commit and recovery code of kernel/log.c, run against a disk whose power may fail.

  `view` is what bread() returns for each block: the cached copy, which the log code changes in
  place and bwrite() sends to the disk.  `writesLeft` counts the single-block disk writes, each
  atomic, that still take effect; a run with `writesLeft == k` leaves on the disk what a crash after
  the k-th write leaves there.
 */
module Log {
  import opened LogDisk

  /** The cached copies of the first `n` log slots are what the disk holds there. */
  ghost predicate SlotsCached(start: nat, view: seq<Block>, disk: seq<Block>, n: nat)
    requires |view| == |disk| && start + n < |disk|
  {
    forall b | start < b <= start + n :: view[b] == disk[b]
  }

  lemma CopiedTwice(start: nat, view: seq<Block>, disk: seq<Block>, lh: seq<nat>, data: seq<Block>)
    requires |view| == |disk| == |data| && start + LOGSIZE <= |disk| && LogList(start, |disk|, lh)
    requires Copied(start, view, lh, data, |lh|) && Copied(start, disk, lh, data, |lh|)
    ensures SlotsCached(start, view, disk, |lh|)
  {
    forall b | start < b <= start + |lh|
      ensures view[b] == disk[b]
    {
      assert view[b] == data[lh[b - start - 1]];
      assert disk[b] == data[lh[b - start - 1]];
    }
  }

  class Storage {
    const start: nat
    var disk: seq<Block>
    var view: seq<Block>
    var lh: seq<nat>
    var writesLeft: nat

    /** `contents` is what a crash now, followed by a recovery, would bring back. */
    ghost predicate Valid(contents: seq<Block>)
      reads this
    {
      && Holds(start, disk, contents)
      && start + LOGSIZE <= |disk| == |view| == |contents|
      && |disk[start]| == WORDS && disk[start][0] < LOGSIZE
      && (forall b | 0 <= b < |view| :: |view[b]| == WORDS)
      && LogList(start, |disk|, lh)
    }

    /** A disk whose header is empty holds just what is on it. */
    constructor (start: nat, disk: seq<Block>)
      requires DiskOk(start, disk) && Logged(disk[start]) == []
      ensures Valid(disk) && this.start == start && this.disk == disk && view == disk && lh == []
    {
      this.start, this.disk, view, lh, writesLeft := start, disk, disk, [], 0;
    }

    /** bwrite(): the cached copy reaches the disk unless the power has failed. */
    method Bwrite(b: nat)
      requires b < |disk| == |view|
      modifies `disk, `writesLeft
      ensures old(writesLeft) == 0 ==> disk == old(disk) && writesLeft == 0
      ensures old(writesLeft) > 0 ==> disk == old(disk)[b := view[b]] && writesLeft == old(writesLeft) - 1
    {
      if writesLeft > 0 {
        disk := disk[b := view[b]];
        writesLeft := writesLeft - 1;
      }
    }

    /** log_write(): a panic if the log is full, on a disk made by mkfs one block before LOGSIZE; otherwise the block is
        absorbed if already in the list, and appended if not.  `pin` says whether the buffer must be pinned. */
    method LogWrite(b: nat) returns (panic: bool, pin: bool)
      requires LogList(start, |disk|, lh) && b < |disk| && !InLog(start, b)
      modifies `lh
      ensures LogList(start, |disk|, lh)
      ensures panic <==> |old(lh)| >= LOGSIZE - 1
      ensures pin <==> !panic && b !in old(lh)
      ensures lh == if pin then old(lh) + [b] else old(lh)
    {
      panic, pin := |lh| >= LOGSIZE || |lh| >= LOGSIZE - 1, false;
      if panic {
        return;
      }
      var i := 0;
      while i < |lh| && lh[i] != b
        invariant 0 <= i <= |lh| && b !in lh[..i]
      {
        i := i + 1;
      }
      pin := i == |lh|;
      if pin {
        assert lh[..i] == lh;
        lh := lh + [b];
      } else {
        lh := lh[i := b];
      }
    }

    /** write_log(): the cached blocks of the transaction are copied to the log slots. */
    method WriteLog(ghost contents: seq<Block>)
      requires Valid(contents) && Logged(disk[start]) == []
      modifies `disk, `view, `writesLeft
      ensures Valid(contents) && disk[start] == old(disk)[start]
      ensures view[start] == old(view)[start]
      ensures forall b | 0 <= b < |view| && !InLog(start, b) :: view[b] == old(view)[b]
      ensures Copied(start, view, lh, old(view), |lh|)
      ensures writesLeft == if old(writesLeft) < |lh| then 0 else old(writesLeft) - |lh|
      ensures old(writesLeft) >= |lh| ==> Copied(start, disk, lh, old(view), |lh|)
    {
      hide Holds;
      for tail := 0 to |lh|
        invariant Valid(contents) && disk[start] == old(disk)[start]
        invariant view[start] == old(view)[start]
        invariant forall b | 0 <= b < |view| && !InLog(start, b) :: view[b] == old(view)[b]
        invariant Copied(start, view, lh, old(view), tail)
        invariant writesLeft == if old(writesLeft) < tail then 0 else old(writesLeft) - tail
        invariant old(writesLeft) >= tail ==> Copied(start, disk, lh, old(view), tail)
      {
        SlotWrite(start, disk, contents, tail, view[lh[tail]]);
        view := view[start + 1 + tail := view[lh[tail]]];
        Bwrite(start + 1 + tail);
      }
    }

    /** The loop of write_head() that fills the header buffer. */
    method FillHeader()
      requires start < |view| && |view[start]| == WORDS && |lh| < LOGSIZE
      modifies `view
      ensures view == old(view)[start := Header(old(view)[start], lh)]
    {
      var n: nat := |lh|;
      var hb: Block := view[start][0 := n];
      for i := 0 to |lh|
        invariant |hb| == WORDS && hb == [n] + lh[..i] + old(view)[start][1 + i..]
      {
        hb := hb[1 + i := lh[i]];
      }
      assert lh[..|lh|] == lh;
      view := view[start := hb];
    }

    /** write_head(): the in-memory list reaches the header block. */
    method WriteHead()
      requires start < |disk| == |view| && |view[start]| == WORDS && |lh| < LOGSIZE
      modifies `disk, `view, `writesLeft
      ensures view == old(view)[start := Header(old(view)[start], lh)]
      ensures old(writesLeft) == 0 ==> disk == old(disk) && writesLeft == 0
      ensures old(writesLeft) > 0 ==>
        disk == old(disk)[start := Header(old(view)[start], lh)] && writesLeft == old(writesLeft) - 1
    {
      FillHeader();
      Bwrite(start);
    }

    /** install_trans(): the blocks the header names are copied from the log to their homes. */
    method InstallTrans(ghost contents: seq<Block>)
      requires Valid(contents)
      requires writesLeft > 0 ==> Logged(disk[start]) == lh
      requires writesLeft > 0 ==> SlotsCached(start, view, disk, |lh|)
      modifies `disk, `view, `writesLeft
      ensures Valid(contents) && disk[start] == old(disk)[start]
      ensures forall b | 0 <= b < |view| && InLog(start, b) :: view[b] == old(view)[b]
      ensures writesLeft == if old(writesLeft) < |lh| then 0 else old(writesLeft) - |lh|
      ensures writesLeft > 0 ==> Installed(start, disk, lh, |lh|)
    {
      hide Holds;
      for tail := 0 to |lh|
        invariant Valid(contents) && disk[start] == old(disk)[start]
        invariant forall b | 0 <= b < |view| && InLog(start, b) :: view[b] == old(view)[b]
        invariant writesLeft == if old(writesLeft) < tail then 0 else old(writesLeft) - tail
        invariant writesLeft > 0 ==> SlotsCached(start, view, disk, |lh|)
        invariant writesLeft > 0 ==> Installed(start, disk, lh, tail)
      {
        if writesLeft > 0 {
          InstallWrite(start, disk, contents, lh, tail);
        }
        view := view[lh[tail] := view[start + 1 + tail]];
        Bwrite(lh[tail]);
      }
    }

    /** commit(): for a power failure after any number of its writes, a recovery finds the contents
        from before the transaction or the whole transaction applied, the latter exactly when the
        header write, the write after the last log slot, took effect. */
    method Commit(ghost contents: seq<Block>)
      requires Valid(contents) && Logged(disk[start]) == []
      modifies `disk, `view, `writesLeft, `lh
      ensures Valid(if |old(lh)| < old(writesLeft) then Applied(contents, old(lh), old(view)) else contents)
      ensures lh == []
      ensures 2 * |old(lh)| + 2 <= old(writesLeft) ==> Logged(disk[start]) == []
    {
      hide Holds;
      if |lh| == 0 {
        assert Applied(contents, lh, view) == contents;
        return;
      }
      WriteLog(contents);
      ghost var after := contents;
      if writesLeft > 0 {
        after := Applied(contents, lh, old(view));
        HeaderWrite(start, disk, contents, view[start], lh, old(view));
        CopiedTwice(start, view, disk, lh, old(view));
      }
      WriteHead();
      InstallTrans(after);
      if writesLeft > 0 {
        ClearWrite(start, disk, after, lh, view[start]);
      }
      lh := [];
      WriteHead();
    }

    /** read_head(): the list on the disk becomes the list in memory. */
    method ReadHead()
      requires start < |view| && |view[start]| == WORDS && view[start][0] < LOGSIZE
      modifies `lh
      ensures lh == Logged(view[start])
    {
      lh := [];
      for i := 0 to view[start][0]
        invariant lh == view[start][1..1 + i]
      {
        lh := lh + [view[start][1 + i]];
      }
    }

    /** A reboot loses everything but the disk; the cache is filled from it. */
    method Reboot(ghost contents: seq<Block>, writes: nat)
      requires Valid(contents)
      modifies `view, `lh, `writesLeft
      ensures Valid(contents) && view == disk && lh == [] && writesLeft == writes
    {
      view, lh, writesLeft := disk, [], writes;
    }

    /** recover_from_log(): wherever the power fails, another recovery finds the same contents; a
        recovery that completes leaves them in place and the log empty. */
    method RecoverFromLog(ghost contents: seq<Block>)
      requires Valid(contents) && view == disk
      modifies `disk, `view, `writesLeft, `lh
      ensures Valid(contents) && lh == []
      ensures |Logged(old(disk)[start])| < old(writesLeft) ==> Logged(disk[start]) == []
    {
      ReadHead();
      assert DiskOk(start, disk);
      hide Holds;
      InstallTrans(contents);
      if writesLeft > 0 {
        ClearWrite(start, disk, contents, lh, view[start]);
      }
      lh := [];
      WriteHead();
    }

    /** Any number of boots, each cut short after any number of writes, and then one that completes:
        the disk holds exactly `contents` outside the log. */
    method BootUntilRecovered(ghost contents: seq<Block>, cuts: seq<nat>)
      requires Valid(contents)
      modifies this
      ensures Valid(contents) && Logged(disk[start]) == []
      ensures forall b | 0 <= b < |disk| && !InLog(start, b) :: disk[b] == contents[b]
    {
      for i := 0 to |cuts|
        invariant Valid(contents)
      {
        Reboot(contents, cuts[i]);
        RecoverFromLog(contents);
      }
      Reboot(contents, LOGSIZE);
      RecoverFromLog(contents);
      assert forall b | 0 <= b < |disk| && !InLog(start, b) :: Recovered(start, disk, b) == contents[b];
    }

    /** The whole story: the power fails after `writes` writes of a commit, and later boots fail too.
        What is finally on the disk is all of the transaction or none of it. */
    method CommitThroughCrashes(ghost contents: seq<Block>, writes: nat, cuts: seq<nat>)
      requires Valid(contents) && Logged(disk[start]) == []
      modifies this
      ensures |disk| == |old(disk)|
      ensures forall b | 0 <= b < |disk| && !InLog(start, b) ::
        disk[b] == if |old(lh)| < writes && b in old(lh) then old(view)[b] else contents[b]
    {
      hide Holds;
      writesLeft := writes;
      Commit(contents);
      ghost var after := if |old(lh)| < writes then Applied(contents, old(lh), old(view)) else contents;
      BootUntilRecovered(after, cuts);
    }
  }
}
