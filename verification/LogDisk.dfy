/** The on-disk redo log of kernel/log.c as values: what the header block says, and which contents
    a recovery would bring back.  The four ways in which the log code writes the disk are judged
    by their effect on those contents. */
module LogDisk {

  /** A block is 256 words of 32 bits; only the header's words are interpreted. */
  type Block = seq<nat>

  const WORDS: nat := 256
  const MAXOPBLOCKS: nat := 10
  const LOGSIZE: nat := 30  // MAXOPBLOCKS * 3

  /** The log occupies blocks [start, start + LOGSIZE); its first block is the header. */
  predicate InLog(start: nat, b: nat)
  {
    start <= b < start + LOGSIZE
  }

  /** The header block after write_head() has stored `lh` in the buffer `prior`. */
  function Header(prior: Block, lh: seq<nat>): (b: Block)
    requires |prior| == WORDS && |lh| < WORDS
    ensures |b| == WORDS
  {
    [|lh|] + lh + prior[1 + |lh|..]
  }

  /** The block list read_head() finds in a header block. */
  function Logged(b: Block): seq<nat>
    requires |b| == WORDS && b[0] < WORDS
  {
    b[1..1 + b[0]]
  }

  lemma HeaderRoundTrip(prior: Block, lh: seq<nat>)
    requires |prior| == WORDS && |lh| < WORDS
    ensures Header(prior, lh)[0] == |lh| && Logged(Header(prior, lh)) == lh
  {
    assert Logged(Header(prior, lh)) == lh;
  }

  ghost predicate Distinct(lh: seq<nat>)
  {
    forall i, j | 0 <= i < j < |lh| :: lh[i] != lh[j]
  }

  /** A list that fits the log and names distinct blocks outside it. */
  ghost predicate LogList(start: nat, size: nat, lh: seq<nat>)
  {
    && |lh| < LOGSIZE
    && Distinct(lh)
    && forall i | 0 <= i < |lh| :: lh[i] < size && !InLog(start, lh[i])
  }

  /** A disk on which the log fits and whose header names a proper list. */
  ghost predicate DiskOk(start: nat, disk: seq<Block>)
  {
    && start + LOGSIZE <= |disk|
    && (forall b | 0 <= b < |disk| :: |disk[b]| == WORDS)
    && disk[start][0] < LOGSIZE
    && LogList(start, |disk|, Logged(disk[start]))
  }

  ghost function IndexOf(lh: seq<nat>, b: nat): (i: nat)
    requires b in lh
    ensures i < |lh| && lh[i] == b
  {
    var i :| 0 <= i < |lh| && lh[i] == b;
    i
  }

  /** The contents of block `b` after a complete recovery from `disk`. */
  ghost function Recovered(start: nat, disk: seq<Block>, b: nat): Block
    requires DiskOk(start, disk) && b < |disk|
  {
    var lh := Logged(disk[start]);
    if b in lh then disk[start + 1 + IndexOf(lh, b)] else disk[b]
  }

  /** `contents` is what a recovery from `disk` gives outside the log. */
  ghost predicate Holds(start: nat, disk: seq<Block>, contents: seq<Block>)
  {
    && DiskOk(start, disk)
    && |contents| == |disk|
    && forall b | 0 <= b < |disk| && !InLog(start, b) :: Recovered(start, disk, b) == contents[b]
  }

  /** The first `k` blocks of `lh` are in the log with the contents `data`. */
  ghost predicate Copied(start: nat, disk: seq<Block>, lh: seq<nat>, data: seq<Block>, k: nat)
    requires start + LOGSIZE <= |disk| && k <= |lh| && LogList(start, |disk|, lh) && |data| == |disk|
  {
    forall i | 0 <= i < k :: disk[start + 1 + i] == data[lh[i]]
  }

  /** The first `k` blocks of `lh` have been installed from the log. */
  ghost predicate Installed(start: nat, disk: seq<Block>, lh: seq<nat>, k: nat)
    requires start + LOGSIZE <= |disk| && k <= |lh| && LogList(start, |disk|, lh)
  {
    forall i | 0 <= i < k :: disk[lh[i]] == disk[start + 1 + i]
  }

  /** `contents` with the blocks of `lh` replaced by `data`: one whole transaction applied. */
  ghost function Applied(contents: seq<Block>, lh: seq<nat>, data: seq<Block>): (r: seq<Block>)
    requires |data| == |contents|
    ensures |r| == |contents|
  {
    seq(|contents|, b requires 0 <= b < |contents| => if b in lh then data[b] else contents[b])
  }

  // ---- the four kinds of disk write ----

  /** Filling a log slot changes nothing while the header is empty. */
  lemma SlotWrite(start: nat, disk: seq<Block>, contents: seq<Block>, i: nat, data: Block)
    requires Holds(start, disk, contents) && Logged(disk[start]) == []
    requires i + 1 < LOGSIZE && |data| == WORDS
    ensures Holds(start, disk[start + 1 + i := data], contents)
    ensures disk[start + 1 + i := data][start] == disk[start]
  {
  }

  /** Writing the header is the commit: all of the transaction takes effect at once. */
  lemma HeaderWrite(start: nat, disk: seq<Block>, contents: seq<Block>, prior: Block, lh: seq<nat>, data: seq<Block>)
    requires Holds(start, disk, contents) && Logged(disk[start]) == []
    requires |prior| == WORDS && LogList(start, |disk|, lh) && |data| == |disk|
    requires Copied(start, disk, lh, data, |lh|)
    ensures Holds(start, disk[start := Header(prior, lh)], Applied(contents, lh, data))
    ensures Logged(disk[start := Header(prior, lh)][start]) == lh
  {
    HeaderRoundTrip(prior, lh);
    var disk' := disk[start := Header(prior, lh)];
    assert Logged(disk'[start]) == lh;
    assert DiskOk(start, disk');
    forall b | 0 <= b < |disk| && !InLog(start, b)
      ensures Recovered(start, disk', b) == Applied(contents, lh, data)[b]
    {
      assert Recovered(start, disk, b) == contents[b];
      if b in lh {
        var i := IndexOf(lh, b);
        assert disk'[start + 1 + i] == disk[start + 1 + i];
      }
    }
  }

  /** Installing a committed block changes nothing that a recovery would not change. */
  lemma InstallWrite(start: nat, disk: seq<Block>, contents: seq<Block>, lh: seq<nat>, i: nat)
    requires Holds(start, disk, contents) && Logged(disk[start]) == lh && i < |lh|
    requires Installed(start, disk, lh, i)
    ensures lh[i] < |disk|
    ensures Holds(start, disk[lh[i] := disk[start + 1 + i]], contents)
    ensures disk[lh[i] := disk[start + 1 + i]][start] == disk[start]
    ensures Installed(start, disk[lh[i] := disk[start + 1 + i]], lh, i + 1)
  {
    var disk' := disk[lh[i] := disk[start + 1 + i]];
    assert disk'[start] == disk[start];
    forall b | 0 <= b < |disk| && !InLog(start, b)
      ensures Recovered(start, disk', b) == contents[b]
    {
      assert Recovered(start, disk, b) == contents[b];
    }
  }

  /** Clearing the header after a complete installation changes nothing. */
  lemma ClearWrite(start: nat, disk: seq<Block>, contents: seq<Block>, lh: seq<nat>, prior: Block)
    requires Holds(start, disk, contents) && Logged(disk[start]) == lh && |prior| == WORDS
    requires Installed(start, disk, lh, |lh|)
    ensures Holds(start, disk[start := Header(prior, [])], contents)
    ensures Logged(disk[start := Header(prior, [])][start]) == []
  {
    HeaderRoundTrip(prior, []);
    var disk' := disk[start := Header(prior, [])];
    forall b | 0 <= b < |disk| && !InLog(start, b)
      ensures Recovered(start, disk', b) == contents[b]
    {
      assert Recovered(start, disk, b) == contents[b];
    }
  }
}
