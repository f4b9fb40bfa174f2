/** Every interleaving of file-system operations, commits, crashes and recoveries over the log of
    kernel/log.c and the buffer cache of kernel/bio.c.

  A step is one critical section or one disk write.  Buffers are keyed by block number; an unused
  buffer may be recycled at any time (which one bget() picks is the subject of module BufferCache).
  Clients follow the code's discipline: they change a buffer only inside an operation and while
  holding it, and call log_write() before releasing it.
 */
module LogSystem {
  import opened LogDisk

  datatype Phase =
    | Running                 // operations may be in progress
    | Copying(slots: nat)     // write_log(): this many log slots are filled
    | Installing(homes: nat)  // install_trans(0): this many blocks are installed
    | Booting                 // after a crash, before read_head()
    | Recovering(homes: nat)  // install_trans(1)

  datatype State = State(
    disk: seq<Block>,
    data: map<nat, Block>,    // cached copies, by block number
    refs: map<nat, nat>,      // their reference counts
    holder: map<nat, nat>,    // who has the buffer locked
    dirty: set<nat>,          // changed since the last log_write()
    lh: seq<nat>,             // log.lh
    ops: map<nat, nat>,       // operations in progress, with the number of blocks each has added to the log
    phase: Phase,
    latest: seq<Block>,       // history: the contents as last logged
    committed: seq<Block>)    // history: the contents at the last commit

  datatype Step =
    | BeginOp(op: nat)
    | Bread(client: nat, b: nat)
    | Modify(client: nat, b: nat, block: Block)
    | LogWrite(op: nat, b: nat)
    | Brelse(client: nat, b: nat)
    | Recycle(b: nat)
    | EndOp(op: nat)
    | CopySlot
    | CommitHeader
    | InstallBlock
    | ClearHeader
    | Crash
    | ReadHead
    | RecoverBlock
    | RecoverClear

  /** The test at the top of log_write() that panics: log.size is LOGSIZE on a disk made by mkfs. */
  predicate LogFull(s: State)
  {
    |s.lh| >= LOGSIZE || |s.lh| >= LOGSIZE - 1
  }

  // ---- steps: each states when it can happen and the state it leads to ----

  /** begin_op() past its waiting loop. */
  ghost predicate BeginOpStep(s: State, s': State, op: nat)
  {
    && s.phase.Running? && op !in s.ops && |s.lh| + (|s.ops| + 1) * MAXOPBLOCKS <= LOGSIZE
    && s' == s.(ops := s.ops[op := 0])
  }

  /** bread() of a home block whose buffer nobody has locked. */
  ghost predicate BreadStep(start: nat, s: State, s': State, client: nat, b: nat)
  {
    && !s.phase.Booting? && !s.phase.Recovering? && b < |s.disk| && !InLog(start, b) && b !in s.holder
    && (b in s.data ==> b in s.refs)
    && s' == if b in s.data then
               s.(holder := s.holder[b := client], refs := s.refs[b := s.refs[b] + 1])
             else
               s.(data := s.data[b := s.disk[b]], refs := s.refs[b := 1], holder := s.holder[b := client])
  }

  /** A store into a locked buffer by an operation. */
  ghost predicate ModifyStep(s: State, s': State, client: nat, b: nat, block: Block)
  {
    && b in s.holder && s.holder[b] == client && client in s.ops && |block| == WORDS
    && s' == s.(data := s.data[b := block], dirty := s.dirty + {b})
  }

  /** An operation that respects its limit is about to call log_write(). */
  ghost predicate WantsLogWrite(limit: nat, s: State, op: nat, b: nat)
  {
    op in s.ops && b in s.holder && s.holder[b] == op && (b in s.lh || s.ops[op] < limit)
  }

  /** log_write(): the block is absorbed, or added to the log and pinned. */
  ghost predicate LogWriteStep(limit: nat, s: State, s': State, op: nat, b: nat)
  {
    && WantsLogWrite(limit, s, op, b) && !LogFull(s)
    && b in s.data && b in s.refs && b < |s.latest|
    && var s1 := s.(latest := s.latest[b := s.data[b]], dirty := s.dirty - {b});
       s' == if b in s.lh then s1
             else s1.(lh := s.lh + [b], refs := s.refs[b := s.refs[b] + 1], ops := s.ops[op := s.ops[op] + 1])
  }

  /** brelse(). */
  ghost predicate BrelseStep(s: State, s': State, client: nat, b: nat)
  {
    && b in s.holder && s.holder[b] == client && b !in s.dirty && b in s.refs && s.refs[b] > 0
    && s' == s.(holder := s.holder - {b}, refs := s.refs[b := s.refs[b] - 1])
  }

  /** bget() takes an unused buffer for another block. */
  ghost predicate RecycleStep(s: State, s': State, b: nat)
  {
    b in s.refs && s.refs[b] == 0 && s' == s.(data := s.data - {b}, refs := s.refs - {b})
  }

  /** end_op(): the last operation starts a commit if there is anything to commit. */
  ghost predicate EndOpStep(s: State, s': State, op: nat)
  {
    && op in s.ops && (forall b | b in s.holder :: s.holder[b] != op)
    && s' == s.(ops := s.ops - {op}, phase := if s.ops.Keys == {op} && |s.lh| > 0 then Copying(0) else s.phase)
  }

  /** One iteration of write_log(). */
  ghost predicate CopySlotStep(start: nat, s: State, s': State)
  {
    && s.phase.Copying? && s.phase.slots < |s.lh| && start + 1 + s.phase.slots < |s.disk|
    && var i := s.phase.slots;
       && s.lh[i] in s.data && s.lh[i] !in s.holder
       && s' == s.(disk := s.disk[start + 1 + i := s.data[s.lh[i]]], phase := Copying(i + 1))
  }

  /** The first write_head() of commit(). */
  ghost predicate CommitHeaderStep(start: nat, s: State, s': State)
  {
    && s.phase.Copying? && s.phase.slots == |s.lh| < LOGSIZE && start < |s.disk| && |s.disk[start]| == WORDS
    && s' == s.(disk := s.disk[start := Header(s.disk[start], s.lh)], phase := Installing(0), committed := s.latest)
  }

  /** One iteration of install_trans(0), which also unpins the buffer. */
  ghost predicate InstallBlockStep(start: nat, s: State, s': State)
  {
    && s.phase.Installing? && s.phase.homes < |s.lh| && start + 1 + s.phase.homes < |s.disk|
    && var i := s.phase.homes;
       && s.lh[i] < |s.disk| && s.lh[i] !in s.holder && s.lh[i] in s.refs && s.refs[s.lh[i]] > 0
       && s' == s.(disk := s.disk[s.lh[i] := s.disk[start + 1 + i]], phase := Installing(i + 1),
                   refs := s.refs[s.lh[i] := s.refs[s.lh[i]] - 1])
  }

  /** The second write_head() of commit(). */
  ghost predicate ClearHeaderStep(start: nat, s: State, s': State)
  {
    && s.phase.Installing? && s.phase.homes == |s.lh| && start < |s.disk| && |s.disk[start]| == WORDS
    && s' == s.(disk := s.disk[start := Header(s.disk[start], [])], phase := Running, lh := [])
  }

  /** Only the disk survives a crash, which can come at any time. */
  ghost predicate CrashStep(s: State, s': State)
  {
    s' == s.(data := map[], refs := map[], holder := map[], dirty := {}, lh := [], ops := map[],
             phase := Booting, latest := s.committed)
  }

  ghost predicate ReadHeadStep(start: nat, s: State, s': State)
  {
    && s.phase.Booting? && start < |s.disk| && |s.disk[start]| == WORDS && s.disk[start][0] < WORDS
    && s' == s.(lh := Logged(s.disk[start]), phase := Recovering(0))
  }

  /** One iteration of install_trans(1). */
  ghost predicate RecoverBlockStep(start: nat, s: State, s': State)
  {
    && s.phase.Recovering? && s.phase.homes < |s.lh| && start + 1 + s.phase.homes < |s.disk|
    && var i := s.phase.homes;
       && s.lh[i] < |s.disk|
       && s' == s.(disk := s.disk[s.lh[i] := s.disk[start + 1 + i]], phase := Recovering(i + 1))
  }

  ghost predicate RecoverClearStep(start: nat, s: State, s': State)
  {
    && s.phase.Recovering? && s.phase.homes == |s.lh| && start < |s.disk| && |s.disk[start]| == WORDS
    && s' == s.(disk := s.disk[start := Header(s.disk[start], [])], phase := Running, lh := [])
  }

  /** `limit` is the number of blocks one operation may add to the log. */
  ghost predicate Next(start: nat, limit: nat, s: State, s': State, step: Step)
  {
    match step
    case BeginOp(op) => BeginOpStep(s, s', op)
    case Bread(client, b) => BreadStep(start, s, s', client, b)
    case Modify(client, b, block) => ModifyStep(s, s', client, b, block)
    case LogWrite(op, b) => LogWriteStep(limit, s, s', op, b)
    case Brelse(client, b) => BrelseStep(s, s', client, b)
    case Recycle(b) => RecycleStep(s, s', b)
    case EndOp(op) => EndOpStep(s, s', op)
    case CopySlot => CopySlotStep(start, s, s')
    case CommitHeader => CommitHeaderStep(start, s, s')
    case InstallBlock => InstallBlockStep(start, s, s')
    case ClearHeader => ClearHeaderStep(start, s, s')
    case Crash => CrashStep(s, s')
    case ReadHead => ReadHeadStep(start, s, s')
    case RecoverBlock => RecoverBlockStep(start, s, s')
    case RecoverClear => RecoverClearStep(start, s, s')
  }

  // ---- invariants ----

  ghost function Elements(lh: seq<nat>): set<nat>
  {
    set b | b in lh
  }

  lemma AddElement(lh: seq<nat>, b: nat)
    ensures Elements(lh + [b]) == Elements(lh) + {b}
  {
  }

  lemma DropElement(lh: seq<nat>, i: nat)
    requires Distinct(lh) && i < |lh|
    ensures lh[i] in Elements(lh[i..]) && Elements(lh[i + 1..]) == Elements(lh[i..]) - {lh[i]}
  {
    assert lh[i..] == [lh[i]] + lh[i + 1..];
  }

  /** Blocks that log_write() has pinned and install_trans() has not yet unpinned. */
  ghost function Pinned(s: State): set<nat>
  {
    match s.phase
    case Running => Elements(s.lh)
    case Copying(_) => Elements(s.lh)
    case Installing(i) => if i <= |s.lh| then Elements(s.lh[i..]) else {}
    case Booting => {}
    case Recovering(_) => {}
  }

  /** Reference counts are exact, pinned blocks are cached, and every copy that is not being changed
      has the contents last logged. */
  ghost predicate CacheOk(start: nat, latest: seq<Block>, data: map<nat, Block>, refs: map<nat, nat>,
                          holder: map<nat, nat>, dirty: set<nat>, ops: set<nat>, pins: set<nat>)
  {
    && refs.Keys == data.Keys
    && holder.Keys <= data.Keys
    && dirty <= holder.Keys
    && pins <= data.Keys
    && (forall b | b in dirty :: holder[b] in ops)
    && (forall b | b in data :: b < |latest| && !InLog(start, b) && |data[b]| == WORDS)
    && (forall b | b in data :: refs[b] == (if b in holder then 1 else 0) + (if b in pins then 1 else 0))
    && (forall b | b in data && b !in dirty :: data[b] == latest[b])
  }

  ghost predicate CacheInv(start: nat, s: State)
  {
    CacheOk(start, s.latest, s.data, s.refs, s.holder, s.dirty, s.ops.Keys, Pinned(s))
  }

  /** What the disk holds in each phase. */
  ghost predicate DiskInv(start: nat, s: State)
  {
    && Holds(start, s.disk, s.committed)
    && Sized(start, s.disk, s.latest, s.committed)
    && LogList(start, |s.disk|, s.lh)
    && (!s.phase.Running? ==> s.ops == map[])
    && match s.phase
       case Running => Uncommitted(start, s.disk, s.lh, s.latest, s.committed) && (s.ops == map[] ==> s.lh == [])
       case Copying(i) =>
         && Uncommitted(start, s.disk, s.lh, s.latest, s.committed)
         && i <= |s.lh| && Copied(start, s.disk, s.lh, s.latest, i)
       case Installing(i) => s.committed == s.latest && BeingInstalled(start, s.disk, s.lh, i)
       case Booting => s.committed == s.latest && s.lh == []
       case Recovering(i) => s.committed == s.latest && BeingInstalled(start, s.disk, s.lh, i)
  }

  ghost predicate Sized(start: nat, disk: seq<Block>, latest: seq<Block>, committed: seq<Block>)
  {
    && start + LOGSIZE <= |disk| == |latest| == |committed|
    && |disk[start]| == WORDS && disk[start][0] < LOGSIZE
    && (forall b | 0 <= b < |latest| :: |latest[b]| == WORDS)
    && (forall b | 0 <= b < |committed| :: |committed[b]| == WORDS)
  }

  /** The header is empty, and only the blocks in the log differ from the last commit. */
  ghost predicate Uncommitted(start: nat, disk: seq<Block>, lh: seq<nat>, latest: seq<Block>, committed: seq<Block>)
    requires Sized(start, disk, latest, committed)
  {
    && Logged(disk[start]) == []
    && forall b | 0 <= b < |disk| && !InLog(start, b) && b !in lh :: committed[b] == latest[b]
  }

  ghost predicate BeingInstalled(start: nat, disk: seq<Block>, lh: seq<nat>, i: nat)
    requires start + LOGSIZE <= |disk| && |disk[start]| == WORDS && disk[start][0] < LOGSIZE
    requires LogList(start, |disk|, lh)
  {
    Logged(disk[start]) == lh && i <= |lh| && Installed(start, disk, lh, i)
  }

  /** The log blocks that the operations in progress may still add. */
  ghost function Slack(limit: nat, ops: map<nat, nat>): int
    decreases |ops|
  {
    if ops == map[] then 0
    else
      var op :| op in ops;
      assert |ops - {op}| < |ops| by { assert (ops - {op}).Keys == ops.Keys - {op}; }
      limit - ops[op] + Slack(limit, ops - {op})
  }

  /** The admission test of begin_op() bounds the log. */
  ghost predicate ReservationInv(limit: nat, s: State)
  {
    && (forall op | op in s.ops :: s.ops[op] <= limit)
    && (s.phase.Running? ==> |s.lh| + Slack(limit, s.ops) <= MAXOPBLOCKS + 2 * limit)
  }

  lemma {:induction false} SlackRemove(limit: nat, ops: map<nat, nat>, op: nat)
    requires op in ops
    ensures Slack(limit, ops) == limit - ops[op] + Slack(limit, ops - {op})
    decreases |ops|
  {
    var x :| x in ops && Slack(limit, ops) == limit - ops[x] + Slack(limit, ops - {x});
    if x != op {
      assert (ops - {x}).Keys == ops.Keys - {x};
      assert (ops - {op}).Keys == ops.Keys - {op};
      SlackRemove(limit, ops - {x}, op);
      SlackRemove(limit, ops - {op}, x);
      assert ops - {x} - {op} == ops - {op} - {x};
    }
  }

  lemma SlackUpdate(limit: nat, ops: map<nat, nat>, op: nat, n: nat)
    ensures Slack(limit, ops[op := n]) == limit - n + Slack(limit, ops - {op})
  {
    SlackRemove(limit, ops[op := n], op);
    assert ops[op := n] - {op} == ops - {op};
  }

  lemma {:induction false} SlackBound(limit: nat, ops: map<nat, nat>)
    requires forall op | op in ops :: ops[op] <= limit
    ensures 0 <= Slack(limit, ops) <= |ops| * limit
    decreases |ops|
  {
    if ops != map[] {
      var op :| op in ops;
      var rest := ops - {op};
      SlackRemove(limit, ops, op);
      SlackBound(limit, rest);
      assert |rest| == |ops| - 1 by { assert rest.Keys == ops.Keys - {op}; }
      OneMore(|rest|, limit);
    }
  }

  lemma OneMore(n: nat, limit: nat)
    ensures n * limit + limit == (n + 1) * limit
  {
  }

  /** An uncached or unpinned home block is up to date on the disk. */
  lemma UnpinnedCurrent(start: nat, s: State, b: nat)
    requires DiskInv(start, s) && !s.phase.Booting? && !s.phase.Recovering?
    requires b < |s.disk| && !InLog(start, b) && b !in Pinned(s)
    ensures b < |s.latest| && |s.latest[b]| == WORDS && s.disk[b] == s.latest[b]
  {
    assert Recovered(start, s.disk, b) == s.committed[b];
  }

  // ---- preservation ----

  ghost predicate Inv(start: nat, limit: nat, s: State)
  {
    CacheInv(start, s) && DiskInv(start, s) && ReservationInv(limit, s)
  }

  lemma LoadKeeps(start: nat, latest: seq<Block>, data: map<nat, Block>, refs: map<nat, nat>, holder: map<nat, nat>,
                  dirty: set<nat>, ops: set<nat>, pins: set<nat>, client: nat, b: nat)
    requires CacheOk(start, latest, data, refs, holder, dirty, ops, pins)
    requires b !in data && b < |latest| && !InLog(start, b) && |latest[b]| == WORDS
    ensures CacheOk(start, latest, data[b := latest[b]], refs[b := 1], holder[b := client], dirty, ops, pins)
  {
  }

  lemma LockKeeps(start: nat, latest: seq<Block>, data: map<nat, Block>, refs: map<nat, nat>, holder: map<nat, nat>,
                  dirty: set<nat>, ops: set<nat>, pins: set<nat>, client: nat, b: nat)
    requires CacheOk(start, latest, data, refs, holder, dirty, ops, pins)
    requires b in data && b !in holder
    ensures CacheOk(start, latest, data, refs[b := refs[b] + 1], holder[b := client], dirty, ops, pins)
  {
  }

  lemma LogKeeps(start: nat, latest: seq<Block>, data: map<nat, Block>, refs: map<nat, nat>, holder: map<nat, nat>,
                 dirty: set<nat>, ops: set<nat>, pins: set<nat>, b: nat)
    requires CacheOk(start, latest, data, refs, holder, dirty, ops, pins)
    requires b in data
    ensures b in pins ==> CacheOk(start, latest[b := data[b]], data, refs, holder, dirty - {b}, ops, pins)
    ensures b !in pins ==>
      CacheOk(start, latest[b := data[b]], data, refs[b := refs[b] + 1], holder, dirty - {b}, ops, pins + {b})
  {
  }

  lemma ReleaseKeeps(start: nat, latest: seq<Block>, data: map<nat, Block>, refs: map<nat, nat>, holder: map<nat, nat>,
                     dirty: set<nat>, ops: set<nat>, pins: set<nat>, b: nat)
    requires CacheOk(start, latest, data, refs, holder, dirty, ops, pins)
    requires b in holder && b !in dirty
    ensures refs[b] > 0
    ensures CacheOk(start, latest, data, refs[b := refs[b] - 1], holder - {b}, dirty, ops, pins)
  {
  }

  lemma RecycleKeeps(start: nat, latest: seq<Block>, data: map<nat, Block>, refs: map<nat, nat>, holder: map<nat, nat>,
                     dirty: set<nat>, ops: set<nat>, pins: set<nat>, b: nat)
    requires CacheOk(start, latest, data, refs, holder, dirty, ops, pins)
    requires b in refs && refs[b] == 0
    ensures b !in pins
    ensures CacheOk(start, latest, data - {b}, refs - {b}, holder, dirty, ops, pins)
  {
    assert (refs - {b}).Keys == refs.Keys - {b} && (data - {b}).Keys == data.Keys - {b};
  }

  lemma UnpinKeeps(start: nat, latest: seq<Block>, data: map<nat, Block>, refs: map<nat, nat>, holder: map<nat, nat>,
                   dirty: set<nat>, ops: set<nat>, pins: set<nat>, b: nat)
    requires CacheOk(start, latest, data, refs, holder, dirty, ops, pins)
    requires b in pins
    ensures b in refs && refs[b] > 0
    ensures CacheOk(start, latest, data, refs[b := refs[b] - 1], holder, dirty, ops, pins - {b})
  {
  }

  lemma CacheBread(start: nat, s: State, s': State, client: nat, b: nat)
    requires CacheInv(start, s) && BreadStep(start, s, s', client, b)
    requires b !in Pinned(s) ==> b < |s.latest| && |s.latest[b]| == WORDS && s.disk[b] == s.latest[b]
    ensures CacheInv(start, s')
  {
    assert Pinned(s') == Pinned(s);
    if b in s.data {
      LockKeeps(start, s.latest, s.data, s.refs, s.holder, s.dirty, s.ops.Keys, Pinned(s), client, b);
    } else {
      LoadKeeps(start, s.latest, s.data, s.refs, s.holder, s.dirty, s.ops.Keys, Pinned(s), client, b);
    }
  }

  lemma CacheLogWrite(start: nat, limit: nat, s: State, s': State, op: nat, b: nat)
    requires CacheInv(start, s) && s.phase.Running? && LogWriteStep(limit, s, s', op, b)
    ensures CacheInv(start, s')
  {
    LogKeeps(start, s.latest, s.data, s.refs, s.holder, s.dirty, s.ops.Keys, Pinned(s), b);
    hide CacheOk;
    AddElement(s.lh, b);
    assert b in s.lh <==> b in Elements(s.lh);
    hide Elements;
    assert s'.ops.Keys == s.ops.Keys;
  }

  lemma CacheInstall(start: nat, s: State, s': State)
    requires CacheInv(start, s) && Distinct(s.lh) && InstallBlockStep(start, s, s')
    ensures CacheInv(start, s')
  {
    var i := s.phase.homes;
    hide CacheOk;
    DropElement(s.lh, i);
    hide Elements;
    UnpinKeeps(start, s.latest, s.data, s.refs, s.holder, s.dirty, s.ops.Keys, Pinned(s), s.lh[i]);
  }

  lemma CacheRelease(start: nat, s: State, s': State, client: nat, b: nat)
    requires CacheInv(start, s) && BrelseStep(s, s', client, b)
    ensures CacheInv(start, s')
  {
    ReleaseKeeps(start, s.latest, s.data, s.refs, s.holder, s.dirty, s.ops.Keys, Pinned(s), b);
    assert Pinned(s') == Pinned(s);
  }

  lemma CacheRecycle(start: nat, s: State, s': State, b: nat)
    requires CacheInv(start, s) && RecycleStep(s, s', b)
    ensures CacheInv(start, s') && b !in Pinned(s)
  {
    RecycleKeeps(start, s.latest, s.data, s.refs, s.holder, s.dirty, s.ops.Keys, Pinned(s), b);
    assert Pinned(s') == Pinned(s);
  }

  lemma CacheModify(start: nat, s: State, s': State, client: nat, b: nat, block: Block)
    requires CacheInv(start, s) && ModifyStep(s, s', client, b, block)
    ensures CacheInv(start, s')
  {
    assert Pinned(s') == Pinned(s);
  }

  lemma CacheEndOp(start: nat, s: State, s': State, op: nat)
    requires CacheInv(start, s) && s.phase.Running? && EndOpStep(s, s', op)
    ensures CacheInv(start, s')
  {
    assert Pinned(s') == Pinned(s);
  }

  lemma CacheCommit(start: nat, s: State, s': State)
    requires CacheInv(start, s)
    requires CopySlotStep(start, s, s') || CommitHeaderStep(start, s, s') || ClearHeaderStep(start, s, s')
    ensures CacheInv(start, s')
  {
    hide CacheOk;
    assert Pinned(s') == Pinned(s);
  }

  // ---- the disk ----

  lemma HoldsAgain(start: nat, disk: seq<Block>, c1: seq<Block>, c2: seq<Block>)
    requires Holds(start, disk, c1) && |c1| == |c2|
    requires forall b | 0 <= b < |c1| && !InLog(start, b) :: c1[b] == c2[b]
    ensures Holds(start, disk, c2)
  {
    forall b | 0 <= b < |disk| && !InLog(start, b)
      ensures Recovered(start, disk, b) == c2[b]
    {
      assert Recovered(start, disk, b) == c1[b];
    }
  }

  lemma AppendLogList(start: nat, size: nat, lh: seq<nat>, b: nat)
    requires LogList(start, size, lh) && |lh| < LOGSIZE - 1 && b !in lh && b < size && !InLog(start, b)
    ensures LogList(start, size, lh + [b])
  {
  }

  lemma DiskLogWrite(start: nat, limit: nat, s: State, s': State, op: nat, b: nat)
    requires DiskInv(start, s) && LogWriteStep(limit, s, s', op, b) && !InLog(start, b) && |s.data[b]| == WORDS
    ensures DiskInv(start, s')
  {
    hide Holds;
    if b !in s.lh {
      AppendLogList(start, |s.disk|, s.lh, b);
    }
    assert forall c | c in s.lh + [b] :: c in s.lh || c == b;
    hide LogList;
    assert s'.ops.Keys == s.ops.Keys;
    assert Sized(start, s'.disk, s'.latest, s'.committed);
  }

  lemma DiskCopySlot(start: nat, s: State, s': State)
    requires DiskInv(start, s) && CopySlotStep(start, s, s')
    requires s.data[s.lh[s.phase.slots]] == s.latest[s.lh[s.phase.slots]]
    ensures DiskInv(start, s')
  {
    var i := s.phase.slots;
    hide Holds;
    SlotWrite(start, s.disk, s.committed, i, s.data[s.lh[i]]);
  }

  lemma DiskCommitHeader(start: nat, s: State, s': State)
    requires DiskInv(start, s) && CommitHeaderStep(start, s, s')
    ensures DiskInv(start, s')
  {
    hide Holds;
    HeaderRoundTrip(s.disk[start], s.lh);
    HeaderWrite(start, s.disk, s.committed, s.disk[start], s.lh, s.latest);
    HoldsAgain(start, s'.disk, Applied(s.committed, s.lh, s.latest), s.latest);
  }

  lemma DiskInstall(start: nat, s: State, s': State)
    requires DiskInv(start, s) && InstallBlockStep(start, s, s')
    ensures DiskInv(start, s')
  {
    hide Holds;
    InstallWrite(start, s.disk, s.committed, s.lh, s.phase.homes);
    hide Installed;
    hide LogList;
  }

  lemma DiskRecover(start: nat, s: State, s': State)
    requires DiskInv(start, s) && RecoverBlockStep(start, s, s')
    ensures DiskInv(start, s')
  {
    hide Holds;
    InstallWrite(start, s.disk, s.committed, s.lh, s.phase.homes);
    hide Installed;
    hide LogList;
  }

  lemma DiskClear(start: nat, s: State, s': State)
    requires DiskInv(start, s) && (ClearHeaderStep(start, s, s') || RecoverClearStep(start, s, s'))
    ensures DiskInv(start, s')
  {
    hide Holds;
    HeaderRoundTrip(s.disk[start], []);
    ClearWrite(start, s.disk, s.committed, s.lh, s.disk[start]);
  }

  lemma DiskBoot(start: nat, s: State, s': State)
    requires DiskInv(start, s) && (CrashStep(s, s') || ReadHeadStep(start, s, s'))
    ensures DiskInv(start, s')
  {
    assert DiskOk(start, s.disk);
    hide Holds;
  }

  lemma DiskUntouched(start: nat, s: State, s': State)
    requires DiskInv(start, s)
    requires s'.disk == s.disk && s'.latest == s.latest && s'.committed == s.committed && s'.lh == s.lh
    requires s'.phase == s.phase || (s.phase == Running && s'.phase == Copying(0) && s'.ops == map[])
    requires s.phase.Running? && s'.phase == Running && s'.ops == map[] ==> s.ops == map[] || s.lh == []
    requires !s.phase.Running? ==> s'.ops == map[]
    ensures DiskInv(start, s')
  {
    hide Holds;
  }

  // ---- the reservation ----

  lemma ReserveBegin(limit: nat, s: State, s': State, op: nat)
    requires limit <= MAXOPBLOCKS && ReservationInv(limit, s) && BeginOpStep(s, s', op)
    requires s.ops == map[] ==> s.lh == []
    ensures ReservationInv(limit, s')
  {
    hide Slack;
    SlackUpdate(limit, s.ops, op, 0);
    assert s.ops - {op} == s.ops;
    SlackBound(limit, s.ops);
    Admission(|s.lh|, |s.ops|, Slack(limit, s.ops), limit);
  }

  /** begin_op() admits at most three operations, the second only while at most ten blocks are logged
      and the third only while none is. */
  lemma Admission(n: nat, m: nat, slack: int, limit: nat)
    requires limit <= MAXOPBLOCKS && slack <= m * limit && n + (m + 1) * MAXOPBLOCKS <= LOGSIZE
    requires m == 0 ==> n == 0
    ensures n + limit + slack <= MAXOPBLOCKS + 2 * limit
  {
    if m == 0 {
    } else if m == 1 {
      assert m * limit == limit;
    } else {
      assert m == 2 && m * limit == 2 * limit;
    }
  }

  lemma ReserveLogWrite(limit: nat, s: State, s': State, op: nat, b: nat)
    requires ReservationInv(limit, s) && LogWriteStep(limit, s, s', op, b)
    ensures ReservationInv(limit, s')
  {
    SlackRemove(limit, s.ops, op);
    SlackUpdate(limit, s.ops, op, s.ops[op] + 1);
    hide Slack;
  }

  lemma ReserveEnd(limit: nat, s: State, s': State, op: nat)
    requires ReservationInv(limit, s) && EndOpStep(s, s', op)
    ensures ReservationInv(limit, s')
  {
    SlackRemove(limit, s.ops, op);
    hide Slack;
  }

  lemma ReserveReset(limit: nat, s: State)
    requires s.ops == map[] && (s.phase.Running? ==> s.lh == [])
    ensures ReservationInv(limit, s)
  {
  }

  // ---- every step, every run ----

  lemma CacheBegin(start: nat, s: State, s': State, op: nat)
    requires CacheInv(start, s) && BeginOpStep(s, s', op)
    ensures CacheInv(start, s')
  {
    assert Pinned(s') == Pinned(s);
  }

  lemma CacheReset(start: nat, s: State)
    requires s.data == map[] && s.refs == map[] && s.holder == map[] && s.dirty == {} && Pinned(s) == {}
    ensures CacheInv(start, s)
  {
  }

  lemma LastOp(ops: map<nat, nat>, op: nat)
    requires op in ops
    ensures ops.Keys == {op} <==> ops - {op} == map[]
  {
    if ops - {op} == map[] {
      assert forall k | k in ops && k != op :: k in ops - {op};
    }
  }

  lemma InvOperation(start: nat, limit: nat, s: State, s': State, op: nat, b: nat)
    requires limit <= MAXOPBLOCKS && Inv(start, limit, s)
    requires BeginOpStep(s, s', op) || LogWriteStep(limit, s, s', op, b) || EndOpStep(s, s', op)
    ensures Inv(start, limit, s')
  {
    assert op in s.ops ==> s.phase.Running?;
    if BeginOpStep(s, s', op) {
      hide CacheInv;
      hide Holds;
      hide Slack;
      ReserveBegin(limit, s, s', op);
      DiskUntouched(start, s, s');
      CacheBegin(start, s, s', op);
    } else if EndOpStep(s, s', op) {
      hide CacheInv;
      hide Holds;
      hide Slack;
      ReserveEnd(limit, s, s', op);
      LastOp(s.ops, op);
      DiskUntouched(start, s, s');
      CacheEndOp(start, s, s', op);
    } else {
      assert !InLog(start, b) && |s.data[b]| == WORDS;
      hide DiskInv;
      hide CacheInv;
      hide ReservationInv;
      ReserveLogWrite(limit, s, s', op, b);
      DiskLogWrite(start, limit, s, s', op, b);
      CacheLogWrite(start, limit, s, s', op, b);
    }
  }

  lemma InvBuffer(start: nat, limit: nat, s: State, s': State, client: nat, b: nat, block: Block)
    requires Inv(start, limit, s)
    requires BreadStep(start, s, s', client, b) || ModifyStep(s, s', client, b, block)
          || BrelseStep(s, s', client, b) || RecycleStep(s, s', b)
    ensures Inv(start, limit, s')
  {
    hide CacheOk;
    hide Slack;
    hide Holds;
    DiskUntouched(start, s, s');
    if BreadStep(start, s, s', client, b) {
      if b !in Pinned(s) {
        UnpinnedCurrent(start, s, b);
      }
      CacheBread(start, s, s', client, b);
    } else if ModifyStep(s, s', client, b, block) {
      CacheModify(start, s, s', client, b, block);
    } else if BrelseStep(s, s', client, b) {
      CacheRelease(start, s, s', client, b);
    } else {
      CacheRecycle(start, s, s', b);
    }
  }

  lemma InvCommit(start: nat, limit: nat, s: State, s': State)
    requires limit <= MAXOPBLOCKS && Inv(start, limit, s)
    requires CopySlotStep(start, s, s') || CommitHeaderStep(start, s, s')
          || InstallBlockStep(start, s, s') || ClearHeaderStep(start, s, s')
    ensures Inv(start, limit, s')
  {
    assert s.ops == map[] && Distinct(s.lh);
    ReserveReset(limit, s');
    if CopySlotStep(start, s, s') {
      assert s.data[s.lh[s.phase.slots]] == s.latest[s.lh[s.phase.slots]];
      hide CacheInv;
      hide DiskInv;
      DiskCopySlot(start, s, s');
      CacheCommit(start, s, s');
    } else if CommitHeaderStep(start, s, s') {
      hide CacheInv;
      hide DiskInv;
      DiskCommitHeader(start, s, s');
      CacheCommit(start, s, s');
    } else if InstallBlockStep(start, s, s') {
      hide CacheInv;
      hide DiskInv;
      DiskInstall(start, s, s');
      CacheInstall(start, s, s');
    } else {
      hide CacheInv;
      hide DiskInv;
      DiskClear(start, s, s');
      CacheCommit(start, s, s');
    }
  }

  lemma InvBoot(start: nat, limit: nat, s: State, s': State)
    requires Inv(start, limit, s)
    requires CrashStep(s, s') || ReadHeadStep(start, s, s') || RecoverBlockStep(start, s,
                                                                                s') || RecoverClearStep(start, s, s')
    ensures Inv(start, limit, s')
  {
    hide Holds;
    assert !s.phase.Running? ==> s.ops == map[];
    hide DiskInv;
    if CrashStep(s, s') {
      DiskBoot(start, s, s');
      CacheReset(start, s');
    } else {
      assert Pinned(s') == Pinned(s);
      hide CacheOk;
      if ReadHeadStep(start, s, s') {
        DiskBoot(start, s, s');
      } else if RecoverBlockStep(start, s, s') {
        DiskRecover(start, s, s');
      } else {
        DiskClear(start, s, s');
      }
    }
    ReserveReset(limit, s');
  }

  /** Every step keeps the invariants. */
  lemma InvStep(start: nat, limit: nat, s: State, s': State, step: Step)
    requires limit <= MAXOPBLOCKS && Inv(start, limit, s) && Next(start, limit, s, s', step)
    ensures Inv(start, limit, s')
  {
    hide Inv;
    hide BeginOpStep;
    hide BreadStep;
    hide ModifyStep;
    hide LogWriteStep;
    hide BrelseStep;
    hide RecycleStep;
    hide EndOpStep;
    hide CopySlotStep;
    hide CommitHeaderStep;
    hide InstallBlockStep;
    hide ClearHeaderStep;
    hide CrashStep;
    hide ReadHeadStep;
    hide RecoverBlockStep;
    hide RecoverClearStep;
    match step
    case BeginOp(op) => InvOperation(start, limit, s, s', op, 0);
    case Bread(client, b) => InvBuffer(start, limit, s, s', client, b, []);
    case Modify(client, b, block) => InvBuffer(start, limit, s, s', client, b, block);
    case LogWrite(op, b) => InvOperation(start, limit, s, s', op, b);
    case Brelse(client, b) => InvBuffer(start, limit, s, s', client, b, []);
    case Recycle(b) => InvBuffer(start, limit, s, s', 0, b, []);
    case EndOp(op) => InvOperation(start, limit, s, s', op, 0);
    case CopySlot => InvCommit(start, limit, s, s');
    case CommitHeader => InvCommit(start, limit, s, s');
    case InstallBlock => InvCommit(start, limit, s, s');
    case ClearHeader => InvCommit(start, limit, s, s');
    case Crash => InvBoot(start, limit, s, s');
    case ReadHead => InvBoot(start, limit, s, s');
    case RecoverBlock => InvBoot(start, limit, s, s');
    case RecoverClear => InvBoot(start, limit, s, s');
  }

  /** The machine at power-on: nothing in memory, any proper disk. */
  ghost predicate Init(start: nat, s: State)
  {
    && Holds(start, s.disk, s.committed)
    && (forall b | 0 <= b < |s.committed| :: |s.committed[b]| == WORDS)
    && s == State(s.disk, map[], map[], map[], {}, [], map[], Booting, s.committed, s.committed)
  }

  /** A run: states joined by steps, from power-on. */
  ghost predicate Run(start: nat, limit: nat, states: seq<State>, steps: seq<Step>)
  {
    && |states| == |steps| + 1
    && Init(start, states[0])
    && forall i | 0 <= i < |steps| :: Next(start, limit, states[i], states[i + 1], steps[i])
  }

  lemma InitInv(start: nat, limit: nat, s: State)
    requires Init(start, s)
    ensures Inv(start, limit, s)
  {
    CacheReset(start, s);
    assert DiskOk(start, s.disk);
  }

  lemma {:induction false} RunInv(start: nat, limit: nat, states: seq<State>, steps: seq<Step>, n: nat)
    requires limit <= MAXOPBLOCKS && Run(start, limit, states, steps) && n < |states|
    ensures Inv(start, limit, states[n])
  {
    hide Inv;
    hide Next;
    if n == 0 {
      InitInv(start, limit, states[0]);
    } else {
      RunInv(start, limit, states, steps, n - 1);
      InvStep(start, limit, states[n - 1], states[n], steps[n - 1]);
    }
  }

  lemma InvFacts(start: nat, limit: nat, s: State)
    requires Inv(start, limit, s)
    ensures DiskOk(start, s.disk) && |s.lh| < LOGSIZE && |s.latest| == |s.disk| && s.refs.Keys == s.data.Keys
    ensures s.phase.Installing? || s.phase.Recovering? ==> Logged(s.disk[start]) == s.lh
  {
  }

  // ---- what the invariants give, in every state of every run ----

  /** Crash atomicity: power off in any state, and recovery brings back exactly the contents of the
      last commit. */
  lemma CrashAtomicity(start: nat, limit: nat, states: seq<State>, steps: seq<Step>, n: nat)
    requires limit <= MAXOPBLOCKS && Run(start, limit, states, steps) && n < |states|
    ensures Holds(start, states[n].disk, states[n].committed)
  {
    RunInv(start, limit, states, steps, n);
  }

  /** The header write of a commit, made while no operation is in progress and no buffer is half changed,
      makes the contents last logged the committed ones; no other step changes them. */
  lemma CommitIsHeaderWrite(start: nat, limit: nat, states: seq<State>, steps: seq<Step>, n: nat)
    requires limit <= MAXOPBLOCKS && Run(start, limit, states, steps) && n < |steps|
    ensures states[n + 1].committed == if steps[n] == CommitHeader then states[n].latest else states[n].committed
    ensures steps[n] == CommitHeader ==> states[n].ops == map[] && states[n].dirty == {}
  {
    RunInv(start, limit, states, steps, n);
    assert Next(start, limit, states[n], states[n + 1], steps[n]);
  }

  /** bread() returns the contents last logged or installed. */
  lemma ReadsLatest(start: nat, limit: nat, states: seq<State>, steps: seq<Step>, n: nat, client: nat, b: nat)
    requires limit <= MAXOPBLOCKS && Run(start, limit, states, steps) && n < |steps| && steps[n] == Bread(client, b)
    ensures b in states[n + 1].data && states[n + 1].holder[b] == client
    ensures b < |states[n].latest| && states[n + 1].data[b] == states[n].latest[b]
  {
    RunInv(start, limit, states, steps, n);
    RunInv(start, limit, states, steps, n + 1);
    var s, s' := states[n], states[n + 1];
    assert Next(start, limit, s, s', steps[n]);
    assert b !in s'.dirty;
  }

  /** Write-ahead: a step that changes a home block on the disk finds the block named by the header
      on the disk, and the log slot for it filled with the new contents. */
  lemma WriteAhead(start: nat, limit: nat, states: seq<State>, steps: seq<Step>, n: nat, b: nat)
    requires limit <= MAXOPBLOCKS && Run(start, limit, states, steps) && n < |steps|
    requires b < |states[n].disk| == |states[n + 1].disk| && !InLog(start, b)
    requires states[n + 1].disk[b] != states[n].disk[b]
    ensures DiskOk(start, states[n].disk) && b in Logged(states[n].disk[start])
    ensures states[n + 1].disk[b] == Recovered(start, states[n].disk, b)
  {
    RunInv(start, limit, states, steps, n);
    hide Inv;
    WriteAheadStep(start, limit, states[n], states[n + 1], steps[n], b);
  }

  lemma WriteAheadStep(start: nat, limit: nat, s: State, s': State, step: Step, b: nat)
    requires Inv(start, limit, s) && Next(start, limit, s, s', step)
    requires b < |s.disk| == |s'.disk| && !InLog(start, b) && s'.disk[b] != s.disk[b]
    ensures DiskOk(start, s.disk) && b in Logged(s.disk[start]) && s'.disk[b] == Recovered(start, s.disk, b)
  {
    hide Inv;
    hide Next;
    InvFacts(start, limit, s);
    HomeWriter(start, limit, s, s', step, b);
    InstalledIsRecovered(start, s.disk, s.lh, s.phase.homes);
  }

  lemma HomeWriter(start: nat, limit: nat, s: State, s': State, step: Step, b: nat)
    requires |s.lh| < LOGSIZE && Next(start, limit, s, s', step)
    requires b < |s.disk| == |s'.disk| && !InLog(start, b) && s'.disk[b] != s.disk[b]
    ensures s.phase.Installing? || s.phase.Recovering?
    ensures s.phase.homes < |s.lh| && start + 1 + s.phase.homes < |s.disk|
    ensures b == s.lh[s.phase.homes] && s'.disk[b] == s.disk[start + 1 + s.phase.homes]
  {
  }

  lemma InstalledIsRecovered(start: nat, disk: seq<Block>, lh: seq<nat>, i: nat)
    requires DiskOk(start, disk) && Logged(disk[start]) == lh && i < |lh|
    ensures Recovered(start, disk, lh[i]) == disk[start + 1 + i]
  {
  }

  /** A logged block stays in the cache, pinned, until it is installed: it is never recycled. */
  lemma LoggedStaysCached(start: nat, limit: nat, states: seq<State>, steps: seq<Step>, n: nat, b: nat)
    requires limit <= MAXOPBLOCKS && Run(start, limit, states, steps) && n < |steps| && b in Pinned(states[n])
    ensures b in states[n].data && steps[n] != Recycle(b)
  {
    RunInv(start, limit, states, steps, n);
    assert Next(start, limit, states[n], states[n + 1], steps[n]);
  }

  /** With at most nine blocks added per operation, no log_write() in any run meets a full log. */
  lemma NoLogOverflow(start: nat, limit: nat, states: seq<State>, steps: seq<Step>, n: nat, op: nat, b: nat)
    requires limit <= 9 && Run(start, limit, states, steps) && n < |states|
    requires WantsLogWrite(limit, states[n], op, b)
    ensures !LogFull(states[n])
  {
    RunInv(start, limit, states, steps, n);
    SlackBound(limit, states[n].ops);
    assert states[n].phase.Running?;
  }

  // ---- ten blocks per operation, the documented limit, is one too many ----

  function Used(k: nat, op: nat): nat
  {
    if k < 10 * op then 0 else if k < 10 * op + 10 then k - 10 * op else 10
  }

  /** Three operations have together added the `k` blocks after the log. */
  ghost predicate Filled(start: nat, s: State, k: nat)
  {
    && s.phase.Running?
    && s.lh == seq(k, i => start + LOGSIZE + i)
    && s.ops == map[0 := Used(k, 0), 1 := Used(k, 1), 2 := Used(k, 2)]
    && forall b | b in s.holder :: b < start + LOGSIZE + k
  }

  lemma Extend(start: nat, limit: nat, states: seq<State>, steps: seq<Step>, s: State, step: Step)
    requires Run(start, limit, states, steps) && Next(start, limit, states[|steps|], s, step)
    ensures Run(start, limit, states + [s], steps + [step])
  {
    hide Next;
    var states', steps' := states + [s], steps + [step];
    forall i | 0 <= i < |steps'|
      ensures Next(start, limit, states'[i], states'[i + 1], steps'[i])
    {
      if i < |steps| {
        assert Next(start, limit, states[i], states[i + 1], steps[i]);
      }
    }
  }

  lemma UsedOneMore(k: nat)
    requires k < 30
    ensures map[0 := Used(k, 0), 1 := Used(k, 1), 2 := Used(k, 2)][k / 10 := Used(k, k / 10) + 1]
         == map[0 := Used(k + 1, 0), 1 := Used(k + 1, 1), 2 := Used(k + 1, 2)]
    ensures k / 10 < 3 && Used(k, k / 10) < 10
  {
    assert k / 10 == 0 || k / 10 == 1 || k / 10 == 2;
  }

  lemma FillRead(start: nat, s: State, k: nat) returns (s': State)
    requires Filled(start, s, k) && k < 30 && start + LOGSIZE + k < |s.disk| && s.refs.Keys == s.data.Keys
    ensures BreadStep(start, s, s', k / 10, start + LOGSIZE + k)
    ensures WantsLogWrite(10, s', k / 10, start + LOGSIZE + k)
    ensures s'.phase.Running? && s'.lh == s.lh && s'.disk == s.disk && s'.latest == s.latest
    ensures s.lh == seq(k, i => start + LOGSIZE + i)
    ensures s'.ops == map[0 := Used(k, 0), 1 := Used(k, 1), 2 := Used(k, 2)]
    ensures forall b | b in s'.holder :: b < start + LOGSIZE + k + 1
    ensures start + LOGSIZE + k in s'.data && start + LOGSIZE + k in s'.refs
  {
    var b, op := start + LOGSIZE + k, k / 10;
    UsedOneMore(k);
    s' := if b in s.data then
            s.(holder := s.holder[b := op], refs := s.refs[b := s.refs[b] + 1])
          else
            s.(data := s.data[b := s.disk[b]], refs := s.refs[b := 1], holder := s.holder[b := op]);
  }

  lemma FillLog(start: nat, s: State, k: nat) returns (s': State)
    requires s.phase.Running? && s.lh == seq(k, i => start + LOGSIZE + i) && k < 29
    requires s.ops == map[0 := Used(k, 0), 1 := Used(k, 1), 2 := Used(k, 2)]
    requires WantsLogWrite(10, s, k / 10, start + LOGSIZE + k)
    requires forall b | b in s.holder :: b < start + LOGSIZE + k + 1
    requires start + LOGSIZE + k in s.data && start + LOGSIZE + k in s.refs && start + LOGSIZE + k < |s.latest|
    ensures LogWriteStep(10, s, s', k / 10, start + LOGSIZE + k)
    ensures Filled(start, s', k + 1) && s'.disk == s.disk
  {
    var b, op := start + LOGSIZE + k, k / 10;
    UsedOneMore(k);
    assert b !in s.lh;
    s' := s.(latest := s.latest[b := s.data[b]], dirty := s.dirty - {b},
             lh := s.lh + [b], refs := s.refs[b := s.refs[b] + 1], ops := s.ops[op := s.ops[op] + 1]);
    assert s'.lh == seq(k + 1, i => start + LOGSIZE + i);
    hide Used;
  }

  lemma NextBread(start: nat, s: State, s': State, op: nat, b: nat)
    requires BreadStep(start, s, s', op, b)
    ensures Next(start, 10, s, s', Bread(op, b))
  {
  }

  lemma NextLogWrite(start: nat, s: State, s': State, op: nat, b: nat)
    requires LogWriteStep(10, s, s', op, b)
    ensures Next(start, 10, s, s', LogWrite(op, b))
  {
  }

  /** Power-on, a recovery with nothing to do, and three operations begun. */
  lemma StartRun(start: nat, disk: seq<Block>) returns (states: seq<State>, steps: seq<Step>)
    requires DiskOk(start, disk) && Logged(disk[start]) == []
    ensures Run(start, 10, states, steps) && Filled(start, states[|steps|], 0) && |states[|steps|].disk| == |disk|
  {
    var s0 := State(disk, map[], map[], map[], {}, [], map[], Booting, disk, disk);
    assert Holds(start, disk, disk);
    var s1 := s0.(phase := Recovering(0));
    var s2 := s1.(disk := disk[start := Header(disk[start], [])], phase := Running);
    var s3 := s2.(ops := map[0 := 0]);
    var s4 := s3.(ops := map[0 := 0][1 := 0]);
    var s5 := s4.(ops := map[0 := 0][1 := 0][2 := 0]);
    assert Next(start, 10, s0, s1, ReadHead);
    assert Next(start, 10, s1, s2, RecoverClear);
    assert Next(start, 10, s2, s3, BeginOp(0));
    assert Next(start, 10, s3, s4, BeginOp(1));
    assert Next(start, 10, s4, s5, BeginOp(2));
    hide Next;
    assert Run(start, 10, [s0], []);
    Extend(start, 10, [s0], [], s1, ReadHead);
    Extend(start, 10, [s0, s1], [ReadHead], s2, RecoverClear);
    states, steps := [s0, s1, s2], [ReadHead, RecoverClear];
    Extend(start, 10, states, steps, s3, BeginOp(0));
    states, steps := states + [s3], steps + [BeginOp(0)];
    Extend(start, 10, states, steps, s4, BeginOp(1));
    states, steps := states + [s4], steps + [BeginOp(1)];
    Extend(start, 10, states, steps, s5, BeginOp(2));
    states, steps := states + [s5], steps + [BeginOp(2)];
  }

  /** One more block read and logged. */
  lemma FillPair(start: nat, s: State, k: nat) returns (s1: State, s2: State)
    requires Filled(start, s, k) && k < 29 && start + LOGSIZE + k < |s.disk| == |s.latest| && s.refs.Keys == s.data.Keys
    ensures Next(start, 10, s, s1, Bread(k / 10, start + LOGSIZE + k))
    ensures Next(start, 10, s1, s2, LogWrite(k / 10, start + LOGSIZE + k))
    ensures Filled(start, s2, k + 1) && s2.disk == s.disk
  {
    hide Next;
    hide Filled;
    hide BreadStep;
    hide LogWriteStep;
    hide WantsLogWrite;
    s1 := FillRead(start, s, k);
    NextBread(start, s, s1, k / 10, start + LOGSIZE + k);
    s2 := FillLog(start, s1, k);
    NextLogWrite(start, s1, s2, k / 10, start + LOGSIZE + k);
  }

  /** From power-on to `k` blocks logged by three operations. */
  lemma {:induction false} FillRun(start: nat, disk: seq<Block>, k: nat) returns (states: seq<State>, steps: seq<Step>)
    requires DiskOk(start, disk) && Logged(disk[start]) == [] && start + 2 * LOGSIZE <= |disk| && k <= 29
    ensures Run(start, 10, states, steps)
    ensures Filled(start, states[|steps|], k) && |states[|steps|].disk| == |disk|
  {
    hide Next;
    hide Filled;
    if k == 0 {
      states, steps := StartRun(start, disk);
    } else {
      states, steps := FillRun(start, disk, k - 1);
      var s := states[|steps|];
      hide Inv;
      RunInv(start, 10, states, steps, |steps|);
      InvFacts(start, 10, s);
      var b, op := start + LOGSIZE + k - 1, (k - 1) / 10;
      var s1, s2 := FillPair(start, s, k - 1);
      Extend(start, 10, states, steps, s1, Bread(op, b));
      states, steps := states + [s1], steps + [Bread(op, b)];
      Extend(start, 10, states, steps, s2, LogWrite(op, b));
      states, steps := states + [s2], steps + [LogWrite(op, b)];
    }
  }

  /** On a disk made by mkfs, three operations of MAXOPBLOCKS blocks each can make log_write() panic:
      nine blocks per operation, the bound of NoLogOverflow, cannot be raised. */
  lemma TenBlocksOverflow(start: nat, disk: seq<Block>)
    returns (states: seq<State>, steps: seq<Step>, op: nat, b: nat)
    requires DiskOk(start, disk) && Logged(disk[start]) == [] && start + 2 * LOGSIZE <= |disk|
    ensures Run(start, MAXOPBLOCKS, states, steps)
    ensures WantsLogWrite(MAXOPBLOCKS, states[|steps|], op, b) && LogFull(states[|steps|])
  {
    hide Next;
    states, steps := FillRun(start, disk, 29);
    var s := states[|steps|];
    hide Inv;
    RunInv(start, 10, states, steps, |steps|);
    InvFacts(start, 10, s);
    op, b := 2, start + LOGSIZE + 29;
    var s' := FillRead(start, s, 29);
    NextBread(start, s, s', op, b);
    Extend(start, 10, states, steps, s', Bread(op, b));
    states, steps := states + [s'], steps + [Bread(op, b)];
  }
}
