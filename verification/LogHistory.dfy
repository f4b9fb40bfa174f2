/**
 * What the disk must hold, computed from the steps of a run alone: the last
 * store to each block that a log_write() followed, and the last commit
 * (kernel/log.c).
 */
module LogHistory {
  import opened LogDisk
  import opened LogSystem

  datatype Found = None | Some(block: Block)

  /** The last store to block b since the last crash. */
  function LastStore(steps: seq<Step>, b: nat): (r: Found)
  {
    if steps == [] then None
    else
      match steps[|steps| - 1]
      case Crash => None
      case Modify(_, c, block) => if c == b then Some(block) else LastStore(steps[..|steps| - 1], b)
      case _ => LastStore(steps[..|steps| - 1], b)
  }

  /** The last store to block b that a log_write() of b followed, since the last crash. */
  function LastLogged(steps: seq<Step>, b: nat): (r: Found)
    ensures r.Some? ==> LastStore(steps, b).Some?
  {
    if steps == [] then None
    else
      match steps[|steps| - 1]
      case Crash => None
      case LogWrite(_, c) => if c == b then LastStore(steps[..|steps| - 1], b) else LastLogged(steps[..|steps| - 1], b)
      case _ => LastLogged(steps[..|steps| - 1], b)
  }

  /** The contents of block b at the last commit, from what the disk held at first. */
  function LastCommitted(init: seq<Block>, steps: seq<Step>, b: nat): (block: Block)
    requires b < |init|
    decreases |steps|, 0
  {
    if steps == [] then init[b]
    else
      var before := steps[..|steps| - 1];
      if steps[|steps| - 1].CommitHeader? then Contents(init, before, b) else LastCommitted(init, before, b)
  }

  /** The contents committed when the last crash came. */
  function AtLastCrash(init: seq<Block>, steps: seq<Step>, b: nat): (block: Block)
    requires b < |init|
    decreases |steps|, 1
  {
    if steps == [] then init[b]
    else
      var before := steps[..|steps| - 1];
      if steps[|steps| - 1].Crash? then LastCommitted(init, before, b) else AtLastCrash(init, before, b)
  }

  /** The contents of block b: as last logged, or else as recovered after the last crash. */
  function Contents(init: seq<Block>, steps: seq<Step>, b: nat): (block: Block)
    requires b < |init|
    decreases |steps|, 2
  {
    match LastLogged(steps, b)
    case Some(block) => block
    case None => AtLastCrash(init, steps, b)
  }

  /** The state agrees with the steps that led to it, at block b. */
  ghost predicate Follows(init: seq<Block>, s: State, steps: seq<Step>, b: nat)
    requires b < |init|
  {
    && |s.latest| == |s.committed| == |init|
    && s.latest[b] == Contents(init, steps, b)
    && s.committed[b] == LastCommitted(init, steps, b)
    && (b in s.dirty ==> LastStore(steps, b).Some? && b in s.data && s.data[b] == LastStore(steps, b).block)
    && (b !in s.dirty && LastStore(steps, b).Some? ==> s.latest[b] == LastStore(steps, b).block)
  }

  /** What a step does to the contents, the uncommitted stores and the commit. */
  ghost predicate Touches(s: State, s': State, step: Step, b: nat)
  {
    && |s'.latest| == |s.latest| && |s'.committed| == |s.committed|
    && match step
       case Modify(_, c, block) =>
         && s'.latest == s.latest && s'.committed == s.committed
         && (if c == b then b in s'.dirty && b in s'.data && s'.data[b] == block
             else (b in s'.dirty <==> b in s.dirty) && (b in s.data ==> b in s'.data && s'.data[b] == s.data[b]))
       case LogWrite(_, c) =>
         && s'.committed == s.committed && s'.data == s.data && c < |s.latest| && c in s.data
         && s'.latest == s.latest[c := s.data[c]] && s'.dirty == s.dirty - {c}
       case CommitHeader =>
         s'.latest == s.latest && s'.committed == s.latest && s'.dirty == s.dirty && s'.data == s.data
       case Crash => s'.latest == s.committed && s'.committed == s.committed && s'.dirty == {}
       case _ =>
         && s'.latest == s.latest && s'.committed == s.committed && s'.dirty == s.dirty
         && (b in s.dirty ==> b in s.data && b in s'.data && s'.data[b] == s.data[b])
  }

  lemma StepTouches(start: nat, limit: nat, s: State, s': State, step: Step, b: nat)
    requires |s.latest| == |s.committed| && Next(start, limit, s, s', step)
    requires b in s.dirty ==> b in s.data && b in s.holder && b in s.refs && s.refs[b] > 0
    ensures Touches(s, s', step, b)
  {
  }

  lemma FollowsStep(init: seq<Block>, s: State, s': State, steps: seq<Step>, b: nat)
    requires b < |init| && steps != []
    requires Follows(init, s, steps[..|steps| - 1], b) && Touches(s, s', steps[|steps| - 1], b)
    requires b in s.data && b !in s.dirty ==> b < |s.latest| && s.data[b] == s.latest[b]
    ensures Follows(init, s', steps, b)
  {
  }

  lemma {:induction false} RunFollows(start: nat, limit: nat, states: seq<State>, steps: seq<Step>, n: nat, b: nat)
    requires limit <= MAXOPBLOCKS && Run(start, limit, states, steps) && n < |states| && b < |states[0].committed|
    ensures Follows(states[0].committed, states[n], steps[..n], b)
  {
    hide Follows;
    hide Next;
    hide Touches;
    hide Inv;
    if n == 0 {
      StartFollows(start, states[0], b);
      assert steps[..0] == [];
    } else {
      RunFollows(start, limit, states, steps, n - 1, b);
      RunInv(start, limit, states, steps, n - 1);
      CleanIsLatest(start, limit, states[n - 1], b);
      StepTouches(start, limit, states[n - 1], states[n], steps[n - 1], b);
      assert steps[..n][..n - 1] == steps[..n - 1];
      FollowsStep(states[0].committed, states[n - 1], states[n], steps[..n], b);
    }
  }

  lemma StartFollows(start: nat, s: State, b: nat)
    requires Init(start, s) && b < |s.committed|
    ensures Follows(s.committed, s, [], b)
  {
  }

  lemma CleanIsLatest(start: nat, limit: nat, s: State, b: nat)
    requires Inv(start, limit, s)
    ensures |s.latest| == |s.committed|
    ensures b in s.dirty ==> b in s.data && b in s.holder && b in s.refs && s.refs[b] > 0
    ensures b in s.data && b !in s.dirty ==> b < |s.latest| && s.data[b] == s.latest[b]
  {
  }

  /** In every state of every run the contents are the ones last stored and logged, or recovered, and the
      committed ones are those of the last commit. */
  lemma ContentsFollowSteps(start: nat, limit: nat, states: seq<State>, steps: seq<Step>, n: nat, b: nat)
    requires limit <= MAXOPBLOCKS && Run(start, limit, states, steps) && n < |states| && b < |states[0].committed|
    ensures |states[n].latest| == |states[n].committed| == |states[0].committed|
    ensures states[n].latest[b] == Contents(states[0].committed, steps[..n], b)
    ensures states[n].committed[b] == LastCommitted(states[0].committed, steps[..n], b)
  {
    RunFollows(start, limit, states, steps, n, b);
  }

  /** bread() returns the block as last stored and logged, or recovered. */
  lemma ReadsLastLogged(start: nat, limit: nat, states: seq<State>, steps: seq<Step>, n: nat, client: nat, b: nat)
    requires limit <= MAXOPBLOCKS && Run(start, limit, states, steps) && n < |steps| && steps[n] == Bread(client, b)
    ensures b in states[n + 1].data && b < |states[0].committed|
    ensures states[n + 1].data[b] == Contents(states[0].committed, steps[..n], b)
  {
    hide Next;
    ReadsLatest(start, limit, states, steps, n, client, b);
    SizeKept(start, limit, states, steps, n);
    RunFollows(start, limit, states, steps, n, b);
  }

  ghost predicate NoCrash(steps: seq<Step>, i: nat, n: nat)
  {
    n <= |steps| && forall k | i <= k < n :: steps[k] != Crash
  }

  /** A block stays in the log until a commit. */
  lemma LoggedStep(start: nat, limit: nat, s: State, s': State, step: Step, b: nat)
    requires Next(start, limit, s, s', step) && step != Crash && step != CommitHeader
    requires || (b in s.lh && (s.phase.Running? || s.phase.Copying?))
             || (step.LogWrite? && step.b == b && s.phase.Running?)
    ensures b in s'.lh && (s'.phase.Running? || s'.phase.Copying?)
  {
  }

  lemma {:induction false} LoggedUntilCommit(start: nat, limit: nat, states: seq<State>, steps: seq<Step>, i: nat,
                                             n: nat)
    requires limit <= MAXOPBLOCKS && Run(start, limit, states, steps)
    requires i < n && NoCrash(steps, i, n) && steps[i].LogWrite? && forall k | i < k < n :: steps[k] != CommitHeader
    ensures steps[i].b in states[n].lh && (states[n].phase.Running? || states[n].phase.Copying?)
  {
    hide Next;
    hide Inv;
    if n == i + 1 {
      RunInv(start, limit, states, steps, i);
      LogWriteRuns(start, limit, states[i], states[n], steps[i]);
    } else {
      LoggedUntilCommit(start, limit, states, steps, i, n - 1);
    }
    LoggedStep(start, limit, states[n - 1], states[n], steps[n - 1], steps[i].b);
  }

  lemma LogWriteRuns(start: nat, limit: nat, s: State, s': State, step: Step)
    requires Inv(start, limit, s) && Next(start, limit, s, s', step) && step.LogWrite?
    ensures s.phase.Running?
  {
  }

  /** With the log empty, everything logged is committed. */
  lemma EmptyLogCommitted(start: nat, limit: nat, s: State, b: nat)
    requires Inv(start, limit, s) && s.lh == [] && b < |s.disk| && !InLog(start, b)
    ensures DiskOk(start, s.disk) && |s.latest| == |s.disk| && Recovered(start, s.disk, b) == s.latest[b]
  {
  }

  /** Durability: once the operations after a log_write() have ended and the log is empty again, with no crash
      between, a commit has been made, and recovery would bring back every block as last logged. */
  lemma Durability(start: nat, limit: nat, states: seq<State>, steps: seq<Step>, i: nat, n: nat) returns (k: nat)
    requires limit <= MAXOPBLOCKS && Run(start, limit, states, steps)
    requires i < n && NoCrash(steps, i, n) && steps[i].LogWrite? && states[n].lh == []
    ensures i < k < n && steps[k] == CommitHeader
    ensures DiskOk(start, states[n].disk) && |states[0].committed| == |states[n].disk|
    ensures forall b | 0 <= b < |states[n].disk| && !InLog(start, b) ::
      Recovered(start, states[n].disk, b) == Contents(states[0].committed, steps[..n], b)
  {
    hide Next;
    hide Inv;
    hide Recovered;
    if forall k | i < k < n :: steps[k] != CommitHeader {
      LoggedUntilCommit(start, limit, states, steps, i, n);
      assert false;
    }
    k :| i < k < n && steps[k] == CommitHeader;
    RunInv(start, limit, states, steps, n);
    InvFacts(start, limit, states[n]);
    SizeKept(start, limit, states, steps, n);
    forall b | 0 <= b < |states[n].disk| && !InLog(start, b)
      ensures Recovered(start, states[n].disk, b) == Contents(states[0].committed, steps[..n], b)
    {
      EmptyLogCommitted(start, limit, states[n], b);
      RunFollows(start, limit, states, steps, n, b);
    }
  }

  lemma SizeKept(start: nat, limit: nat, states: seq<State>, steps: seq<Step>, n: nat)
    requires limit <= MAXOPBLOCKS && Run(start, limit, states, steps) && n < |states|
    ensures |states[n].latest| == |states[0].committed|
  {
    hide Next;
    InitInv(start, limit, states[0]);
    RunFollows(start, limit, states, steps, n, 0);
  }

  /** No operation in progress and no commit under way: the log is empty, so nothing logged can be lost. */
  lemma IdleIsDurable(start: nat, limit: nat, states: seq<State>, steps: seq<Step>, n: nat)
    requires limit <= MAXOPBLOCKS && Run(start, limit, states, steps) && n < |states|
    requires states[n].phase.Running? && states[n].ops == map[]
    ensures DiskOk(start, states[n].disk) && |states[0].committed| == |states[n].disk| && states[n].lh == []
    ensures forall b | 0 <= b < |states[n].disk| && !InLog(start, b) ::
      Recovered(start, states[n].disk, b) == Contents(states[0].committed, steps[..n], b)
  {
    hide Next;
    RunInv(start, limit, states, steps, n);
    assert states[n].lh == [];
    hide Inv;
    hide Recovered;
    InvFacts(start, limit, states[n]);
    SizeKept(start, limit, states, steps, n);
    forall b | 0 <= b < |states[n].disk| && !InLog(start, b)
      ensures Recovered(start, states[n].disk, b) == Contents(states[0].committed, steps[..n], b)
    {
      EmptyLogCommitted(start, limit, states[n], b);
      RunFollows(start, limit, states, steps, n, b);
    }
  }

  // ---- commits and recoveries come to an end ----

  /** The writes that the commit or recovery under way has still to make. */
  function Left(s: State): (n: nat)
  {
    match s.phase
    case Running => 0
    case Copying(i) => if i <= |s.lh| then 2 * |s.lh| + 2 - i else 0
    case Installing(i) => if i <= |s.lh| then |s.lh| + 1 - i else 0
    case Booting => LOGSIZE + 2
    case Recovering(i) => if i <= |s.lh| then |s.lh| + 1 - i else 0
  }

  /** A step of commit(), or of recover_from_log(). */
  predicate IsWrite(step: Step)
  {
    match step
    case CopySlot => true
    case CommitHeader => true
    case InstallBlock => true
    case ClearHeader => true
    case ReadHead => true
    case RecoverBlock => true
    case RecoverClear => true
    case _ => false
  }

  /** Block b, which a commit needs, is locked: its holder is not changing it and can let it go. */
  lemma Unlock(start: nat, limit: nat, s: State, b: nat) returns (step: Step, s': State)
    requires Inv(start, limit, s) && !s.phase.Running? && b in s.holder
    ensures Next(start, limit, s, s', step) && step == Brelse(s.holder[b], b)
    ensures s'.phase == s.phase && s'.lh == s.lh && s'.holder == s.holder - {b} && s'.ops == s.ops
  {
    step := Brelse(s.holder[b], b);
    s' := s.(holder := s.holder - {b}, refs := s.refs[b := s.refs[b] - 1]);
  }

  lemma DiskFacts(start: nat, limit: nat, s: State)
    requires Inv(start, limit, s)
    ensures start + LOGSIZE <= |s.disk| && |s.disk[start]| == WORDS && s.disk[start][0] < LOGSIZE && |s.lh| < LOGSIZE
    ensures Distinct(s.lh) && forall i | 0 <= i < |s.lh| :: s.lh[i] < |s.disk|
    ensures |Logged(s.disk[start])| < LOGSIZE
    ensures s.phase.Copying? ==> s.phase.slots <= |s.lh|
    ensures s.phase.Installing? || s.phase.Recovering? ==> s.phase.homes <= |s.lh|
  {
  }

  lemma PinFacts(start: nat, limit: nat, s: State, b: nat)
    requires Inv(start, limit, s) && b in Pinned(s)
    ensures b in s.data && b in s.refs && s.refs[b] > 0
  {
  }

  lemma CopyNext(start: nat, limit: nat, s: State) returns (step: Step, s': State)
    requires Inv(start, limit, s) && s.phase.Copying?
    requires s.phase.slots < |s.lh| ==> s.lh[s.phase.slots] !in s.holder
    ensures Next(start, limit, s, s', step) && IsWrite(step) && Left(s') < Left(s) && s'.ops == s.ops
  {
    hide Inv;
    DiskFacts(start, limit, s);
    var i := s.phase.slots;
    if i < |s.lh| {
      PinFacts(start, limit, s, s.lh[i]);
      step, s' := CopySlot, s.(disk := s.disk[start + 1 + i := s.data[s.lh[i]]], phase := Copying(i + 1));
    } else {
      step := CommitHeader;
      s' := s.(disk := s.disk[start := Header(s.disk[start], s.lh)], phase := Installing(0), committed := s.latest);
    }
  }

  lemma InstallNext(start: nat, limit: nat, s: State) returns (step: Step, s': State)
    requires Inv(start, limit, s) && s.phase.Installing?
    requires s.phase.homes < |s.lh| ==> s.lh[s.phase.homes] !in s.holder
    ensures Next(start, limit, s, s', step) && IsWrite(step) && Left(s') < Left(s) && s'.ops == s.ops
  {
    hide Inv;
    DiskFacts(start, limit, s);
    var i := s.phase.homes;
    if i < |s.lh| {
      DropElement(s.lh, i);
      hide Elements;
      PinFacts(start, limit, s, s.lh[i]);
      step := InstallBlock;
      s' := s.(disk := s.disk[s.lh[i] := s.disk[start + 1 + i]], phase := Installing(i + 1),
               refs := s.refs[s.lh[i] := s.refs[s.lh[i]] - 1]);
    } else {
      step, s' := ClearHeader, s.(disk := s.disk[start := Header(s.disk[start], [])], phase := Running, lh := []);
    }
  }

  lemma RecoverNext(start: nat, limit: nat, s: State) returns (step: Step, s': State)
    requires Inv(start, limit, s) && (s.phase.Booting? || s.phase.Recovering?)
    ensures Next(start, limit, s, s', step) && IsWrite(step) && Left(s') < Left(s) && s'.ops == s.ops
  {
    hide Inv;
    DiskFacts(start, limit, s);
    if s.phase.Booting? {
      step, s' := ReadHead, s.(lh := Logged(s.disk[start]), phase := Recovering(0));
    } else if s.phase.homes < |s.lh| {
      var i := s.phase.homes;
      step, s' := RecoverBlock, s.(disk := s.disk[s.lh[i] := s.disk[start + 1 + i]], phase := Recovering(i + 1));
    } else {
      step, s' := RecoverClear, s.(disk := s.disk[start := Header(s.disk[start], [])], phase := Running, lh := []);
    }
  }

  /** A commit or recovery under way can go on: with its next write, or once a reader lets go of the next block. */
  lemma CanGoOn(start: nat, limit: nat, s: State) returns (step: Step, s': State)
    requires Inv(start, limit, s) && !s.phase.Running?
    ensures Next(start, limit, s, s', step) && Left(s') <= Left(s) && s'.ops == s.ops
    ensures IsWrite(step) || step.Brelse?
    ensures Left(s') < Left(s) || |s'.holder| < |s.holder|
  {
    hide Inv;
    hide Next;
    DiskFacts(start, limit, s);
    match s.phase {
      case Copying(i) =>
        if i < |s.lh| && s.lh[i] in s.holder {
          step, s' := Unlock(start, limit, s, s.lh[i]);
          assert s'.holder.Keys == s.holder.Keys - {s.lh[i]};
        } else {
          step, s' := CopyNext(start, limit, s);
        }
      case Installing(i) =>
        if i < |s.lh| && s.lh[i] in s.holder {
          step, s' := Unlock(start, limit, s, s.lh[i]);
          assert s'.holder.Keys == s.holder.Keys - {s.lh[i]};
        } else {
          step, s' := InstallNext(start, limit, s);
        }
      case Booting =>
        step, s' := RecoverNext(start, limit, s);
      case Recovering(_) =>
        step, s' := RecoverNext(start, limit, s);
    }
  }

  /** From every state of every run the commit or recovery under way can be brought to its end, by its own writes and
      by readers letting go of blocks; operations can then run again. */
  lemma {:induction false} Completes(start: nat, limit: nat, states: seq<State>, steps: seq<Step>)
    returns (states': seq<State>, steps': seq<Step>)
    requires limit <= MAXOPBLOCKS && Run(start, limit, states, steps)
    ensures Run(start, limit, states', steps') && states <= states' && steps <= steps'
    ensures states'[|steps'|].phase.Running? && states'[|steps'|].ops == states[|steps|].ops
    ensures forall k | |steps| <= k < |steps'| :: IsWrite(steps'[k]) || steps'[k].Brelse?
    decreases Left(states[|steps|]), |states[|steps|].holder|
  {
    hide Next;
    hide Inv;
    hide Left;
    states', steps' := states, steps;
    var s := states[|steps|];
    if !s.phase.Running? {
      RunInv(start, limit, states, steps, |steps|);
      var step, s' := CanGoOn(start, limit, s);
      Extend(start, limit, states, steps, s', step);
      states', steps' := Completes(start, limit, states + [s'], steps + [step]);
      assert forall k | |steps| <= k < |steps'| :: k == |steps| ==> steps'[k] == (steps + [step])[k];
    }
  }

  lemma {:induction false} QuietKeeps(steps: seq<Step>, more: seq<Step>, b: nat)
    requires steps <= more && forall k | |steps| <= k < |more| :: IsWrite(more[k]) || more[k].Brelse?
    ensures LastLogged(more, b) == LastLogged(steps, b)
    decreases |more|
  {
    if |steps| < |more| {
      QuietKeeps(steps, more[..|more| - 1], b);
    } else {
      assert more == steps;
    }
  }

  /** A serial number that nobody uses. */
  lemma {:induction false} Unused(ids: set<nat>) returns (op: nat)
    ensures op !in ids && forall i | i in ids :: i < op
  {
    if ids == {} {
      op := 0;
    } else {
      var i :| i in ids;
      var n := Unused(ids - {i});
      op := if i < n then n else i + 1;
      assert ids == (ids - {i}) + {i};
    }
  }

  /** An operation begins, reads block b and stores `block` into it. */
  lemma OpenOp(start: nat, limit: nat, s: State, op: nat, b: nat, block: Block)
    returns (s1: State, s2: State, s3: State)
    requires s.phase.Running? && s.ops == map[] && s.lh == [] && s.refs.Keys == s.data.Keys && |block| == WORDS
    requires b < |s.disk| && !InLog(start, b) && b !in s.holder
    ensures Next(start, limit, s, s1, BeginOp(op)) && Next(start, limit, s1, s2, Bread(op, b))
    ensures Next(start, limit, s2, s3, Modify(op, b, block))
    ensures s3.phase.Running? && s3.ops == map[op := 0] && s3.lh == [] && s3.holder == s.holder[b := op]
    ensures b in s3.data && b in s3.refs && s3.latest == s.latest
  {
    s1 := s.(ops := s.ops[op := 0]);
    s2 := if b in s.data then s1.(holder := s.holder[b := op], refs := s.refs[b := s.refs[b] + 1])
          else s1.(data := s.data[b := s.disk[b]], refs := s.refs[b := 1], holder := s.holder[b := op]);
    s3 := s2.(data := s2.data[b := block], dirty := s2.dirty + {b});
    assert BeginOpStep(s, s1, op);
    assert BreadStep(start, s1, s2, op, b);
    assert ModifyStep(s2, s3, op, b, block);
  }

  /** It logs the block, releases it and ends. */
  lemma CloseOp(start: nat, limit: nat, s: State, op: nat, b: nat) returns (s1: State, s2: State, s3: State)
    requires 1 <= limit && s.phase.Running? && s.ops == map[op := 0] && s.lh == [] && b in s.data && b in s.refs
    requires b in s.holder && s.holder[b] == op && b < |s.latest|
    requires forall c | c in s.holder && c != b :: s.holder[c] != op
    ensures Next(start, limit, s, s1, LogWrite(op, b)) && Next(start, limit, s1, s2, Brelse(op, b))
    ensures Next(start, limit, s2, s3, EndOp(op)) && s3.ops == map[]
  {
    s1 := s.(latest := s.latest[b := s.data[b]], dirty := s.dirty - {b}, lh := [b],
             refs := s.refs[b := s.refs[b] + 1], ops := s.ops[op := 1]);
    s2 := s1.(holder := s1.holder - {b}, refs := s1.refs[b := s1.refs[b] - 1]);
    s3 := s2.(ops := map[], phase := Copying(0));
    assert LogWriteStep(limit, s, s1, op, b);
    assert BrelseStep(s1, s2, op, b);
    assert s2.ops - {op} == map[] && s2.ops.Keys == {op};
    assert EndOpStep(s2, s3, op);
  }

  lemma IdleFacts(start: nat, limit: nat, s: State)
    requires Inv(start, limit, s) && s.phase.Running? && s.ops == map[]
    ensures s.lh == [] && |s.latest| == |s.disk| && s.refs.Keys == s.data.Keys && s.dirty == {}
  {
  }

  /** Writing works: from every state of every run in which no operation is in progress, an operation can store any
      block, end and commit, after which recovery brings that block back. */
  lemma WritesReachDisk(start: nat, limit: nat, states: seq<State>, steps: seq<Step>, b: nat, block: Block)
    returns (states': seq<State>, steps': seq<Step>)
    requires 1 <= limit <= MAXOPBLOCKS && Run(start, limit, states, steps) && |block| == WORDS
    requires var s := states[|steps|];
      s.phase.Running? && s.ops == map[] && b < |s.disk| && !InLog(start, b) && b !in s.holder
    ensures Run(start, limit, states', steps') && states <= states' && steps <= steps'
    ensures var s := states'[|steps'|];
      && s.phase.Running? && s.ops == map[] && DiskOk(start, s.disk) && b < |s.disk|
      && Recovered(start, s.disk, b) == block
  {
    hide Next;
    hide Inv;
    hide Recovered;
    var s := states[|steps|];
    RunInv(start, limit, states, steps, |steps|);
    var op := Unused(s.holder.Values);
    IdleFacts(start, limit, s);
    var s1, s2, s3 := OpenOp(start, limit, s, op, b, block);
    assert forall c | c in s3.holder && c != b :: s3.holder[c] == s.holder[c] && s.holder[c] in s.holder.Values;
    var s4, s5, s6 := CloseOp(start, limit, s3, op, b);
    var rs, ts := states, steps;
    Extend(start, limit, rs, ts, s1, BeginOp(op));
    rs, ts := rs + [s1], ts + [BeginOp(op)];
    Extend(start, limit, rs, ts, s2, Bread(op, b));
    rs, ts := rs + [s2], ts + [Bread(op, b)];
    Extend(start, limit, rs, ts, s3, Modify(op, b, block));
    rs, ts := rs + [s3], ts + [Modify(op, b, block)];
    Extend(start, limit, rs, ts, s4, LogWrite(op, b));
    rs, ts := rs + [s4], ts + [LogWrite(op, b)];
    Extend(start, limit, rs, ts, s5, Brelse(op, b));
    rs, ts := rs + [s5], ts + [Brelse(op, b)];
    Extend(start, limit, rs, ts, s6, EndOp(op));
    rs, ts := rs + [s6], ts + [EndOp(op)];
    StoreLogged(steps, op, b, block);
    states', steps' := Completes(start, limit, rs, ts);
    QuietKeeps(ts, steps', b);
    IdleIsDurable(start, limit, states', steps', |steps'|);
    assert steps'[..|steps'|] == steps';
    SizeKept(start, limit, states, steps, |steps|);
    RunInv(start, limit, states, steps, |steps|);
    InvFacts(start, limit, s);
  }

  lemma StoreLogged(steps: seq<Step>, op: nat, b: nat, block: Block)
    ensures LastLogged(steps + [BeginOp(op)] + [Bread(op, b)] + [Modify(op, b, block)] + [LogWrite(op, b)]
                       + [Brelse(op, b)] + [EndOp(op)], b) == Some(block)
  {
    var t3 := steps + [BeginOp(op)] + [Bread(op, b)] + [Modify(op, b, block)];
    var t4 := t3 + [LogWrite(op, b)];
    var t5 := t4 + [Brelse(op, b)];
    var t6 := t5 + [EndOp(op)];
    assert t4[..|t4| - 1] == t3 && t5[..|t5| - 1] == t4 && t6[..|t6| - 1] == t5;
    assert LastStore(t3, b) == Some(block);
    assert LastLogged(t4, b) == Some(block);
    assert LastLogged(t5, b) == Some(block);
  }
}
