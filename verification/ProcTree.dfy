/**
 * The process table as fork, exit, wait and reparent use it
 * (kernel/proc.c).  A method is what one process does between taking and
 * releasing wait_lock, or a process lock, so between any two of them any
 * other process may run.
 */
module ProcTree {
  const NPROC: nat := 64
  /** No parent. */
  const NONE: nat := 64

  datatype PState = Unused | Used | Sleeping | Runnable | Running | Zombie

  predicate Live(st: PState)
  {
    st != Unused && st != Zombie
  }

  ghost predicate Sizes(state: seq<PState>, pid: seq<nat>, parent: seq<nat>, xstate: seq<int>)
  {
    |state| == |pid| == |parent| == |xstate| == 64
  }

  /** Every parent is live and older than its children; every process that ran has one, except init. */
  ghost predicate Family(state: seq<PState>, pid: seq<nat>, parent: seq<nat>, init: nat)
    requires |state| == |pid| == |parent| == 64
  {
    && init < 64 && Live(state[init]) && state[init] != Used && parent[init] == NONE && pid[init] == 1
    && (forall c {:trigger parent[c]} | 0 <= c < 64 && parent[c] != NONE ::
          parent[c] < 64 && Live(state[parent[c]]) && state[parent[c]] != Used && pid[parent[c]] < pid[c]
          && state[c] != Unused)
    && (forall c {:trigger state[c]} | 0 <= c < 64 && c != init && state[c] != Unused && state[c] != Used ::
          parent[c] != NONE)
  }

  /** Processes have distinct numbers, not used before. */
  ghost predicate Pids(state: seq<PState>, pid: seq<nat>, nextPid: nat)
    requires |state| == |pid| == 64
  {
    && (forall c {:trigger pid[c]} | 0 <= c < 64 && state[c] != Unused :: 1 <= pid[c] < nextPid)
    && (forall c, d | 0 <= c < d < 64 && state[c] != Unused && state[d] != Unused :: pid[c] != pid[d])
  }

  /** A process in the middle of fork and the child it is making. */
  ghost predicate Forks(state: seq<PState>, pid: seq<nat>, inFork: map<nat, nat>)
    requires |state| == |pid| == 64
  {
    && (forall p | p in inFork :: p < 64 && Live(state[p]) && state[p] != Used && inFork[p] < 64
                                  && state[inFork[p]] == Used && pid[p] < pid[inFork[p]])
    && (forall p, q | p in inFork && q in inFork && p != q :: inFork[p] != inFork[q])
    && (forall c {:trigger state[c]} | 0 <= c < 64 && state[c] == Used :: c in inFork.Values)
  }

  /** The processes that exited, with their status, and those that were waited for. */
  ghost predicate History(state: seq<PState>, pid: seq<nat>, xstate: seq<int>, exited: map<nat, int>, reaped: set<nat>,
                          nextPid: nat)
    requires |state| == |pid| == |xstate| == 64
  {
    && reaped <= exited.Keys
    && (forall n | n in exited :: n < nextPid)
    && (forall c {:trigger state[c]} | 0 <= c < 64 && state[c] == Zombie ::
          pid[c] in exited && exited[pid[c]] == xstate[c] && pid[c] !in reaped)
    && (forall c {:trigger state[c]} | 0 <= c < 64 && Live(state[c]) :: pid[c] !in exited)
  }

  lemma ExitFamily(state: seq<PState>, pid: seq<nat>, parent: seq<nat>, init: nat, p: nat, state': seq<PState>,
                   parent': seq<nat>)
    requires |state| == |pid| == |parent| == |parent'| == 64 && Family(state, pid, parent, init)
    requires p < 64 && p != init && Live(state[p]) && state[p] != Used && state' == state[p := Zombie]
    requires forall c | 0 <= c < 64 :: parent'[c] == if parent[c] == p then init else parent[c]
    requires forall c | 0 <= c < 64 && state[c] != Unused && c != init :: pid[c] > 1
    ensures Family(state', pid, parent', init)
  {
    forall c {:trigger parent'[c]} | 0 <= c < 64 && parent'[c] != NONE
      ensures parent'[c] < 64 && Live(state'[parent'[c]]) && state'[parent'[c]] != Used && pid[parent'[c]] < pid[c]
      ensures state'[c] != Unused
    {
      assert parent[c] != NONE;
    }
    forall c {:trigger state'[c]} | 0 <= c < 64 && c != init && state'[c] != Unused && state'[c] != Used
      ensures parent'[c] != NONE
    {
      assert parent[c] != NONE by { assert state[c] != Unused && state[c] != Used; }
    }
  }

  class ProcTable {
    var state: seq<PState>
    var pid: seq<nat>
    var parent: seq<nat>
    var xstate: seq<int>
    var killed: seq<bool>
    var nextPid: nat
    /** The local np of each process inside fork. */
    var inFork: map<nat, nat>
    const init: nat

    ghost var exited: map<nat, int>
    ghost var reaped: set<nat>

    ghost predicate Valid()
      reads this
    {
      && Sizes(state, pid, parent, xstate) && |killed| == 64
      && Family(state, pid, parent, init)
      && Pids(state, pid, nextPid)
      && Forks(state, pid, inFork)
      && History(state, pid, xstate, exited, reaped, nextPid)
    }

    ghost function Look(): Table
      reads this
    {
      Table(state, pid, parent, killed, nextPid, inFork, exited, reaped)
    }

    /** userinit: only init exists. */
    constructor ()
      ensures Valid() && exited == map[] && reaped == {}
    {
      init := 0;
      state := seq(64, i => if i == 0 then Runnable else Unused);
      pid := seq(64, i => if i == 0 then 1 else 0);
      parent := seq(64, _ => NONE);
      xstate := seq(64, _ => 0);
      killed := seq(64, _ => false);
      nextPid, inFork := 2, map[];
      exited, reaped := map[], {};
    }

    /** reparent: the children of p go to init. */
    method Reparent(p: nat)
      requires |parent| == 64 && p != NONE && p != init && init < 64
      modifies `parent
      ensures |parent| == 64
      ensures forall c | 0 <= c < 64 :: parent[c] == if old(parent)[c] == p then init else old(parent)[c]
    {
      var c := 0;
      while c < 64
        invariant 0 <= c <= 64 && |parent| == 64
        invariant forall d | 0 <= d < 64 :: parent[d] == if d < c && old(parent)[d] == p then init else old(parent)[d]
      {
        if parent[c] == p {
          parent := parent[c := init];
        }
        c := c + 1;
      }
    }

    /** exit, from the moment it holds wait_lock: init must not exit. */
    method Exit(p: nat, status: int)
      requires Valid() && p < 64 && state[p] == Running && p != init && p !in inFork
      modifies `parent, `xstate, `state, `exited
      ensures Valid()
      ensures state == old(state)[p := Zombie] && xstate == old(xstate)[p := status]
      ensures forall c | 0 <= c < 64 :: parent[c] == if old(parent)[c] == p then init else old(parent)[c]
      ensures pid[p] !in old(exited) && exited == old(exited)[pid[p] := status]
    {
      hide Family;
      hide History;
      hide Pids;
      hide Forks;
      ghost var state0, parent0, xstate0, exited0 := state, parent, xstate, exited;
      InitIs(state, pid, parent, init);
      Reparent(p);
      xstate := xstate[p := status];
      state := state[p := Zombie];
      exited := exited[pid[p] := status];
      OlderThanInit(state0, pid, nextPid, init);
      ExitFamily(state0, pid, parent0, init, p, state, parent);
      ExitHistory(state0, pid, xstate0, exited0, reaped, nextPid, p, status);
      PidsKept(state0, pid, nextPid, p, Zombie);
      ForksKept(state0, pid, inFork, p, Zombie);
    }

    /** The scan of allocproc: the first unused slot, or NPROC. */
    method FindUnused() returns (c: nat)
      requires |state| == 64
      ensures c <= 64 && (c < 64 ==> state[c] == Unused) && forall d | 0 <= d < c :: state[d] != Unused
    {
      c := 0;
      while c < 64
        invariant 0 <= c <= 64 && forall d | 0 <= d < c :: state[d] != Unused
      {
        if state[c] == Unused {
          return;
        }
        c := c + 1;
      }
    }

    /** fork, first part: allocproc finds a slot for the child, if there is one. */
    method ForkAlloc(p: nat) returns (ok: bool, np: nat)
      requires Valid() && p < 64 && state[p] == Running && p !in inFork
      modifies `state, `pid, `nextPid, `inFork
      ensures Valid()
      ensures !ok ==> state == old(state) && pid == old(pid) && inFork == old(inFork)
      ensures !ok ==> forall c | 0 <= c < 64 :: state[c] != Unused
      ensures ok ==> np < 64 && old(state)[np] == Unused && state == old(state)[np := Used]
                     && pid == old(pid)[np := old(nextPid)] && inFork == old(inFork)[p := np]
      ensures nextPid == if ok then old(nextPid) + 1 else old(nextPid)
    {
      hide Family;
      hide History;
      hide Pids;
      hide Forks;
      np := FindUnused();
      ok := np < 64;
      if ok {
        AllocStep(state, pid, parent, xstate, nextPid, inFork, exited, reaped, init, p, np);
        pid := pid[np := nextPid];
        nextPid := nextPid + 1;
        state := state[np := Used];
        inFork := inFork[p := np];
      }
    }

    /** freeproc */
    method Freeproc(c: nat)
      requires |state| == |pid| == |parent| == |xstate| == |killed| == 64 && c < 64
      modifies `state, `pid, `parent, `xstate, `killed
      ensures state == old(state)[c := Unused] && pid == old(pid)[c := 0] && parent == old(parent)[c := NONE]
      ensures xstate == old(xstate)[c := 0] && killed == old(killed)[c := false]
    {
      pid := pid[c := 0];
      parent := parent[c := NONE];
      killed := killed[c := false];
      xstate := xstate[c := 0];
      state := state[c := Unused];
    }

    /** fork when memory runs out: the child is given up before it has a parent. */
    method ForkFail(p: nat)
      requires Valid() && p in inFork && parent[inFork[p]] == NONE
      modifies `state, `pid, `parent, `xstate, `killed, `inFork
      ensures Valid() && inFork == old(inFork) - {p}
      ensures state == old(state)[old(inFork)[p] := Unused] && pid == old(pid)[old(inFork)[p] := 0]
      ensures parent == old(parent)[old(inFork)[p] := NONE] && killed == old(killed)[old(inFork)[p] := false]
    {
      hide Family;
      hide History;
      hide Pids;
      ForkOf(state, pid, inFork, p);
      hide Forks;
      NoChildren(state, pid, parent, init, inFork[p]);
      FreeStep(state, pid, parent, xstate, nextPid, inFork, exited, reaped, init, inFork[p]);
      ForkDone(state, pid, inFork, p, Unused, 0);
      Freeproc(inFork[p]);
      inFork := inFork - {p};
    }

    /** fork, second part, under wait_lock: the child gets its parent. */
    method ForkLink(p: nat)
      requires Valid() && p in inFork && parent[inFork[p]] == NONE
      modifies `parent
      ensures Valid() && parent == old(parent)[inFork[p] := p]
    {
      hide History;
      hide Pids;
      ForkOf(state, pid, inFork, p);
      LinkStep(state, pid, parent, inFork, init, p);
      hide Family;
      hide Forks;
      parent := parent[inFork[p] := p];
    }

    /** fork, last part: the child may run. */
    method ForkRun(p: nat) returns (childPid: nat)
      requires Valid() && p in inFork && parent[inFork[p]] == p
      modifies `state, `inFork
      ensures Valid() && inFork == old(inFork) - {p}
      ensures state == old(state)[old(inFork)[p] := Runnable] && childPid == pid[old(inFork)[p]]
    {
      hide History;
      hide Pids;
      hide Family;
      ForkOf(state, pid, inFork, p);
      hide Forks;
      childPid := pid[inFork[p]];
      RunStep(state, pid, parent, xstate, nextPid, exited, reaped, init, inFork[p], Runnable);
      ForkDone(state, pid, inFork, p, Runnable, pid[inFork[p]]);
      state := state[inFork[p] := Runnable];
      inFork := inFork - {p};
    }

    /** The scheduler, sleep, wakeup and kill: a process changes between the states of a live one. */
    method SetState(p: nat, st: PState)
      requires Valid() && p < 64 && Live(state[p]) && state[p] != Used && Live(st) && st != Used
      modifies `state
      ensures Valid() && state == old(state)[p := st]
    {
      hide History;
      hide Pids;
      hide Family;
      hide Forks;
      RunStep(state, pid, parent, xstate, nextPid, exited, reaped, init, p, st);
      ForksKept(state, pid, inFork, p, st);
      state := state[p := st];
    }

    /**
     * wait, from taking wait_lock to releasing it: the first zombie among the
     * children is reaped, unless its status cannot be copied out.
     */
    method Wait(p: nat, addr: bool, copyoutOk: bool) returns (out: Waited)
      requires Valid() && p < 64 && state[p] == Running
      modifies `state, `pid, `parent, `xstate, `killed, `reaped
      ensures Valid()
      ensures out.Reaped? ==> out.pid in exited && exited[out.pid] == out.status && out.pid !in old(reaped)
      ensures Waits(old(Look()), Look(), p, addr, copyoutOk, out)
      ensures !out.Reaped? ==> xstate == old(xstate)
    {
      hide Family;
      hide History;
      hide Pids;
      hide Forks;
      var havekids := false;
      var c := 0;
      while c < 64
        invariant 0 <= c <= 64 && Valid() && Look() == old(Look()) && xstate == old(xstate)
        invariant havekids <==> exists d :: 0 <= d < c && parent[d] == p
        invariant forall d | 0 <= d < c :: !IsZombieChild(state, parent, p, d)
      {
        if parent[c] == p {
          havekids := true;
          if state[c] == Zombie {
            assert IsZombieChild(old(state), old(parent), p, c);
            if addr && !copyoutOk {
              return Failed;
            }
            out := Reaped(pid[c], xstate[c]);
            Reap(c);
            assert ReapsFirst(old(Look()), Look(), p, c, out);
            return;
          }
        }
        c := c + 1;
      }
      if !havekids || killed[p] {
        return Failed;
      }
      out := Sleeps;
    }

    /** The child is freed; its number has not been returned before. */
    method Reap(c: nat)
      requires Valid() && c < 64 && state[c] == Zombie
      modifies `state, `pid, `parent, `xstate, `killed, `reaped
      ensures Valid() && state == old(state)[c := Unused] && pid == old(pid)[c := 0]
      ensures parent == old(parent)[c := NONE] && killed == old(killed)[c := false]
      ensures old(pid)[c] in exited && exited[old(pid)[c]] == old(xstate)[c]
      ensures old(pid)[c] !in old(reaped) && reaped == old(reaped) + {old(pid)[c]}
    {
      hide Family;
      hide Pids;
      hide Forks;
      hide History;
      NoChildren(state, pid, parent, init, c);
      FreeStep(state, pid, parent, xstate, nextPid, inFork, exited, reaped, init, c);
      ZombieFree(state, pid, xstate, exited, reaped, nextPid, inFork, c);
      reaped := reaped + {pid[c]};
      Freeproc(c);
    }

    /** Carries out one step if the process it names can take it. */
    method Do(step: Step) returns (out: Waited)
      requires Valid()
      modifies this
      ensures Valid() && Took(step, old(Look()), Look(), init, out)
      ensures out.Reaped? ==> out.pid in exited && exited[out.pid] == out.status && out.pid !in old(reaped)
    {
      hide Family;
      hide Pids;
      hide Forks;
      hide History;
      hide Waits;
      out := Failed;
      match step
      case Fork(p) =>
        if p < 64 && state[p] == Running && p !in inFork {
          var ok, np := ForkAlloc(p);
          assert ok ==> NewChild(old(Look()), Look(), p, np);
        }
      case GiveUp(p) =>
        if p in inFork {
          ForkOf(state, pid, inFork, p);
          if parent[inFork[p]] == NONE {
            ForkFail(p);
          }
        }
      case Link(p) =>
        if p in inFork {
          ForkOf(state, pid, inFork, p);
          if parent[inFork[p]] == NONE {
            ForkLink(p);
          }
        }
      case Start(p) =>
        if p in inFork {
          ForkOf(state, pid, inFork, p);
          if parent[inFork[p]] == p {
            var childPid := ForkRun(p);
          }
        }
      case Quit(p, status) =>
        if p < 64 && state[p] == Running && p != init && p !in inFork {
          Exit(p, status);
        }
      case Await(p, addr, copyoutOk) =>
        if p < 64 && state[p] == Running {
          out := Wait(p, addr, copyoutOk);
        }
      case Switch(p, st) =>
        if p < 64 && Live(state[p]) && state[p] != Used && Live(st) && st != Used {
          SetState(p, st);
        }
    }

    /** Over every run the numbers that wait returns are all different, and each comes with the status with which that
        process called exit. */
    method Run(steps: seq<Step>) returns (got: seq<nat>, statuses: seq<int>, ghost trace: seq<Table>,
                                          ghost outs: seq<Waited>)
      requires Valid()
      modifies this
      ensures Valid() && |statuses| == |got|
      ensures |trace| == |steps| + 1 && |outs| == |steps| && trace[0] == old(Look()) && trace[|steps|] == Look()
      ensures forall k | 0 <= k < |steps| :: Took(steps[k], trace[k], trace[k + 1], init, outs[k])
      ensures forall i, j | 0 <= i < j < |got| :: got[i] != got[j]
      ensures forall i | 0 <= i < |got| :: got[i] in reaped && got[i] !in old(reaped)
      ensures forall i | 0 <= i < |got| && got[i] !in old(exited) :: QuitWith(steps, trace, got[i], statuses[i])
    {
      hide Family;
      hide Pids;
      hide Forks;
      hide Took;
      hide QuitWith;
      got, statuses, trace, outs := [], [], [Look()], [];
      for k := 0 to |steps|
        invariant Valid() && old(reaped) <= reaped && |statuses| == |got|
        invariant |trace| == k + 1 && |outs| == k && trace[0] == old(Look()) && trace[k] == Look()
        invariant forall n | 0 <= n < k :: Took(steps[n], trace[n], trace[n + 1], init, outs[n])
        invariant forall i, j | 0 <= i < j < |got| :: got[i] != got[j]
        invariant forall i | 0 <= i < |got| :: got[i] in reaped && got[i] !in old(reaped)
        invariant forall n | n in exited && n !in old(exited) :: QuitWith(steps[..k], trace, n, exited[n])
        invariant forall i | 0 <= i < |got| :: got[i] in exited && exited[got[i]] == statuses[i]
      {
        ghost var before := Look();
        var out := Do(steps[k]);
        TookReaps(steps[k], before, Look(), init, out);
        assert steps[..k + 1] == steps[..k] + [steps[k]];
        MoreQuits(steps[..k], trace, steps[k], Look(), init, out, old(exited));
        trace, outs := trace + [Look()], outs + [out];
        if out.Reaped? {
          got, statuses := got + [out.pid], statuses + [out.status];
        }
      }
      assert steps[..|steps|] == steps;
    }
  }

  /** The process table as one value. */
  datatype Table = Table(state: seq<PState>, pid: seq<nat>, parent: seq<nat>, killed: seq<bool>, nextPid: nat,
                         inFork: map<nat, nat>, exited: map<nat, int>, reaped: set<nat>)

  ghost predicate Full(t: Table)
  {
    |t.state| == |t.pid| == |t.parent| == |t.killed| == 64
  }

  /** Process p has taken slot np for a child. */
  ghost predicate NewChild(t: Table, t': Table, p: nat, np: nat)
    requires Full(t)
  {
    && np < 64 && t.state[np] == Unused
    && t' == t.(state := t.state[np := Used], pid := t.pid[np := t.nextPid], nextPid := t.nextPid + 1,
                inFork := t.inFork[p := np])
  }

  /** Slot c is free again. */
  ghost function Cleared(t: Table, c: nat): Table
    requires Full(t) && c < 64
  {
    t.(state := t.state[c := Unused], pid := t.pid[c := 0], parent := t.parent[c := NONE],
       killed := t.killed[c := false])
  }

  /** What each step does, and that it does nothing if the process cannot take it. */
  ghost predicate Took(step: Step, t: Table, t': Table, init: nat, out: Waited)
  {
    && Full(t) && Full(t') && (!step.Await? ==> out == Failed)
    && match step
       case Fork(p) =>
         if p < 64 && t.state[p] == Running && p !in t.inFork && exists c :: 0 <= c < 64 && t.state[c] == Unused
         then exists np :: NewChild(t, t', p, np)
         else t' == t
       case GiveUp(p) =>
         if p in t.inFork && t.inFork[p] < 64 && t.parent[t.inFork[p]] == NONE
         then t' == Cleared(t, t.inFork[p]).(inFork := t.inFork - {p})
         else t' == t
       case Link(p) =>
         if p in t.inFork && t.inFork[p] < 64 && t.parent[t.inFork[p]] == NONE
         then t' == t.(parent := t.parent[t.inFork[p] := p])
         else t' == t
       case Start(p) =>
         if p in t.inFork && t.inFork[p] < 64 && t.parent[t.inFork[p]] == p
         then t' == t.(state := t.state[t.inFork[p] := Runnable], inFork := t.inFork - {p})
         else t' == t
       case Quit(p, status) =>
         if p < 64 && t.state[p] == Running && p != init && p !in t.inFork
         then
           && t.pid[p] !in t.exited
           && t' == t.(state := t.state[p := Zombie], parent := t'.parent, exited := t.exited[t.pid[p] := status])
           && forall c | 0 <= c < 64 :: t'.parent[c] == if t.parent[c] == p then init else t.parent[c]
         else t' == t
       case Await(p, addr, copyoutOk) =>
         if p < 64 && t.state[p] == Running then Waits(t, t', p, addr, copyoutOk, out) else t' == t && out == Failed
       case Switch(p, st) =>
         if p < 64 && Live(t.state[p]) && t.state[p] != Used && Live(st) && st != Used
         then t' == t.(state := t.state[p := st])
         else t' == t
  }

  /** A round of wait: the first zombie child is reaped unless its status cannot be copied out; without one, the
      process sleeps if it has a child and was not killed. */
  ghost predicate Waits(t: Table, t': Table, p: nat, addr: bool, copyoutOk: bool, out: Waited)
  {
    && Full(t) && p < 64
    && if !exists c :: IsZombieChild(t.state, t.parent, p, c) then
         t' == t && out == if (exists c :: 0 <= c < 64 && t.parent[c] == p) && !t.killed[p] then Sleeps else Failed
       else if addr && !copyoutOk then t' == t && out == Failed
       else exists c :: ReapsFirst(t, t', p, c, out)
  }

  ghost predicate ReapsFirst(t: Table, t': Table, p: nat, c: nat, out: Waited)
    requires Full(t)
  {
    && IsZombieChild(t.state, t.parent, p, c) && (forall d | 0 <= d < c :: !IsZombieChild(t.state, t.parent, p, d))
    && t.pid[c] in t.exited && out == Reaped(t.pid[c], t.exited[t.pid[c]])
    && t' == Cleared(t, c).(reaped := t.reaped + {t.pid[c]})
  }

  /** What a step does to the records of exit and wait. */
  lemma TookReaps(step: Step, t: Table, t': Table, init: nat, out: Waited)
    requires Took(step, t, t', init, out)
    ensures t'.reaped == if out.Reaped? then t.reaped + {out.pid} else t.reaped
    ensures t.exited.Keys <= t'.exited.Keys && forall n | n in t.exited :: t'.exited[n] == t.exited[n]
  {
  }

  /** Process number n called exit with this status. */
  ghost predicate QuitWith(steps: seq<Step>, trace: seq<Table>, n: nat, status: int)
  {
    |trace| > |steps| && exists k :: 0 <= k < |steps| && QuitAt(steps[k], trace[k], n, status)
  }

  ghost predicate QuitAt(step: Step, t: Table, n: nat, status: int)
  {
    && step.Quit? && step.status == status && Full(t) && step.p < 64
    && t.state[step.p] == Running && t.pid[step.p] == n
  }

  lemma MoreQuits(steps: seq<Step>, trace: seq<Table>, step: Step, t: Table, init: nat, out: Waited,
                  before: map<nat, int>)
    requires |trace| == |steps| + 1 && Took(step, trace[|steps|], t, init, out)
    requires forall n | n in trace[|steps|].exited && n !in before ::
      QuitWith(steps, trace, n, trace[|steps|].exited[n])
    ensures forall n | n in t.exited && n !in before :: QuitWith(steps + [step], trace + [t], n, t.exited[n])
  {
    var s := trace[|steps|];
    var steps', trace' := steps + [step], trace + [t];
    forall n | n in t.exited && n !in before
      ensures QuitWith(steps', trace', n, t.exited[n])
    {
      if n in s.exited {
        TookReaps(step, s, t, init, out);
        var k :| 0 <= k < |steps| && QuitAt(steps[k], trace[k], n, s.exited[n]);
        assert QuitAt(steps'[k], trace'[k], n, t.exited[n]);
      } else {
        assert QuitAt(steps'[|steps|], trace'[|steps|], n, t.exited[n]);
      }
    }
  }

  /** What may happen next. */
  datatype Step =
    | Fork(p: nat)
    | GiveUp(p: nat)
    | Link(p: nat)
    | Start(p: nat)
    | Quit(p: nat, status: int)
    | Await(p: nat, addr: bool, copyoutOk: bool)
    | Switch(p: nat, st: PState)

  /** How a round of wait ends. */
  datatype Waited = Reaped(pid: nat, status: int) | Failed | Sleeps

  ghost predicate IsZombieChild(state: seq<PState>, parent: seq<nat>, p: nat, c: int)
  {
    0 <= c < 64 && |state| == |parent| == 64 && parent[c] == p && state[c] == Zombie
  }

  lemma ZombieFree(state: seq<PState>, pid: seq<nat>, xstate: seq<int>, exited: map<nat, int>, reaped: set<nat>,
                   nextPid: nat, inFork: map<nat, nat>, c: nat)
    requires |state| == |pid| == |xstate| == 64 && c < 64 && state[c] == Zombie
    requires Pids(state, pid, nextPid) && Forks(state, pid, inFork)
    requires History(state, pid, xstate, exited, reaped, nextPid)
    ensures pid[c] in exited && exited[pid[c]] == xstate[c] && pid[c] !in reaped
    ensures Forks(state[c := Unused], pid[c := 0], inFork)
    ensures History(state[c := Unused], pid[c := 0], xstate[c := 0], exited, reaped + {pid[c]}, nextPid)
  {
    var state', pid' := state[c := Unused], pid[c := 0];
    assert Live(state[c]) || state[c] == Zombie;
    forall d {:trigger state'[d]} | 0 <= d < 64 && state'[d] == Zombie
      ensures pid'[d] != pid[c]
    {
      assert state[d] == Zombie && d != c;
      if d < c { } else { }
    }
  }

  /** The oldest ancestor of c. */
  ghost function Root(state: seq<PState>, pid: seq<nat>, parent: seq<nat>, init: nat, c: nat): (r: nat)
    requires |state| == |pid| == |parent| == 64 && Family(state, pid, parent, init) && c < 64
    decreases pid[c]
  {
    if parent[c] == NONE then c else Root(state, pid, parent, init, parent[c])
  }

  /** Following parents from any process that has run leads to init: the table is a tree. */
  lemma {:induction false} RootIsInit(state: seq<PState>, pid: seq<nat>, parent: seq<nat>, init: nat, c: nat)
    requires |state| == |pid| == |parent| == 64 && Family(state, pid, parent, init) && c < 64
    requires state[c] != Unused && state[c] != Used
    ensures Root(state, pid, parent, init, c) == init
    decreases pid[c]
  {
    if parent[c] != NONE {
      RootIsInit(state, pid, parent, init, parent[c]);
    }
  }

  /** A zombie's parent is live, and its number and status are recorded but not yet returned. */
  lemma ZombieReapable(state: seq<PState>, pid: seq<nat>, parent: seq<nat>, xstate: seq<int>, init: nat,
                       exited: map<nat, int>, reaped: set<nat>, nextPid: nat, c: nat)
    requires |state| == |pid| == |parent| == |xstate| == 64 && c < 64 && state[c] == Zombie
    requires Family(state, pid, parent, init) && History(state, pid, xstate, exited, reaped, nextPid)
    ensures parent[c] < 64 && Live(state[parent[c]]) && IsZombieChild(state, parent, parent[c], c)
    ensures pid[c] in exited && exited[pid[c]] == xstate[c] && pid[c] !in reaped
  {
    assert c != init;
  }

  lemma InitIs(state: seq<PState>, pid: seq<nat>, parent: seq<nat>, init: nat)
    requires |state| == |pid| == |parent| == 64 && Family(state, pid, parent, init)
    ensures init < 64 && pid[init] == 1 && Live(state[init]) && parent[init] == NONE && state[init] != Used
  {
  }

  lemma OlderThanInit(state: seq<PState>, pid: seq<nat>, nextPid: nat, init: nat)
    requires |state| == |pid| == 64 && Pids(state, pid, nextPid) && init < 64 && pid[init] == 1 && Live(state[init])
    ensures forall c | 0 <= c < 64 && state[c] != Unused && c != init :: pid[c] > 1
  {
    forall c | 0 <= c < 64 && state[c] != Unused && c != init
      ensures pid[c] > 1
    {
      assert pid[c] != pid[init] by { if c < init { } else { } }
    }
  }

  lemma ExitHistory(state: seq<PState>, pid: seq<nat>, xstate: seq<int>, exited: map<nat, int>, reaped: set<nat>,
                    nextPid: nat, p: nat, status: int)
    requires |state| == |pid| == |xstate| == 64 && History(state, pid, xstate, exited, reaped, nextPid)
    requires Pids(state, pid, nextPid) && p < 64 && Live(state[p])
    ensures pid[p] !in exited
    ensures History(state[p := Zombie], pid, xstate[p := status], exited[pid[p] := status], reaped, nextPid)
  {
    var state' := state[p := Zombie];
    forall c {:trigger state'[c]} | 0 <= c < 64 && c != p && state'[c] != Unused
      ensures pid[c] != pid[p]
    {
      assert state[c] != Unused;
      if c < p { } else { }
    }
  }

  /** A change of state between used ones concerns neither the numbers nor the forks. */
  lemma PidsKept(state: seq<PState>, pid: seq<nat>, nextPid: nat, p: nat, st: PState)
    requires |state| == |pid| == 64 && Pids(state, pid, nextPid) && p < 64 && state[p] != Unused
    ensures Pids(state[p := st], pid, nextPid)
  {
    var state' := state[p := st];
    forall c, d | 0 <= c < d < 64 && state'[c] != Unused && state'[d] != Unused
      ensures pid[c] != pid[d]
    {
      assert state[c] != Unused && state[d] != Unused;
    }
  }

  lemma ForksKept(state: seq<PState>, pid: seq<nat>, inFork: map<nat, nat>, p: nat, st: PState)
    requires |state| == |pid| == 64 && Forks(state, pid, inFork) && p < 64
    requires state[p] != Used && st != Used && (p in inFork ==> Live(st))
    ensures Forks(state[p := st], pid, inFork)
  {
  }

  lemma ForkOf(state: seq<PState>, pid: seq<nat>, inFork: map<nat, nat>, p: nat)
    requires |state| == |pid| == 64 && Forks(state, pid, inFork) && p in inFork
    ensures p < 64 && Live(state[p]) && state[p] != Used && inFork[p] < 64 && state[inFork[p]] == Used && p != inFork[p]
    ensures pid[p] < pid[inFork[p]]
  {
  }

  lemma AllocStep(state: seq<PState>, pid: seq<nat>, parent: seq<nat>, xstate: seq<int>, nextPid: nat,
                  inFork: map<nat, nat>, exited: map<nat, int>, reaped: set<nat>, init: nat, p: nat, np: nat)
    requires |state| == |pid| == |parent| == |xstate| == 64 && p < 64 && np < 64
    requires Family(state, pid, parent, init) && Pids(state, pid, nextPid) && Forks(state, pid, inFork)
    requires History(state, pid, xstate, exited, reaped, nextPid)
    requires state[np] == Unused && Live(state[p]) && state[p] != Used && p !in inFork
    ensures Family(state[np := Used], pid[np := nextPid], parent, init)
    ensures Pids(state[np := Used], pid[np := nextPid], nextPid + 1)
    ensures Forks(state[np := Used], pid[np := nextPid], inFork[p := np])
    ensures History(state[np := Used], pid[np := nextPid], xstate, exited, reaped, nextPid + 1)
  {
    AllocFamily(state, pid, parent, init, np, nextPid);
    AllocPids(state, pid, nextPid, np);
    AllocForks(state, pid, nextPid, inFork, p, np);
    AllocHistory(state, pid, xstate, exited, reaped, nextPid, np);
  }

  lemma AllocFamily(state: seq<PState>, pid: seq<nat>, parent: seq<nat>, init: nat, np: nat, n: nat)
    requires |state| == |pid| == |parent| == 64 && np < 64 && Family(state, pid, parent, init) && state[np] == Unused
    ensures Family(state[np := Used], pid[np := n], parent, init)
  {
    var state', pid' := state[np := Used], pid[np := n];
    forall c {:trigger state'[c]} | 0 <= c < 64 && c != init && state'[c] != Unused && state'[c] != Used
      ensures parent[c] != NONE
    {
      assert state[c] != Unused && state[c] != Used;
    }
  }

  lemma AllocPids(state: seq<PState>, pid: seq<nat>, nextPid: nat, np: nat)
    requires |state| == |pid| == 64 && np < 64 && Pids(state, pid, nextPid) && nextPid >= 1
    ensures Pids(state[np := Used], pid[np := nextPid], nextPid + 1)
  {
    var state', pid' := state[np := Used], pid[np := nextPid];
    forall c {:trigger pid'[c]} | 0 <= c < 64 && state'[c] != Unused
      ensures 1 <= pid'[c] < nextPid + 1
    {
      assert c == np || pid'[c] == pid[c];
    }
    forall c, d | 0 <= c < d < 64 && state'[c] != Unused && state'[d] != Unused
      ensures pid'[c] != pid'[d]
    {
      assert c == np || pid'[c] == pid[c];
      assert d == np || pid'[d] == pid[d];
    }
  }

  lemma AllocForks(state: seq<PState>, pid: seq<nat>, nextPid: nat, inFork: map<nat, nat>, p: nat, np: nat)
    requires |state| == |pid| == 64 && p < 64 && np < 64 && Forks(state, pid, inFork) && pid[p] < nextPid
    requires state[np] == Unused && Live(state[p]) && state[p] != Used && p !in inFork
    ensures Forks(state[np := Used], pid[np := nextPid], inFork[p := np])
  {
    var state', fork' := state[np := Used], inFork[p := np];
    forall c {:trigger state'[c]} | 0 <= c < 64 && state'[c] == Used
      ensures c in fork'.Values
    {
      if c == np {
        assert fork'[p] == np;
      } else {
        assert state[c] == Used;
        var q :| q in inFork && inFork[q] == c;
        assert fork'[q] == c;
      }
    }
  }

  lemma AllocHistory(state: seq<PState>, pid: seq<nat>, xstate: seq<int>, exited: map<nat, int>, reaped: set<nat>,
                     nextPid: nat, np: nat)
    requires |state| == |pid| == |xstate| == 64 && np < 64 && History(state, pid, xstate, exited, reaped, nextPid)
    ensures History(state[np := Used], pid[np := nextPid], xstate, exited, reaped, nextPid + 1)
  {
  }

  /** A child that is freed has no children of its own. */
  lemma FreeStep(state: seq<PState>, pid: seq<nat>, parent: seq<nat>, xstate: seq<int>, nextPid: nat,
                 inFork: map<nat, nat>, exited: map<nat, int>, reaped: set<nat>, init: nat, c: nat)
    requires |state| == |pid| == |parent| == |xstate| == 64 && c < 64
    requires Family(state, pid, parent, init) && Pids(state, pid, nextPid) && Forks(state, pid, inFork)
    requires History(state, pid, xstate, exited, reaped, nextPid)
    requires c != init && forall d | 0 <= d < 64 :: parent[d] != c
    ensures Family(state[c := Unused], pid[c := 0], parent[c := NONE], init)
    ensures Pids(state[c := Unused], pid[c := 0], nextPid)
    ensures History(state[c := Unused], pid[c := 0], xstate[c := 0], exited, reaped, nextPid)
  {
    FreeFamily(state, pid, parent, init, c);
    FreePids(state, pid, nextPid, c);
  }

  lemma FreeFamily(state: seq<PState>, pid: seq<nat>, parent: seq<nat>, init: nat, c: nat)
    requires |state| == |pid| == |parent| == 64 && c < 64 && Family(state, pid, parent, init)
    requires c != init && forall d | 0 <= d < 64 :: parent[d] != c
    ensures Family(state[c := Unused], pid[c := 0], parent[c := NONE], init)
  {
    var state', pid', parent' := state[c := Unused], pid[c := 0], parent[c := NONE];
    forall d {:trigger parent'[d]} | 0 <= d < 64 && parent'[d] != NONE
      ensures parent'[d] < 64 && Live(state'[parent'[d]]) && state'[parent'[d]] != Used && pid'[parent'[d]] < pid'[d]
      ensures state'[d] != Unused
    {
      assert parent[d] == parent'[d] && d != c;
    }
    forall d {:trigger state'[d]} | 0 <= d < 64 && d != init && state'[d] != Unused && state'[d] != Used
      ensures parent'[d] != NONE
    {
      assert state[d] == state'[d];
    }
  }

  lemma FreePids(state: seq<PState>, pid: seq<nat>, nextPid: nat, c: nat)
    requires |state| == |pid| == 64 && c < 64 && Pids(state, pid, nextPid)
    ensures Pids(state[c := Unused], pid[c := 0], nextPid)
  {
    var state', pid' := state[c := Unused], pid[c := 0];
    forall d {:trigger pid'[d]} | 0 <= d < 64 && state'[d] != Unused
      ensures 1 <= pid'[d] < nextPid
    {
      assert pid'[d] == pid[d];
    }
    forall d, e | 0 <= d < e < 64 && state'[d] != Unused && state'[e] != Unused
      ensures pid'[d] != pid'[e]
    {
      assert pid'[d] == pid[d] && pid'[e] == pid[e];
    }
  }

  lemma ForkDone(state: seq<PState>, pid: seq<nat>, inFork: map<nat, nat>, p: nat, st: PState, n: nat)
    requires |state| == |pid| == 64 && Forks(state, pid, inFork) && p in inFork && inFork[p] < 64 && st != Used
    ensures Forks(state[inFork[p] := st], pid[inFork[p] := n], inFork - {p})
  {
    var np := inFork[p];
    var state', fork' := state[np := st], inFork - {p};
    forall c {:trigger state'[c]} | 0 <= c < 64 && state'[c] == Used
      ensures c in fork'.Values
    {
      assert state[c] == Used && c != np;
      var r :| r in inFork && inFork[r] == c;
      assert fork'[r] == c;
    }
  }

  lemma LinkStep(state: seq<PState>, pid: seq<nat>, parent: seq<nat>, inFork: map<nat, nat>, init: nat, p: nat)
    requires |state| == |pid| == |parent| == 64 && Family(state, pid, parent, init) && Forks(state, pid, inFork)
    requires p in inFork && p < 64 && inFork[p] < 64 && Live(state[p]) && state[p] != Used
    requires state[inFork[p]] == Used && pid[p] < pid[inFork[p]]
    ensures Family(state, pid, parent[inFork[p] := p], init)
  {
    var parent' := parent[inFork[p] := p];
    forall d {:trigger parent'[d]} | 0 <= d < 64 && parent'[d] != NONE
      ensures parent'[d] < 64 && Live(state[parent'[d]]) && state[parent'[d]] != Used && pid[parent'[d]] < pid[d]
      ensures state[d] != Unused
    {
      assert d == inFork[p] || parent[d] == parent'[d];
    }
  }

  lemma RunStep(state: seq<PState>, pid: seq<nat>, parent: seq<nat>, xstate: seq<int>, nextPid: nat,
                exited: map<nat, int>, reaped: set<nat>, init: nat, c: nat, st: PState)
    requires |state| == |pid| == |parent| == |xstate| == 64 && c < 64
    requires Family(state, pid, parent, init) && Pids(state, pid, nextPid)
    requires History(state, pid, xstate, exited, reaped, nextPid)
    requires Live(state[c]) && Live(st) && st != Used && (parent[c] != NONE || c == init || state[c] != Used)
    ensures Family(state[c := st], pid, parent, init) && Pids(state[c := st], pid, nextPid)
    ensures History(state[c := st], pid, xstate, exited, reaped, nextPid)
  {
    var state' := state[c := st];
    PidsKept(state, pid, nextPid, c, st);
    hide Pids;
    forall d {:trigger state'[d]} | 0 <= d < 64 && d != init && state'[d] != Unused && state'[d] != Used
      ensures parent[d] != NONE
    {
      assert d == c || state[d] == state'[d];
    }
  }

  /** A child not yet made, or a zombie, is nobody's parent. */
  lemma NoChildren(state: seq<PState>, pid: seq<nat>, parent: seq<nat>, init: nat, c: nat)
    requires |state| == |pid| == |parent| == 64 && Family(state, pid, parent, init) && c < 64
    requires state[c] == Used || state[c] == Zombie
    ensures c != init && forall d | 0 <= d < 64 :: parent[d] != c
  {
  }
}
