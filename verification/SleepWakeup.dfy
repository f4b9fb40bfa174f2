/**
 * sleep, wakeup and the sleep-locks built on them (kernel/proc.c,
 * kernel/sleeplock.c) as a state machine over single lock operations: every
 * process may be preempted between any two of them.
 */
module SleepWakeup {
  /** Where a process is; the comments name the locks it holds: lk, or the process lock of some process. */
  datatype At =
    | Idle    // in neither acquiresleep nor releasesleep
    | Check   // lk: about to test locked
    | Got     // lk: has set locked
    | Rel     // lk: about to clear locked
    | Scan    // lk: wakeup's loop
    | Scan2   // lk and the process lock of process i
    | Sleep0  // lk: sleep was called
    | Sleep1  // lk and its own process lock
    | Sleep2  // its own process lock: lk was released
    | Sleep3  // its own process lock: state is SLEEPING
    | Asleep  // in the scheduler's hands
    | Awake   // its own process lock: running again
    | Again   // about to take lk again

  /** A process takes or gives back sleep-lock l; i is wakeup's loop counter. */
  datatype Pc = Pc(at: At, l: nat, i: nat)

  /**
   * The spinlocks of the sleep-locks and the process locks with their
   * holders, the sleep-locks with the processes that locked them, the
   * processes whose state is SLEEPING and the channels they sleep on.  A
   * process may hold any number of sleep-locks while it waits for another:
   * owned are those that acquiresleep gave it and that it has not begun to
   * give back.
   */
  datatype State = State(pcs: seq<Pc>, lk: map<nat, nat>, plock: map<nat, nat>, locked: map<nat, nat>,
                         sleeping: set<nat>, chan: map<nat, nat>, owned: seq<set<nat>>)

  /** What an idle process does next: acquiresleep or releasesleep of sleep-lock l. */
  datatype Call = Acquire(l: nat) | Release(l: nat)

  /** Can process p take its next step?  It waits for a lock or, asleep, to be made runnable. */
  predicate Enabled(s: State, p: nat, call: Call)
  {
    p < |s.pcs| && p < |s.owned| &&
    match s.pcs[p].at
    case Idle => call.l !in s.lk && (call.Release? <==> call.l in s.owned[p])
    case Again => s.pcs[p].l !in s.lk
    case Scan => s.pcs[p].i >= |s.pcs| || s.pcs[p].i == p || s.pcs[p].i !in s.plock
    case Sleep0 => p !in s.plock
    case Asleep => p !in s.sleeping && p !in s.plock
    case _ => true
  }

  function Goto(s: State, p: nat, c: Pc): (t: State)
    requires p < |s.pcs|
  {
    s.(pcs := s.pcs[p := c])
  }

  /** The next step of process p; an idle one begins the call. */
  function Move(s: State, p: nat, call: Call): (t: State)
    requires Enabled(s, p, call)
  {
    var c := s.pcs[p];
    match c.at
    case Idle =>
      if call.Acquire? then Goto(s, p, Pc(Check, call.l, 0)).(lk := s.lk[call.l := p])
      else Goto(s, p, Pc(Rel, call.l, 0)).(lk := s.lk[call.l := p], owned := s.owned[p := s.owned[p] - {call.l}])
    case Check =>
      if c.l in s.locked then Goto(s, p, Pc(Sleep0, c.l, 0))
      else Goto(s, p, Pc(Got, c.l, 0)).(locked := s.locked[c.l := p])
    case Got => Goto(s, p, Pc(Idle, 0, 0)).(lk := s.lk - {c.l}, owned := s.owned[p := s.owned[p] + {c.l}])
    case Rel => Goto(s, p, Pc(Scan, c.l, 0)).(locked := s.locked - {c.l})
    case Scan =>
      if c.i >= |s.pcs| then Goto(s, p, Pc(Idle, 0, 0)).(lk := s.lk - {c.l})
      else if c.i == p then Goto(s, p, Pc(Scan, c.l, c.i + 1))
      else Goto(s, p, Pc(Scan2, c.l, c.i)).(plock := s.plock[c.i := p])
    case Scan2 =>
      var wakes := c.i in s.sleeping && c.i in s.chan && s.chan[c.i] == c.l;
      Goto(s, p, Pc(Scan, c.l, c.i + 1)).(plock := s.plock - {c.i},
                                         sleeping := if wakes then s.sleeping - {c.i} else s.sleeping)
    case Sleep0 => Goto(s, p, Pc(Sleep1, c.l, 0)).(plock := s.plock[p := p])
    case Sleep1 => Goto(s, p, Pc(Sleep2, c.l, 0)).(lk := s.lk - {c.l})
    case Sleep2 => Goto(s, p, Pc(Sleep3, c.l, 0)).(sleeping := s.sleeping + {p}, chan := s.chan[p := c.l])
    case Sleep3 => Goto(s, p, Pc(Asleep, c.l, 0)).(plock := s.plock - {p})
    case Asleep => Goto(s, p, Pc(Awake, c.l, 0)).(plock := s.plock[p := p])
    case Awake => Goto(s, p, Pc(Again, c.l, 0)).(plock := s.plock - {p}, chan := s.chan - {p})
    case Again => Goto(s, p, Pc(Check, c.l, 0)).(lk := s.lk[c.l := p])
  }

  /** kill makes a sleeping process runnable, whatever it waits for. */
  function Kill(s: State, p: nat): (t: State)
  {
    if p in s.plock then s else s.(sleeping := s.sleeping - {p})
  }

  predicate HoldsLk(c: Pc)
  {
    match c.at
    case Check => true
    case Got => true
    case Rel => true
    case Scan => true
    case Scan2 => true
    case Sleep0 => true
    case Sleep1 => true
    case _ => false
  }

  /** The process whose lock process p holds, or none. */
  predicate HoldsProc(p: nat, c: Pc, q: nat)
  {
    match c.at
    case Scan2 => q == c.i
    case Sleep1 => q == p
    case Sleep2 => q == p
    case Sleep3 => q == p
    case Awake => q == p
    case _ => false
  }

  /** Process p has set locked, or is about to clear it, without owning the sleep-lock as far as its caller knows. */
  predicate Between(c: Pc)
  {
    c.at == Got || c.at == Rel
  }

  /** Process p is in acquiresleep and does not have the sleep-lock yet. */
  predicate Wanting(c: Pc)
  {
    match c.at
    case Idle => false
    case Got => false
    case Rel => false
    case Scan => false
    case Scan2 => false
    case _ => true
  }

  ghost predicate LkOk(pcs: seq<Pc>, lk: map<nat, nat>)
  {
    && (forall l | l in lk :: lk[l] < |pcs| && HoldsLk(pcs[lk[l]]) && pcs[lk[l]].l == l)
    && (forall p | 0 <= p < |pcs| && HoldsLk(pcs[p]) :: pcs[p].l in lk && lk[pcs[p].l] == p)
  }

  ghost predicate ProcOk(pcs: seq<Pc>, plock: map<nat, nat>)
  {
    && (forall q | q in plock :: plock[q] < |pcs| && HoldsProc(plock[q], pcs[plock[q]], q))
    && (forall p,
        q {:trigger HoldsProc(p, pcs[p], q)} | 0 <= p < |pcs| && HoldsProc(p, pcs[p], q) :: q in plock && plock[q] == p)
  }

  /** locked names the owner of each sleep-lock; nobody waits for one of its own. */
  ghost predicate OwnerOk(pcs: seq<Pc>, locked: map<nat, nat>, owned: seq<set<nat>>)
  {
    && |owned| == |pcs|
    && (forall p, l {:trigger l in owned[p]} | 0 <= p < |pcs| && l in owned[p] :: l in locked && locked[l] == p)
    && (forall p | 0 <= p < |pcs| && Between(pcs[p]) ::
          pcs[p].l in locked && locked[pcs[p].l] == p && pcs[p].l !in owned[p])
    && (forall l | l in locked :: locked[l] < |pcs| &&
          (l in owned[locked[l]] || (Between(pcs[locked[l]]) && pcs[locked[l]].l == l)))
    && (forall p | 0 <= p < |pcs| && Wanting(pcs[p]) :: pcs[p].l in locked ==> locked[pcs[p].l] != p)
  }

  ghost predicate SleepOk(pcs: seq<Pc>, sleeping: set<nat>, chan: map<nat, nat>)
  {
    && (forall p | p in sleeping ::
          p < |pcs| && (pcs[p].at == Sleep3 || pcs[p].at == Asleep) && p in chan && chan[p] == pcs[p].l)
    && (forall p | 0 <= p < |pcs| && pcs[p].at == Sleep3 :: p in sleeping)
    && (forall p | 0 <= p < |pcs| && pcs[p].at == Scan2 :: pcs[p].i < |pcs| && pcs[p].i != p)
  }

  /** Process p saw the sleep-lock taken, released lk and has not been woken since. */
  predicate Committed(c: Pc, asleep: bool)
  {
    c.at == Sleep2 || c.at == Sleep3 || (c.at == Asleep && asleep)
  }

  /** Process w holds lk, has cleared the condition and will still come to process p. */
  ghost predicate WillWake(pcs: seq<Pc>, lk: map<nat, nat>, l: nat, p: nat)
  {
    l in lk && lk[l] < |pcs| && lk[l] != p && (pcs[lk[l]].at == Scan || pcs[lk[l]].at == Scan2) && pcs[lk[l]].i <= p
  }

  /** No wakeup is lost: a process that sleeps on a sleep-lock waits for one that is taken, or is about to be woken. */
  ghost predicate NoLost(pcs: seq<Pc>, lk: map<nat, nat>, locked: map<nat, nat>, sleeping: set<nat>)
  {
    forall p {:trigger pcs[p]} | 0 <= p < |pcs| && Committed(pcs[p], p in sleeping) ::
      pcs[p].l in locked || WillWake(pcs, lk, pcs[p].l, p)
  }

  /** Between the test of locked and the release of lk the sleep-lock stays taken. */
  ghost predicate Checked(pcs: seq<Pc>, locked: map<nat, nat>)
  {
    forall p | 0 <= p < |pcs| && (pcs[p].at == Sleep0 || pcs[p].at == Sleep1) :: pcs[p].l in locked
  }

  /** While wakeup runs its loop, lk is held and the sleep-lock is free. */
  ghost predicate Cleared(pcs: seq<Pc>, locked: map<nat, nat>)
  {
    forall p | 0 <= p < |pcs| && (pcs[p].at == Scan || pcs[p].at == Scan2) :: pcs[p].l !in locked
  }

  ghost predicate Inv(s: State)
  {
    && LkOk(s.pcs, s.lk)
    && ProcOk(s.pcs, s.plock)
    && OwnerOk(s.pcs, s.locked, s.owned)
    && Checked(s.pcs, s.locked)
    && Cleared(s.pcs, s.locked)
    && SleepOk(s.pcs, s.sleeping, s.chan)
    && NoLost(s.pcs, s.lk, s.locked, s.sleeping)
  }

  lemma LkStep(pcs: seq<Pc>, lk: map<nat, nat>, p: nat, c: Pc, lk': map<nat, nat>)
    requires LkOk(pcs, lk) && p < |pcs|
    requires if HoldsLk(pcs[p]) && HoldsLk(c) then c.l == pcs[p].l && lk' == lk
             else if HoldsLk(c) then c.l !in lk && lk' == lk[c.l := p]
             else if HoldsLk(pcs[p]) then lk' == lk - {pcs[p].l}
             else lk' == lk
    ensures LkOk(pcs[p := c], lk')
  {
    hide HoldsLk;
  }

  /** A step that neither takes nor gives back a sleep-lock. */
  lemma OwnerSame(pcs: seq<Pc>, locked: map<nat, nat>, owned: seq<set<nat>>, p: nat, c: Pc)
    requires OwnerOk(pcs, locked, owned) && p < |pcs| && !Between(pcs[p]) && !Between(c)
    requires Wanting(c) ==> if Wanting(pcs[p]) then c.l == pcs[p].l else pcs[p].at == Idle && c.l !in owned[p]
    ensures OwnerOk(pcs[p := c], locked, owned)
  {
    hide Wanting;
  }

  lemma OwnerTakes(pcs: seq<Pc>, locked: map<nat, nat>, owned: seq<set<nat>>, p: nat, c: Pc)
    requires OwnerOk(pcs, locked, owned) && p < |pcs| && Wanting(pcs[p]) && c == Pc(Got, pcs[p].l, 0) && c.l !in locked
    ensures OwnerOk(pcs[p := c], locked[c.l := p], owned)
  {
    hide Wanting;
    assert !Wanting(c) && !Between(pcs[p]) by { WantingIs(c); WantingIs(pcs[p]); }
  }

  lemma WantingIs(c: Pc)
    ensures Wanting(c) ==> !Between(c) && c.at != Idle
  {
  }

  lemma OwnerGets(pcs: seq<Pc>, locked: map<nat, nat>, owned: seq<set<nat>>, p: nat, c: Pc)
    requires OwnerOk(pcs, locked, owned) && p < |pcs| && pcs[p].at == Got && c.at == Idle
    ensures OwnerOk(pcs[p := c], locked, owned[p := owned[p] + {pcs[p].l}])
  {
    hide Wanting;
    assert !Wanting(c) by { WantingIs(c); }
  }

  lemma OwnerBeginsRelease(pcs: seq<Pc>, locked: map<nat, nat>, owned: seq<set<nat>>, p: nat, l: nat)
    requires OwnerOk(pcs, locked, owned) && p < |pcs| && pcs[p].at == Idle && l in owned[p]
    ensures OwnerOk(pcs[p := Pc(Rel, l, 0)], locked, owned[p := owned[p] - {l}])
  {
    hide Wanting;
    assert !Wanting(Pc(Rel, l, 0)) by { WantingIs(Pc(Rel, l, 0)); }
  }

  lemma OwnerReleases(pcs: seq<Pc>, locked: map<nat, nat>, owned: seq<set<nat>>, p: nat, c: Pc)
    requires OwnerOk(pcs, locked, owned) && p < |pcs| && pcs[p].at == Rel && c.at == Scan
    ensures OwnerOk(pcs[p := c], locked - {pcs[p].l}, owned)
  {
  }

  /** Process p holds no process lock before and after, or the same one. */
  lemma ProcSame(pcs: seq<Pc>, plock: map<nat, nat>, p: nat, c: Pc)
    requires ProcOk(pcs, plock) && p < |pcs|
    requires forall q :: HoldsProc(p, c, q) <==> HoldsProc(p, pcs[p], q)
    ensures ProcOk(pcs[p := c], plock)
  {
    hide HoldsProc;
  }

  lemma ProcTake(pcs: seq<Pc>, plock: map<nat, nat>, p: nat, c: Pc, k: nat)
    requires ProcOk(pcs, plock) && p < |pcs| && k !in plock
    requires forall q :: !HoldsProc(p, pcs[p], q)
    requires forall q :: HoldsProc(p, c, q) <==> q == k
    ensures ProcOk(pcs[p := c], plock[k := p])
  {
    hide HoldsProc;
  }

  lemma ProcDrop(pcs: seq<Pc>, plock: map<nat, nat>, p: nat, c: Pc, k: nat)
    requires ProcOk(pcs, plock) && p < |pcs|
    requires forall q :: HoldsProc(p, pcs[p], q) <==> q == k
    requires forall q :: !HoldsProc(p, c, q)
    ensures ProcOk(pcs[p := c], plock - {k})
  {
    hide HoldsProc;
    assert HoldsProc(p, pcs[p], k);
  }

  /** A step that is not about sleeping. */
  lemma SleepSame(pcs: seq<Pc>, sleeping: set<nat>, chan: map<nat, nat>, p: nat, c: Pc)
    requires SleepOk(pcs, sleeping, chan) && p < |pcs| && p !in sleeping && c.at != Sleep3
    requires c.at == Scan2 ==> c.i < |pcs| && c.i != p
    ensures SleepOk(pcs[p := c], sleeping, chan)
  {
  }

  /** The processes other than p keep what they wait for, if the ways out are kept. */
  lemma LostStep(pcs: seq<Pc>, lk: map<nat, nat>, locked: map<nat, nat>, sleeping: set<nat>, p: nat, c: Pc,
                 lk': map<nat, nat>, locked': map<nat, nat>, sleeping': set<nat>)
    requires NoLost(pcs, lk, locked, sleeping) && p < |pcs|
    requires sleeping' <= sleeping + {p}
    requires Committed(c, p in sleeping') ==> c.l in locked' || WillWake(pcs[p := c], lk', c.l, p)
    requires forall q {:trigger pcs[q]} | 0 <= q < |pcs| && q != p && Committed(pcs[q], q in sleeping') ::
      && (pcs[q].l in locked ==> pcs[q].l in locked' || WillWake(pcs[p := c], lk', pcs[q].l, q))
      && (WillWake(pcs, lk, pcs[q].l, q) ==> pcs[q].l in locked' || WillWake(pcs[p := c], lk', pcs[q].l, q))
    ensures NoLost(pcs[p := c], lk', locked', sleeping')
  {
    hide WillWake;
    var pcs' := pcs[p := c];
    forall q {:trigger pcs'[q]} | 0 <= q < |pcs'| && Committed(pcs'[q], q in sleeping')
      ensures pcs'[q].l in locked' || WillWake(pcs', lk', pcs'[q].l, q)
    {
      if q != p {
        assert pcs'[q] == pcs[q];
        assert Committed(pcs[q], q in sleeping);
      }
    }
  }

  lemma CheckedStep(pcs: seq<Pc>, locked: map<nat, nat>, p: nat, c: Pc, locked': map<nat, nat>)
    requires Checked(pcs, locked) && p < |pcs| && locked.Keys <= locked'.Keys
    requires c.at == Sleep0 || c.at == Sleep1 ==> c.l in locked'
    ensures Checked(pcs[p := c], locked')
  {
  }

  lemma ClearedStep(pcs: seq<Pc>, lk: map<nat, nat>, locked: map<nat, nat>, p: nat, c: Pc, locked': map<nat, nat>)
    requires LkOk(pcs, lk) && Cleared(pcs, locked) && p < |pcs|
    requires forall m | m in locked' :: m in locked || (HoldsLk(pcs[p]) && m == pcs[p].l)
    requires c.at == Scan || c.at == Scan2 ==> c.l !in locked'
    ensures Cleared(pcs[p := c], locked')
  {
    forall q | 0 <= q < |pcs| && q != p && (pcs[q].at == Scan || pcs[q].at == Scan2)
      ensures pcs[q].l !in locked'
    {
      if HoldsLk(pcs[p]) {
        HolderIs(pcs, lk, p);
      }
      HolderIs(pcs, lk, q);
    }
  }

  lemma ClearedAt(pcs: seq<Pc>, locked: map<nat, nat>, p: nat)
    requires Cleared(pcs, locked) && p < |pcs| && (pcs[p].at == Scan || pcs[p].at == Scan2)
    ensures pcs[p].l !in locked
  {
  }

  lemma HolderIs(pcs: seq<Pc>, lk: map<nat, nat>, p: nat)
    requires LkOk(pcs, lk) && p < |pcs| && HoldsLk(pcs[p])
    ensures pcs[p].l in lk && lk[pcs[p].l] == p
  {
  }

  lemma StepAcquire(s: State, p: nat, call: Call)
    requires Inv(s) && Enabled(s, p, call) && s.pcs[p].at == Idle && call.Acquire?
    ensures Inv(Move(s, p, call))
  {
    hide LkOk;
    hide ProcOk;
    hide OwnerOk;
    hide NoLost;
    hide Checked;
    hide Cleared;
    var c := Pc(Check, call.l, 0);
    LkStep(s.pcs, s.lk, p, c, s.lk[call.l := p]);
    ProcSame(s.pcs, s.plock, p, c);
    OwnerSame(s.pcs, s.locked, s.owned, p, c);
    CheckedStep(s.pcs, s.locked, p, c, s.locked);
    ClearedStep(s.pcs, s.lk, s.locked, p, c, s.locked);
    SleepSame(s.pcs, s.sleeping, s.chan, p, c);
    LostStep(s.pcs, s.lk, s.locked, s.sleeping, p, c, s.lk[call.l := p], s.locked, s.sleeping);
  }

  lemma StepRelease(s: State, p: nat, call: Call)
    requires Inv(s) && Enabled(s, p, call) && s.pcs[p].at == Idle && call.Release?
    ensures Inv(Move(s, p, call))
  {
    hide LkOk;
    hide ProcOk;
    hide OwnerOk;
    hide NoLost;
    hide Checked;
    hide Cleared;
    var c := Pc(Rel, call.l, 0);
    LkStep(s.pcs, s.lk, p, c, s.lk[call.l := p]);
    ProcSame(s.pcs, s.plock, p, c);
    OwnerBeginsRelease(s.pcs, s.locked, s.owned, p, call.l);
    CheckedStep(s.pcs, s.locked, p, c, s.locked);
    ClearedStep(s.pcs, s.lk, s.locked, p, c, s.locked);
    SleepSame(s.pcs, s.sleeping, s.chan, p, c);
    LostStep(s.pcs, s.lk, s.locked, s.sleeping, p, c, s.lk[call.l := p], s.locked, s.sleeping);
  }

  lemma StepCheck(s: State, p: nat, call: Call)
    requires Inv(s) && Enabled(s, p, call) && s.pcs[p].at == Check
    ensures Inv(Move(s, p, call))
  {
    hide LkOk;
    hide ProcOk;
    hide OwnerOk;
    hide NoLost;
    hide Checked;
    hide Cleared;
    var m := s.pcs[p].l;
    var c := if m in s.locked then Pc(Sleep0, m, 0) else Pc(Got, m, 0);
    LkStep(s.pcs, s.lk, p, c, s.lk);
    ProcSame(s.pcs, s.plock, p, c);
    if m in s.locked {
      OwnerSame(s.pcs, s.locked, s.owned, p, c);
    } else {
      OwnerTakes(s.pcs, s.locked, s.owned, p, c);
    }
    CheckedStep(s.pcs, s.locked, p, c, if m in s.locked then s.locked else s.locked[m := p]);
    ClearedStep(s.pcs, s.lk, s.locked, p, c, if m in s.locked then s.locked else s.locked[m := p]);
    SleepSame(s.pcs, s.sleeping, s.chan, p, c);
    LostStep(s.pcs, s.lk, s.locked, s.sleeping, p, c, s.lk, if m in s.locked then s.locked else s.locked[m := p],
             s.sleeping);
  }

  lemma StepGot(s: State, p: nat, call: Call)
    requires Inv(s) && Enabled(s, p, call) && s.pcs[p].at == Got
    ensures Inv(Move(s, p, call))
  {
    hide LkOk;
    hide ProcOk;
    hide OwnerOk;
    hide NoLost;
    hide Checked;
    hide Cleared;
    var m := s.pcs[p].l;
    var c := Pc(Idle, 0, 0);
    HolderIs(s.pcs, s.lk, p);
    LkStep(s.pcs, s.lk, p, c, s.lk - {m});
    ProcSame(s.pcs, s.plock, p, c);
    OwnerGets(s.pcs, s.locked, s.owned, p, c);
    CheckedStep(s.pcs, s.locked, p, c, s.locked);
    ClearedStep(s.pcs, s.lk, s.locked, p, c, s.locked);
    SleepSame(s.pcs, s.sleeping, s.chan, p, c);
    LostStep(s.pcs, s.lk, s.locked, s.sleeping, p, c, s.lk - {m}, s.locked, s.sleeping);
  }

  lemma StepAgain(s: State, p: nat, call: Call)
    requires Inv(s) && Enabled(s, p, call) && s.pcs[p].at == Again
    ensures Inv(Move(s, p, call))
  {
    hide LkOk;
    hide ProcOk;
    hide OwnerOk;
    hide NoLost;
    hide Checked;
    hide Cleared;
    var m := s.pcs[p].l;
    var c := Pc(Check, m, 0);
    LkStep(s.pcs, s.lk, p, c, s.lk[m := p]);
    ProcSame(s.pcs, s.plock, p, c);
    OwnerSame(s.pcs, s.locked, s.owned, p, c);
    CheckedStep(s.pcs, s.locked, p, c, s.locked);
    ClearedStep(s.pcs, s.lk, s.locked, p, c, s.locked);
    SleepSame(s.pcs, s.sleeping, s.chan, p, c);
    LostStep(s.pcs, s.lk, s.locked, s.sleeping, p, c, s.lk[m := p], s.locked, s.sleeping);
  }

  lemma StepSleep0(s: State, p: nat, call: Call)
    requires Inv(s) && Enabled(s, p, call) && s.pcs[p].at == Sleep0
    ensures Inv(Move(s, p, call))
  {
    hide LkOk;
    hide ProcOk;
    hide OwnerOk;
    hide NoLost;
    hide Checked;
    hide Cleared;
    var m := s.pcs[p].l;
    var c := Pc(Sleep1, m, 0);
    CheckedAt(s.pcs, s.locked, p);
    LkStep(s.pcs, s.lk, p, c, s.lk);
    ProcTake(s.pcs, s.plock, p, c, p);
    OwnerSame(s.pcs, s.locked, s.owned, p, c);
    CheckedStep(s.pcs, s.locked, p, c, s.locked);
    ClearedStep(s.pcs, s.lk, s.locked, p, c, s.locked);
    SleepSame(s.pcs, s.sleeping, s.chan, p, c);
    LostStep(s.pcs, s.lk, s.locked, s.sleeping, p, c, s.lk, s.locked, s.sleeping);
  }

  lemma StepSleep1(s: State, p: nat, call: Call)
    requires Inv(s) && Enabled(s, p, call) && s.pcs[p].at == Sleep1
    ensures Inv(Move(s, p, call))
  {
    hide LkOk;
    hide ProcOk;
    hide OwnerOk;
    hide NoLost;
    hide Checked;
    hide Cleared;
    var m := s.pcs[p].l;
    var c := Pc(Sleep2, m, 0);
    HolderIs(s.pcs, s.lk, p);
    CheckedAt(s.pcs, s.locked, p);
    LkStep(s.pcs, s.lk, p, c, s.lk - {m});
    ProcSame(s.pcs, s.plock, p, c);
    OwnerSame(s.pcs, s.locked, s.owned, p, c);
    CheckedStep(s.pcs, s.locked, p, c, s.locked);
    ClearedStep(s.pcs, s.lk, s.locked, p, c, s.locked);
    SleepSame(s.pcs, s.sleeping, s.chan, p, c);
    LostStep(s.pcs, s.lk, s.locked, s.sleeping, p, c, s.lk - {m}, s.locked, s.sleeping);
  }

  lemma StepAsleep(s: State, p: nat, call: Call)
    requires Inv(s) && Enabled(s, p, call) && s.pcs[p].at == Asleep
    ensures Inv(Move(s, p, call))
  {
    hide LkOk;
    hide ProcOk;
    hide OwnerOk;
    hide NoLost;
    hide Checked;
    hide Cleared;
    var m := s.pcs[p].l;
    var c := Pc(Awake, m, 0);
    LkStep(s.pcs, s.lk, p, c, s.lk);
    ProcTake(s.pcs, s.plock, p, c, p);
    OwnerSame(s.pcs, s.locked, s.owned, p, c);
    CheckedStep(s.pcs, s.locked, p, c, s.locked);
    ClearedStep(s.pcs, s.lk, s.locked, p, c, s.locked);
    SleepSame(s.pcs, s.sleeping, s.chan, p, c);
    LostStep(s.pcs, s.lk, s.locked, s.sleeping, p, c, s.lk, s.locked, s.sleeping);
  }

  lemma CheckedAt(pcs: seq<Pc>, locked: map<nat, nat>, p: nat)
    requires Checked(pcs, locked) && p < |pcs| && (pcs[p].at == Sleep0 || pcs[p].at == Sleep1)
    ensures pcs[p].l in locked
  {
  }

  lemma StepRel(s: State, p: nat, call: Call)
    requires Inv(s) && Enabled(s, p, call) && s.pcs[p].at == Rel
    ensures Inv(Move(s, p, call))
  {
    hide LkOk;
    hide ProcOk;
    hide OwnerOk;
    hide NoLost;
    hide Checked;
    hide Cleared;
    var m := s.pcs[p].l;
    var c := Pc(Scan, m, 0);
    HolderIs(s.pcs, s.lk, p);
    LkStep(s.pcs, s.lk, p, c, s.lk);
    ProcSame(s.pcs, s.plock, p, c);
    OwnerReleases(s.pcs, s.locked, s.owned, p, c);
    NobodyElse(s.pcs, s.lk, s.locked, p, c);
    ClearedStep(s.pcs, s.lk, s.locked, p, c, s.locked - {m});
    SleepSame(s.pcs, s.sleeping, s.chan, p, c);
    LostStep(s.pcs, s.lk, s.locked, s.sleeping, p, c, s.lk, s.locked - {m}, s.sleeping);
  }

  /** Whoever clears locked holds lk, so nobody is between the test and the release of lk. */
  lemma NobodyElse(pcs: seq<Pc>, lk: map<nat, nat>, locked: map<nat, nat>, p: nat, c: Pc)
    requires LkOk(pcs, lk) && Checked(pcs, locked) && p < |pcs| && pcs[p].at == Rel && c.at == Scan
    ensures Checked(pcs[p := c], locked - {pcs[p].l})
  {
    forall q | 0 <= q < |pcs| && q != p && (pcs[q].at == Sleep0 || pcs[q].at == Sleep1)
      ensures pcs[q].l != pcs[p].l
    {
      HolderIs(pcs, lk, q);
      HolderIs(pcs, lk, p);
    }
  }

  /** wakeup moves on past processes that do not, or no longer, wait for m. */
  lemma ScanLost(pcs: seq<Pc>, lk: map<nat, nat>, locked: map<nat, nat>, sleeping: set<nat>, p: nat, c: Pc,
                 sleeping': set<nat>)
    requires NoLost(pcs, lk, locked, sleeping) && LkOk(pcs, lk) && p < |pcs|
    requires (pcs[p].at == Scan || pcs[p].at == Scan2) && (c.at == Scan || c.at == Scan2)
    requires c.l == pcs[p].l && pcs[p].i <= c.i && sleeping' <= sleeping
    requires forall q {:trigger pcs[q]} | pcs[p].i <= q < c.i && q < |pcs| && q != p ::
      !(Committed(pcs[q], q in sleeping') && pcs[q].l == c.l)
    ensures NoLost(pcs[p := c], lk, locked, sleeping')
  {
    LostStep(pcs, lk, locked, sleeping, p, c, lk, locked, sleeping');
  }

  /** The end of wakeup: nobody is left to wake. */
  lemma ScanOver(s: State, p: nat, call: Call)
    requires Inv(s) && Enabled(s, p, call) && s.pcs[p].at == Scan && s.pcs[p].i >= |s.pcs|
    ensures Inv(Move(s, p, call))
  {
    hide LkOk;
    hide ProcOk;
    hide OwnerOk;
    hide NoLost;
    hide Checked;
    hide Cleared;
    var m, c := s.pcs[p].l, Pc(Idle, 0, 0);
    HolderIs(s.pcs, s.lk, p);
    LkStep(s.pcs, s.lk, p, c, s.lk - {m});
    ProcSame(s.pcs, s.plock, p, c);
    OwnerSame(s.pcs, s.locked, s.owned, p, c);
    CheckedStep(s.pcs, s.locked, p, c, s.locked);
    ClearedStep(s.pcs, s.lk, s.locked, p, c, s.locked);
    SleepSame(s.pcs, s.sleeping, s.chan, p, c);
    LostStep(s.pcs, s.lk, s.locked, s.sleeping, p, c, s.lk - {m}, s.locked, s.sleeping);
  }

  lemma StepScan(s: State, p: nat, call: Call)
    requires Inv(s) && Enabled(s, p, call) && s.pcs[p].at == Scan
    ensures Inv(Move(s, p, call))
  {
    hide LkOk;
    hide ProcOk;
    hide OwnerOk;
    hide NoLost;
    hide Checked;
    hide Cleared;
    var m, i := s.pcs[p].l, s.pcs[p].i;
    if i >= |s.pcs| {
      hide Inv;
      ScanOver(s, p, call);
    } else {
      HolderIs(s.pcs, s.lk, p);
      ClearedAt(s.pcs, s.locked, p);
      var c := if i == p then Pc(Scan, m, i + 1) else Pc(Scan2, m, i);
      LkStep(s.pcs, s.lk, p, c, s.lk);
      if i == p {
        ProcSame(s.pcs, s.plock, p, c);
      } else {
        ProcTake(s.pcs, s.plock, p, c, i);
      }
      OwnerSame(s.pcs, s.locked, s.owned, p, c);
      CheckedStep(s.pcs, s.locked, p, c, s.locked);
      ClearedStep(s.pcs, s.lk, s.locked, p, c, s.locked);
      SleepSame(s.pcs, s.sleeping, s.chan, p, c);
      ScanLost(s.pcs, s.lk, s.locked, s.sleeping, p, c, s.sleeping);
    }
  }

  /** While p holds the process lock of process i, process i is not on its way to sleep. */
  lemma NotOnTheWay(pcs: seq<Pc>, plock: map<nat, nat>, p: nat)
    requires ProcOk(pcs, plock) && p < |pcs| && pcs[p].at == Scan2 && pcs[p].i < |pcs| && pcs[p].i != p
    ensures pcs[pcs[p].i].at != Sleep2 && pcs[pcs[p].i].at != Sleep3
  {
    var i := pcs[p].i;
    assert HoldsProc(p, pcs[p], i);
    assert HoldsProc(i, pcs[i], i) || !HoldsProc(i, pcs[i], i);
  }

  /** wakeup's test of process i, seen from those who sleep. */
  lemma Scan2Sleep(pcs: seq<Pc>, lk: map<nat, nat>, plock: map<nat, nat>, locked: map<nat, nat>, sleeping: set<nat>,
                   chan: map<nat, nat>, p: nat, c: Pc, sleeping': set<nat>)
    requires LkOk(pcs, lk) && ProcOk(pcs, plock) && SleepOk(pcs, sleeping, chan) && NoLost(pcs, lk, locked, sleeping)
    requires p < |pcs| && pcs[p].at == Scan2 && c == Pc(Scan, pcs[p].l, pcs[p].i + 1)
    requires var i := pcs[p].i;
      sleeping' == if i in sleeping && i in chan && chan[i] == c.l then sleeping - {i} else sleeping
    ensures SleepOk(pcs[p := c], sleeping', chan) && NoLost(pcs[p := c], lk, locked, sleeping')
  {
    hide LkOk;
    hide NoLost;
    hide ProcOk;
    NotSleeping(pcs, sleeping, chan, p);
    hide SleepOk;
    NotOnTheWay(pcs, plock, p);
    SleepSame(pcs, sleeping, chan, p, c);
    SleepWoken(pcs[p := c], sleeping, chan, pcs[p].i, sleeping');
    ScanLost(pcs, lk, locked, sleeping, p, c, sleeping');
  }

  lemma StepScan2(s: State, p: nat, call: Call)
    requires Inv(s) && Enabled(s, p, call) && s.pcs[p].at == Scan2
    ensures Inv(Move(s, p, call))
  {
    hide LkOk;
    hide ProcOk;
    hide OwnerOk;
    hide NoLost;
    hide SleepOk;
    hide Checked;
    hide Cleared;
    var m, i := s.pcs[p].l, s.pcs[p].i;
    var c := Pc(Scan, m, i + 1);
    ClearedAt(s.pcs, s.locked, p);
    Scan2Sleep(s.pcs, s.lk, s.plock, s.locked, s.sleeping, s.chan, p, c, Move(s, p, call).sleeping);
    LkStep(s.pcs, s.lk, p, c, s.lk);
    ProcDrop(s.pcs, s.plock, p, c, i);
    OwnerSame(s.pcs, s.locked, s.owned, p, c);
    CheckedStep(s.pcs, s.locked, p, c, s.locked);
    ClearedStep(s.pcs, s.lk, s.locked, p, c, s.locked);
  }

  lemma SleepWoken(pcs: seq<Pc>, sleeping: set<nat>, chan: map<nat, nat>, i: nat, sleeping': set<nat>)
    requires SleepOk(pcs, sleeping, chan) && (sleeping' == sleeping || sleeping' == sleeping - {i})
    requires i < |pcs| ==> pcs[i].at != Sleep3
    ensures SleepOk(pcs, sleeping', chan)
  {
  }

  lemma StepSleep2(s: State, p: nat, call: Call)
    requires Inv(s) && Enabled(s, p, call) && s.pcs[p].at == Sleep2
    ensures Inv(Move(s, p, call))
  {
    hide LkOk;
    hide ProcOk;
    hide OwnerOk;
    hide NoLost;
    hide Checked;
    hide Cleared;
    var m := s.pcs[p].l;
    var c := Pc(Sleep3, m, 0);
    CommittedAt(s, p);
    LkStep(s.pcs, s.lk, p, c, s.lk);
    ProcSame(s.pcs, s.plock, p, c);
    OwnerSame(s.pcs, s.locked, s.owned, p, c);
    CheckedStep(s.pcs, s.locked, p, c, s.locked);
    ClearedStep(s.pcs, s.lk, s.locked, p, c, s.locked);
    LostStep(s.pcs, s.lk, s.locked, s.sleeping, p, c, s.lk, s.locked, s.sleeping + {p});
  }

  lemma StepSleep3(s: State, p: nat, call: Call)
    requires Inv(s) && Enabled(s, p, call) && s.pcs[p].at == Sleep3
    ensures Inv(Move(s, p, call))
  {
    hide LkOk;
    hide ProcOk;
    hide OwnerOk;
    hide NoLost;
    hide Checked;
    hide Cleared;
    var m := s.pcs[p].l;
    var c := Pc(Asleep, m, 0);
    CommittedAt(s, p);
    LkStep(s.pcs, s.lk, p, c, s.lk);
    ProcDrop(s.pcs, s.plock, p, c, p);
    OwnerSame(s.pcs, s.locked, s.owned, p, c);
    CheckedStep(s.pcs, s.locked, p, c, s.locked);
    ClearedStep(s.pcs, s.lk, s.locked, p, c, s.locked);
    LostStep(s.pcs, s.lk, s.locked, s.sleeping, p, c, s.lk, s.locked, s.sleeping);
  }

  lemma StepAwake(s: State, p: nat, call: Call)
    requires Inv(s) && Enabled(s, p, call) && s.pcs[p].at == Awake
    ensures Inv(Move(s, p, call))
  {
    hide LkOk;
    hide ProcOk;
    hide OwnerOk;
    hide NoLost;
    NotSleeping(s.pcs, s.sleeping, s.chan, p);
    hide SleepOk;
    hide Checked;
    hide Cleared;
    var m := s.pcs[p].l;
    var c := Pc(Again, m, 0);
    LkStep(s.pcs, s.lk, p, c, s.lk);
    ProcDrop(s.pcs, s.plock, p, c, p);
    OwnerSame(s.pcs, s.locked, s.owned, p, c);
    CheckedStep(s.pcs, s.locked, p, c, s.locked);
    ClearedStep(s.pcs, s.lk, s.locked, p, c, s.locked);
    SleepSame(s.pcs, s.sleeping, s.chan, p, c);
    SleepChan(s.pcs[p := c], s.sleeping, s.chan, p);
    LostStep(s.pcs, s.lk, s.locked, s.sleeping, p, c, s.lk, s.locked, s.sleeping);
  }

  lemma NotSleeping(pcs: seq<Pc>, sleeping: set<nat>, chan: map<nat, nat>, p: nat)
    requires SleepOk(pcs, sleeping, chan) && p < |pcs|
    ensures pcs[p].at != Sleep3 && pcs[p].at != Asleep ==> p !in sleeping
    ensures pcs[p].at == Scan2 ==> pcs[p].i < |pcs| && pcs[p].i != p
    ensures forall q | q in sleeping :: q < |pcs| && q in chan && chan[q] == pcs[q].l
  {
  }

  lemma SleepChan(pcs: seq<Pc>, sleeping: set<nat>, chan: map<nat, nat>, p: nat)
    requires SleepOk(pcs, sleeping, chan) && p !in sleeping
    ensures SleepOk(pcs, sleeping, chan - {p})
  {
  }

  lemma CommittedAt(s: State, p: nat)
    requires NoLost(s.pcs, s.lk, s.locked, s.sleeping) && p < |s.pcs| && Committed(s.pcs[p], p in s.sleeping)
    ensures s.pcs[p].l in s.locked || WillWake(s.pcs, s.lk, s.pcs[p].l, p)
  {
  }

  lemma StepKill(s: State, p: nat)
    requires Inv(s)
    ensures Inv(Kill(s, p))
  {
    hide LkOk;
    hide OwnerOk;
    hide WillWake;
    hide Checked;
    hide Cleared;
    if p < |s.pcs| && s.pcs[p].at == Sleep3 {
      assert HoldsProc(p, s.pcs[p], p);
    }
    hide ProcOk;
  }

  /** Every step of every process keeps the invariant. */
  lemma MoveInv(s: State, p: nat, call: Call)
    requires Inv(s) && Enabled(s, p, call)
    ensures Inv(Move(s, p, call))
  {
    hide Inv;
    match s.pcs[p].at
    case Idle => if call.Acquire? { StepAcquire(s, p, call); } else { StepRelease(s, p, call); }
    case Check => StepCheck(s, p, call);
    case Got => StepGot(s, p, call);
    case Rel => StepRel(s, p, call);
    case Scan => StepScan(s, p, call);
    case Scan2 => StepScan2(s, p, call);
    case Sleep0 => StepSleep0(s, p, call);
    case Sleep1 => StepSleep1(s, p, call);
    case Sleep2 => StepSleep2(s, p, call);
    case Sleep3 => StepSleep3(s, p, call);
    case Asleep => StepAsleep(s, p, call);
    case Awake => StepAwake(s, p, call);
    case Again => StepAgain(s, p, call);
  }

  /** What may happen next: a step of a process, or a process being killed. */
  datatype Choice = Step(p: nat, call: Call) | KillOf(p: nat)

  /** A choice that is not possible changes nothing. */
  function Apply(s: State, x: Choice): (t: State)
  {
    match x
    case Step(p, call) => if Enabled(s, p, call) then Move(s, p, call) else s
    case KillOf(p) => Kill(s, p)
  }

  function Run(s: State, xs: seq<Choice>): (t: State)
    decreases |xs|
  {
    if xs == [] then s else Run(Apply(s, xs[0]), xs[1..])
  }

  function Start(n: nat): (s: State)
  {
    State(seq(n, _ => Pc(Idle, 0, 0)), map[], map[], map[], {}, map[], seq(n, _ => {}))
  }

  lemma {:induction false} RunInv(s: State, xs: seq<Choice>)
    requires Inv(s)
    ensures Inv(Run(s, xs))
    decreases |xs|
  {
    hide Inv;
    if xs != [] {
      match xs[0] {
        case Step(p, call) => if Enabled(s, p, call) { MoveInv(s, p, call); }
        case KillOf(p) => StepKill(s, p);
      }
      RunInv(Apply(s, xs[0]), xs[1..]);
    }
  }

  lemma Reachable(n: nat, xs: seq<Choice>)
    ensures Inv(Run(Start(n), xs))
  {
    assert Inv(Start(n));
    RunInv(Start(n), xs);
  }

  /** In every run at most one process owns a sleep-lock. */
  lemma MutualExclusion(n: nat, xs: seq<Choice>, p: nat, q: nat, l: nat)
    requires var s := Run(Start(n), xs); p < |s.owned| && q < |s.owned| && l in s.owned[p] && l in s.owned[q]
    ensures p == q
  {
    Reachable(n, xs);
  }

  /** In every run, when lk is free, a process asleep on a sleep-lock, whatever others it owns, waits for another
      process
      that owns it. */
  lemma NoLostWakeup(n: nat, xs: seq<Choice>, p: nat)
    requires var s := Run(Start(n), xs); p < |s.pcs| && s.pcs[p].at == Asleep && p in s.sleeping && s.pcs[p].l !in s.lk
    ensures var s := Run(Start(n), xs);
      var l := s.pcs[p].l;
      l in s.locked && s.locked[l] != p && s.locked[l] < |s.owned| && l in s.owned[s.locked[l]]
  {
    Reachable(n, xs);
    var s := Run(Start(n), xs);
    hide Run;
    CommittedAt(s, p);
    OwnerOf(s, s.pcs[p].l);
    assert Wanting(s.pcs[p]);
  }

  lemma OwnerOf(s: State, l: nat)
    requires Inv(s) && l in s.locked && l !in s.lk
    ensures s.locked[l] < |s.owned| && l in s.owned[s.locked[l]]
  {
    hide ProcOk;
    hide SleepOk;
    hide NoLost;
  }

  /**
   * In every run, when wakeup has come to the end of its loop, nobody sleeps
   * on its channel and nobody is on the way to.
   */
  lemma WakeupReachesAll(n: nat, xs: seq<Choice>, w: nat, p: nat)
    requires var s := Run(Start(n), xs);
      w < |s.pcs| && s.pcs[w].at == Scan && s.pcs[w].i >= |s.pcs| && p < |s.pcs| && s.pcs[p].l == s.pcs[w].l
    ensures var s := Run(Start(n), xs); !Committed(s.pcs[p], p in s.sleeping)
  {
    Reachable(n, xs);
    var s := Run(Start(n), xs);
    HolderIs(s.pcs, s.lk, w);
    ClearedAt(s.pcs, s.locked, w);
    if Committed(s.pcs[p], p in s.sleeping) {
      CommittedAt(s, p);
    }
  }
}
