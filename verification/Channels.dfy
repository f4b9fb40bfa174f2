/**
 * sleep and wakeup of kernel/proc.c for any use of them: a process that holds
 * some lock lk sleeps on some channel, for a reason of its own, and whoever
 * holds lk may call wakeup on the channel.  Between two lock operations of a
 * process every other process may move.
 */
module Channels {
  /** Where a process is; the comments name the locks it holds: lk, or the process lock of some process. */
  datatype At =
    | Out     // no lock
    | In      // lk: the caller's own code
    | Scan    // lk: wakeup's loop
    | Scan2   // lk and the process lock of process i
    | Sleep0  // lk: sleep was called
    | Sleep1  // lk and its own process lock
    | Sleep2  // its own process lock: lk was released
    | Sleep3  // its own process lock: state is SLEEPING
    | Asleep  // in the scheduler's hands
    | Awake   // its own process lock: running again
    | Again   // about to take lk again

  /** The lock and the channel a process works with, and wakeup's loop counter. */
  datatype Pc = Pc(at: At, l: nat, ch: nat, i: nat)

  /** A channel together with the lock that guards it. */
  datatype Key = Key(ch: nat, l: nat)

  /**
   * wakes counts, for each channel and lock, the calls of wakeup that a holder
   * of the lock has completed, and seen what the count was when a process,
   * about to sleep, released the lock.
   */
  datatype State = State(pcs: seq<Pc>, lk: map<nat, nat>, plock: map<nat, nat>, sleeping: set<nat>, chan: map<nat, nat>,
                         wakes: map<Key, nat>, seen: map<nat, nat>)

  /** What the code of a process decides to do: take lock l, or, holding one, release it, sleep or wake a channel. */
  datatype Call = Take(l: nat) | Drop | Sleep(ch: nat) | Wakeup(ch: nat)

  function Count(wakes: map<Key, nat>, k: Key): (n: nat)
  {
    if k in wakes then wakes[k] else 0
  }

  predicate Enabled(s: State, p: nat, call: Call)
  {
    p < |s.pcs| &&
    match s.pcs[p].at
    case Out => call.Take? && call.l !in s.lk
    case In => !call.Take?
    case Again => s.pcs[p].l !in s.lk
    case Scan => s.pcs[p].i >= |s.pcs| || s.pcs[p].i == p || s.pcs[p].i !in s.plock
    case Sleep0 => p !in s.plock
    case Asleep => p !in s.sleeping && p !in s.plock
    case _ => true
  }

  function Goto(s: State, p: nat, c: Pc): (t: State)
    requires p < |s.pcs|
  {
    s.(pcs := s.pcs[p := c])
  }

  /** The next step of process p. */
  function Move(s: State, p: nat, call: Call): (t: State)
    requires Enabled(s, p, call)
  {
    var c := s.pcs[p];
    match c.at
    case Out => Goto(s, p, Pc(In, call.l, 0, 0)).(lk := s.lk[call.l := p])
    case In =>
      (match call
       case Sleep(ch) => Goto(s, p, Pc(Sleep0, c.l, ch, 0))
       case Wakeup(ch) => Goto(s, p, Pc(Scan, c.l, ch, 0))
       case _ => Goto(s, p, Pc(Out, 0, 0, 0)).(lk := s.lk - {c.l}))
    case Scan =>
      if c.i >= |s.pcs| then
        Goto(s, p, Pc(In, c.l, 0, 0)).(wakes := s.wakes[Key(c.ch, c.l) := Count(s.wakes, Key(c.ch, c.l)) + 1])
      else if c.i == p then Goto(s, p, Pc(Scan, c.l, c.ch, c.i + 1))
      else Goto(s, p, Pc(Scan2, c.l, c.ch, c.i)).(plock := s.plock[c.i := p])
    case Scan2 =>
      var wakes := c.i in s.sleeping && c.i in s.chan && s.chan[c.i] == c.ch;
      Goto(s, p, Pc(Scan, c.l, c.ch, c.i + 1)).(plock := s.plock - {c.i},
                                               sleeping := if wakes then s.sleeping - {c.i} else s.sleeping)
    case Sleep0 => Goto(s, p, Pc(Sleep1, c.l, c.ch, 0)).(plock := s.plock[p := p])
    case Sleep1 =>
      Goto(s, p, Pc(Sleep2, c.l, c.ch, 0)).(lk := s.lk - {c.l}, seen := s.seen[p := Count(s.wakes, Key(c.ch, c.l))])
    case Sleep2 => Goto(s, p, Pc(Sleep3, c.l, c.ch, 0)).(sleeping := s.sleeping + {p}, chan := s.chan[p := c.ch])
    case Sleep3 => Goto(s, p, Pc(Asleep, c.l, c.ch, 0)).(plock := s.plock - {p})
    case Asleep => Goto(s, p, Pc(Awake, c.l, c.ch, 0)).(plock := s.plock[p := p])
    case Awake => Goto(s, p, Pc(Again, c.l, c.ch, 0)).(plock := s.plock - {p}, chan := s.chan - {p})
    case Again => Goto(s, p, Pc(In, c.l, 0, 0)).(lk := s.lk[c.l := p])
  }

  /** Someone who does not hold lk wakes process p: kill, or a wakeup from elsewhere. */
  function Stir(s: State, p: nat): (t: State)
  {
    if p in s.plock then s else s.(sleeping := s.sleeping - {p})
  }

  predicate HoldsLk(c: Pc)
  {
    match c.at
    case In => true
    case Scan => true
    case Scan2 => true
    case Sleep0 => true
    case Sleep1 => true
    case _ => false
  }

  predicate HoldsProc(p: nat, c: Pc, q: nat)
  {
    match c.at
    case Scan2 => q == c.i
    case Sleep1 => q == p
    case Sleep2 => q == p
    case Sleep3 => q == p
    case Awake => q == p
    case _ => false
  }

  ghost predicate LkOk(pcs: seq<Pc>, lk: map<nat, nat>)
  {
    && (forall l | l in lk :: lk[l] < |pcs| && HoldsLk(pcs[lk[l]]) && pcs[lk[l]].l == l)
    && (forall p | 0 <= p < |pcs| && HoldsLk(pcs[p]) :: pcs[p].l in lk && lk[pcs[p].l] == p)
  }

  ghost predicate ProcOk(pcs: seq<Pc>, plock: map<nat, nat>)
  {
    && (forall q | q in plock :: plock[q] < |pcs| && HoldsProc(plock[q], pcs[plock[q]], q))
    && (forall p,
        q {:trigger HoldsProc(p, pcs[p], q)} | 0 <= p < |pcs| && HoldsProc(p, pcs[p], q) :: q in plock && plock[q] == p)
  }

  ghost predicate SleepOk(pcs: seq<Pc>, sleeping: set<nat>, chan: map<nat, nat>)
  {
    && (forall p | p in sleeping ::
          p < |pcs| && (pcs[p].at == Sleep3 || pcs[p].at == Asleep) && p in chan && chan[p] == pcs[p].ch)
    && (forall p | 0 <= p < |pcs| && pcs[p].at == Sleep3 :: p in sleeping)
    && (forall p | 0 <= p < |pcs| && pcs[p].at == Scan2 :: pcs[p].i < |pcs| && pcs[p].i != p)
  }

  /** Process p has released lk in order to sleep, and has not been woken since. */
  predicate Committed(c: Pc, asleep: bool)
  {
    c.at == Sleep2 || c.at == Sleep3 || (c.at == Asleep && asleep)
  }

  predicate Scanning(c: Pc)
  {
    c.at == Scan || c.at == Scan2
  }

  /** The part of the table that a wakeup has been through holds nobody who sleeps on its channel with its lock. */
  ghost predicate Passed(pcs: seq<Pc>, sleeping: set<nat>)
  {
    forall w, p {:trigger Scanning(pcs[w]), Committed(pcs[p], p in sleeping)} |
      0 <= w < |pcs| && 0 <= p < |pcs| && Scanning(pcs[w]) && Committed(pcs[p], p in sleeping) && p < pcs[w].i ::
      pcs[p].ch != pcs[w].ch || pcs[p].l != pcs[w].l
  }

  /** Nobody has slept through a wakeup. */
  ghost predicate NoneMissed(pcs: seq<Pc>, sleeping: set<nat>, wakes: map<Key, nat>, seen: map<nat, nat>)
  {
    forall p {:trigger pcs[p]} | 0 <= p < |pcs| && Committed(pcs[p], p in sleeping) ::
      p in seen && seen[p] == Count(wakes, Key(pcs[p].ch, pcs[p].l))
  }

  ghost predicate Inv(s: State)
  {
    && LkOk(s.pcs, s.lk)
    && ProcOk(s.pcs, s.plock)
    && SleepOk(s.pcs, s.sleeping, s.chan)
    && Passed(s.pcs, s.sleeping)
    && NoneMissed(s.pcs, s.sleeping, s.wakes, s.seen)
  }

  lemma LkStep(pcs: seq<Pc>, lk: map<nat, nat>, p: nat, c: Pc, lk': map<nat, nat>)
    requires LkOk(pcs, lk) && p < |pcs|
    requires if HoldsLk(pcs[p]) && HoldsLk(c) then c.l == pcs[p].l && lk' == lk
             else if HoldsLk(c) then c.l !in lk && lk' == lk[c.l := p]
             else if HoldsLk(pcs[p]) then lk' == lk - {pcs[p].l}
             else lk' == lk
    ensures LkOk(pcs[p := c], lk')
  {
    hide HoldsLk;
  }

  /** Process p holds no process lock before and after, or the same one. */
  lemma ProcSame(pcs: seq<Pc>, plock: map<nat, nat>, p: nat, c: Pc)
    requires ProcOk(pcs, plock) && p < |pcs|
    requires forall q :: HoldsProc(p, c, q) <==> HoldsProc(p, pcs[p], q)
    ensures ProcOk(pcs[p := c], plock)
  {
    hide HoldsProc;
  }

  lemma ProcTake(pcs: seq<Pc>, plock: map<nat, nat>, p: nat, c: Pc, k: nat)
    requires ProcOk(pcs, plock) && p < |pcs| && k !in plock
    requires forall q :: !HoldsProc(p, pcs[p], q)
    requires forall q :: HoldsProc(p, c, q) <==> q == k
    ensures ProcOk(pcs[p := c], plock[k := p])
  {
    hide HoldsProc;
  }

  lemma ProcDrop(pcs: seq<Pc>, plock: map<nat, nat>, p: nat, c: Pc, k: nat)
    requires ProcOk(pcs, plock) && p < |pcs|
    requires forall q :: HoldsProc(p, pcs[p], q) <==> q == k
    requires forall q :: !HoldsProc(p, c, q)
    ensures ProcOk(pcs[p := c], plock - {k})
  {
    hide HoldsProc;
    assert HoldsProc(p, pcs[p], k);
  }

  lemma SleepSame(pcs: seq<Pc>, sleeping: set<nat>, chan: map<nat, nat>, p: nat, c: Pc)
    requires SleepOk(pcs, sleeping, chan) && p < |pcs| && p !in sleeping && c.at != Sleep3
    requires c.at == Scan2 ==> c.i < |pcs| && c.i != p
    ensures SleepOk(pcs[p := c], sleeping, chan)
  {
  }

  lemma NotSleeping(pcs: seq<Pc>, sleeping: set<nat>, chan: map<nat, nat>, p: nat)
    requires SleepOk(pcs, sleeping, chan) && p < |pcs|
    ensures pcs[p].at != Sleep3 && pcs[p].at != Asleep ==> p !in sleeping
    ensures pcs[p].at == Scan2 ==> pcs[p].i < |pcs| && pcs[p].i != p
    ensures forall q | q in sleeping :: q in chan && chan[q] == pcs[q].ch
  {
  }

  /** Process p is, or becomes, one that does not sleep and does not go through the table further. */
  lemma PassedSame(pcs: seq<Pc>, sleeping: set<nat>, p: nat, c: Pc)
    requires Passed(pcs, sleeping) && p < |pcs|
    requires Committed(c, p in sleeping) ==> Committed(pcs[p], p in sleeping) && c.ch == pcs[p].ch && c.l == pcs[p].l
    requires Scanning(c) ==> c.i == 0 || (Scanning(pcs[p]) && c.ch == pcs[p].ch && c.l == pcs[p].l && c.i <= pcs[p].i)
    ensures Passed(pcs[p := c], sleeping)
  {
    var pcs' := pcs[p := c];
    forall w, q {:trigger Scanning(pcs'[w]), Committed(pcs'[q], q in sleeping)} |
      0 <= w < |pcs'| && 0 <= q < |pcs'| && Scanning(pcs'[w]) && Committed(pcs'[q], q in sleeping) && q < pcs'[w].i
      ensures pcs'[q].ch != pcs'[w].ch || pcs'[q].l != pcs'[w].l
    {
      assert Scanning(pcs[w]) && Committed(pcs[q], q in sleeping);
    }
  }

  lemma MissedSame(pcs: seq<Pc>, sleeping: set<nat>, wakes: map<Key, nat>, seen: map<nat, nat>, p: nat, c: Pc)
    requires NoneMissed(pcs, sleeping, wakes, seen) && p < |pcs|
    requires Committed(c, p in sleeping) ==> Committed(pcs[p], p in sleeping) && c.ch == pcs[p].ch && c.l == pcs[p].l
    ensures NoneMissed(pcs[p := c], sleeping, wakes, seen)
  {
    var pcs' := pcs[p := c];
    forall q {:trigger pcs'[q]} | 0 <= q < |pcs'| && Committed(pcs'[q], q in sleeping)
      ensures q in seen && seen[q] == Count(wakes, Key(pcs'[q].ch, pcs'[q].l))
    {
      assert Committed(pcs[q], q in sleeping);
    }
  }

  /** A step that is neither about sleeping nor about waking. */
  lemma PlainStep(s: State, p: nat, c: Pc)
    requires Inv(s) && p < |s.pcs| && p !in s.sleeping && c.at != Sleep3 && c.at != Scan2
    requires !Committed(c, false)
    requires Scanning(c) ==> c.i == 0
    ensures SleepOk(s.pcs[p := c], s.sleeping, s.chan) && Passed(s.pcs[p := c], s.sleeping)
    ensures NoneMissed(s.pcs[p := c], s.sleeping, s.wakes, s.seen)
  {
    hide LkOk;
    hide ProcOk;
    hide SleepOk;
    hide Passed;
    hide NoneMissed;
    SleepSame(s.pcs, s.sleeping, s.chan, p, c);
    PassedSame(s.pcs, s.sleeping, p, c);
    MissedSame(s.pcs, s.sleeping, s.wakes, s.seen, p, c);
  }

  lemma StepFree(s: State, p: nat, call: Call)
    requires Inv(s) && Enabled(s, p, call) && (s.pcs[p].at == Out || s.pcs[p].at == In || s.pcs[p].at == Again)
    ensures Inv(Move(s, p, call))
  {
    NotSleeping(s.pcs, s.sleeping, s.chan, p);
    var c := Move(s, p, call).pcs[p];
    PlainStep(s, p, c);
    LkStep(s.pcs, s.lk, p, c, Move(s, p, call).lk);
    ProcSame(s.pcs, s.plock, p, c);
    hide LkOk;
    hide ProcOk;
    hide SleepOk;
    hide Passed;
    hide NoneMissed;
  }

  lemma StepSleep0(s: State, p: nat, call: Call)
    requires Inv(s) && Enabled(s, p, call) && (s.pcs[p].at == Sleep0 || s.pcs[p].at == Asleep)
    ensures Inv(Move(s, p, call))
  {
    NotSleeping(s.pcs, s.sleeping, s.chan, p);
    var c := Move(s, p, call).pcs[p];
    PlainStep(s, p, c);
    LkStep(s.pcs, s.lk, p, c, s.lk);
    ProcTake(s.pcs, s.plock, p, c, p);
    hide LkOk;
    hide ProcOk;
    hide SleepOk;
    hide Passed;
    hide NoneMissed;
  }

  /** Releasing lk in order to sleep: whoever is in wakeup holds another lock. */
  lemma Commit(s: State, p: nat, c: Pc)
    requires Inv(s) && p < |s.pcs| && s.pcs[p].at == Sleep1 && c == Pc(Sleep2, s.pcs[p].l, s.pcs[p].ch, 0)
    ensures Passed(s.pcs[p := c], s.sleeping)
    ensures NoneMissed(s.pcs[p := c], s.sleeping, s.wakes, s.seen[p := Count(s.wakes, Key(c.ch, c.l))])
  {
    hide ProcOk;
    hide SleepOk;
    var pcs' := s.pcs[p := c];
    forall w, q {:trigger Scanning(pcs'[w]), Committed(pcs'[q], q in s.sleeping)} |
      0 <= w < |pcs'| && 0 <= q < |pcs'| && Scanning(pcs'[w]) && Committed(pcs'[q], q in s.sleeping) && q < pcs'[w].i
      ensures pcs'[q].ch != pcs'[w].ch || pcs'[q].l != pcs'[w].l
    {
      assert Scanning(s.pcs[w]) && HoldsLk(s.pcs[w]) && HoldsLk(s.pcs[p]);
      if q != p {
        assert Committed(s.pcs[q], q in s.sleeping);
      }
    }
  }

  lemma StepSleep1(s: State, p: nat, call: Call)
    requires Inv(s) && Enabled(s, p, call) && s.pcs[p].at == Sleep1
    ensures Inv(Move(s, p, call))
  {
    NotSleeping(s.pcs, s.sleeping, s.chan, p);
    var c := Move(s, p, call).pcs[p];
    Commit(s, p, c);
    SleepSame(s.pcs, s.sleeping, s.chan, p, c);
    LkStep(s.pcs, s.lk, p, c, s.lk - {c.l});
    ProcSame(s.pcs, s.plock, p, c);
    hide LkOk;
    hide ProcOk;
    hide SleepOk;
    hide Passed;
    hide NoneMissed;
  }

  /** Setting SLEEPING and letting go of the process lock: the process has been committed all along. */
  lemma StepSleep2(s: State, p: nat, call: Call)
    requires Inv(s) && Enabled(s, p, call) && (s.pcs[p].at == Sleep2 || s.pcs[p].at == Sleep3)
    ensures Inv(Move(s, p, call))
  {
    hide LkOk;
    hide ProcOk;
    hide Passed;
    hide NoneMissed;
    var t := Move(s, p, call);
    var c := t.pcs[p];
    LkStep(s.pcs, s.lk, p, c, s.lk);
    if s.pcs[p].at == Sleep2 {
      ProcSame(s.pcs, s.plock, p, c);
    } else {
      ProcDrop(s.pcs, s.plock, p, c, p);
    }
    Falls(s.pcs, s.sleeping, s.wakes, s.seen, p);
    PassedSame(s.pcs, s.sleeping + {p}, p, c);
    MissedSame(s.pcs, s.sleeping + {p}, s.wakes, s.seen, p, c);
    assert t.sleeping == s.sleeping + {p};
  }

  lemma Falls(pcs: seq<Pc>, sleeping: set<nat>, wakes: map<Key, nat>, seen: map<nat, nat>, p: nat)
    requires Passed(pcs, sleeping) && NoneMissed(pcs, sleeping, wakes, seen) && p < |pcs|
    requires pcs[p].at == Sleep2 || pcs[p].at == Sleep3
    ensures Passed(pcs, sleeping + {p}) && NoneMissed(pcs, sleeping + {p}, wakes, seen)
  {
    var more := sleeping + {p};
    assert forall q | 0 <= q < |pcs| && Committed(pcs[q], q in more) :: Committed(pcs[q], q in sleeping);
  }

  lemma StepAwake(s: State, p: nat, call: Call)
    requires Inv(s) && Enabled(s, p, call) && s.pcs[p].at == Awake
    ensures Inv(Move(s, p, call))
  {
    NotSleeping(s.pcs, s.sleeping, s.chan, p);
    var c := Move(s, p, call).pcs[p];
    PlainStep(s, p, c);
    LkStep(s.pcs, s.lk, p, c, s.lk);
    ProcDrop(s.pcs, s.plock, p, c, p);
    hide LkOk;
    hide ProcOk;
    hide Passed;
    hide NoneMissed;
  }

  /** wakeup goes on past process i, which is itself or does not, or no longer, sleep on the channel with the lock. */
  lemma PassedMore(pcs: seq<Pc>, sleeping: set<nat>, p: nat, c: Pc, sleeping': set<nat>)
    requires Passed(pcs, sleeping) && p < |pcs| && Scanning(pcs[p]) && c == Pc(Scan, pcs[p].l, pcs[p].ch, pcs[p].i + 1)
    requires sleeping' <= sleeping
    requires pcs[p].i < |pcs| && pcs[p].i != p ==>
      !Committed(pcs[pcs[p].i], pcs[p].i in sleeping') || pcs[pcs[p].i].ch != c.ch || pcs[pcs[p].i].l != c.l
    ensures Passed(pcs[p := c], sleeping')
  {
    var pcs' := pcs[p := c];
    forall w, q {:trigger Scanning(pcs'[w]), Committed(pcs'[q], q in sleeping')} |
      0 <= w < |pcs'| && 0 <= q < |pcs'| && Scanning(pcs'[w]) && Committed(pcs'[q], q in sleeping') && q < pcs'[w].i
      ensures pcs'[q].ch != pcs'[w].ch || pcs'[q].l != pcs'[w].l
    {
      assert Scanning(pcs[w]) && Committed(pcs[q], q in sleeping);
    }
  }

  /** The end of wakeup: nobody sleeps on the channel with the lock, so the count may go up. */
  lemma ScanOver(s: State, p: nat, call: Call)
    requires Inv(s) && Enabled(s, p, call) && s.pcs[p].at == Scan && s.pcs[p].i >= |s.pcs|
    ensures Inv(Move(s, p, call))
  {
    NotSleeping(s.pcs, s.sleeping, s.chan, p);
    var c := Move(s, p, call).pcs[p];
    PlainStep(s, p, c);
    LkStep(s.pcs, s.lk, p, c, s.lk);
    ProcSame(s.pcs, s.plock, p, c);
    hide LkOk;
    hide ProcOk;
    hide SleepOk;
    var k, pcs' := Key(s.pcs[p].ch, s.pcs[p].l), s.pcs[p := c];
    assert Scanning(s.pcs[p]);
    forall q {:trigger pcs'[q]} | 0 <= q < |pcs'| && Committed(pcs'[q], q in s.sleeping)
      ensures q in s.seen && s.seen[q] == Count(s.wakes[k := Count(s.wakes, k) + 1], Key(pcs'[q].ch, pcs'[q].l))
    {
      assert Committed(s.pcs[q], q in s.sleeping);
    }
    hide Passed;
  }

  lemma StepScan(s: State, p: nat, call: Call)
    requires Inv(s) && Enabled(s, p, call) && s.pcs[p].at == Scan && s.pcs[p].i < |s.pcs|
    ensures Inv(Move(s, p, call))
  {
    hide LkOk;
    hide ProcOk;
    hide Passed;
    hide NoneMissed;
    NotSleeping(s.pcs, s.sleeping, s.chan, p);
    hide SleepOk;
    var i := s.pcs[p].i;
    var c := Move(s, p, call).pcs[p];
    LkStep(s.pcs, s.lk, p, c, s.lk);
    SleepSame(s.pcs, s.sleeping, s.chan, p, c);
    MissedSame(s.pcs, s.sleeping, s.wakes, s.seen, p, c);
    if i == p {
      ProcSame(s.pcs, s.plock, p, c);
      PassedMore(s.pcs, s.sleeping, p, c, s.sleeping);
    } else {
      ProcTake(s.pcs, s.plock, p, c, i);
      PassedSame(s.pcs, s.sleeping, p, c);
    }
  }

  /** While p holds the process lock of process i, process i is not on its way to sleep. */
  lemma NotOnTheWay(pcs: seq<Pc>, plock: map<nat, nat>, p: nat)
    requires ProcOk(pcs, plock) && p < |pcs| && pcs[p].at == Scan2 && pcs[p].i < |pcs| && pcs[p].i != p
    ensures pcs[pcs[p].i].at != Sleep2 && pcs[pcs[p].i].at != Sleep3
  {
    var i := pcs[p].i;
    assert HoldsProc(p, pcs[p], i);
    assert HoldsProc(i, pcs[i], i) || !HoldsProc(i, pcs[i], i);
  }

  lemma StepScan2(s: State, p: nat, call: Call)
    requires Inv(s) && Enabled(s, p, call) && s.pcs[p].at == Scan2
    ensures Inv(Move(s, p, call))
  {
    hide LkOk;
    hide ProcOk;
    hide Passed;
    hide NoneMissed;
    NotSleeping(s.pcs, s.sleeping, s.chan, p);
    hide SleepOk;
    var i, t := s.pcs[p].i, Move(s, p, call);
    var c := t.pcs[p];
    NotOnTheWay(s.pcs, s.plock, p);
    LkStep(s.pcs, s.lk, p, c, s.lk);
    ProcDrop(s.pcs, s.plock, p, c, i);
    SleepSame(s.pcs, s.sleeping, s.chan, p, c);
    Woken(s.pcs[p := c], s.sleeping, s.chan, i, t.sleeping);
    PassedMore(s.pcs, s.sleeping, p, c, t.sleeping);
    MissedSame(s.pcs, s.sleeping, s.wakes, s.seen, p, c);
    FewerMissed(s.pcs[p := c], s.sleeping, s.wakes, s.seen, t.sleeping);
  }

  lemma Woken(pcs: seq<Pc>, sleeping: set<nat>, chan: map<nat, nat>, i: nat, sleeping': set<nat>)
    requires SleepOk(pcs, sleeping, chan) && (sleeping' == sleeping || sleeping' == sleeping - {i})
    requires i < |pcs| ==> pcs[i].at != Sleep3
    ensures SleepOk(pcs, sleeping', chan)
  {
  }

  lemma FewerMissed(pcs: seq<Pc>, sleeping: set<nat>, wakes: map<Key, nat>, seen: map<nat, nat>, sleeping': set<nat>)
    requires NoneMissed(pcs, sleeping, wakes, seen) && sleeping' <= sleeping
    ensures NoneMissed(pcs, sleeping', wakes, seen)
  {
    assert forall q | 0 <= q < |pcs| && Committed(pcs[q], q in sleeping') :: Committed(pcs[q], q in sleeping);
  }

  lemma StepStir(s: State, p: nat)
    requires Inv(s)
    ensures Inv(Stir(s, p))
  {
    hide LkOk;
    if p !in s.plock {
      var sleeping := s.sleeping - {p};
      if p < |s.pcs| {
        assert HoldsProc(p, s.pcs[p], p) ==> p in s.plock;
      }
      hide ProcOk;
      Woken(s.pcs, s.sleeping, s.chan, p, sleeping);
      FewerMissed(s.pcs, s.sleeping, s.wakes, s.seen, sleeping);
      hide NoneMissed;
      assert forall q | 0 <= q < |s.pcs| && Committed(s.pcs[q], q in sleeping) :: Committed(s.pcs[q], q in s.sleeping);
    }
  }

  /** Every step of every process keeps the invariant. */
  lemma MoveInv(s: State, p: nat, call: Call)
    requires Inv(s) && Enabled(s, p, call)
    ensures Inv(Move(s, p, call))
  {
    hide Inv;
    match s.pcs[p].at
    case Out => StepFree(s, p, call);
    case In => StepFree(s, p, call);
    case Again => StepFree(s, p, call);
    case Scan => if s.pcs[p].i >= |s.pcs| { ScanOver(s, p, call); } else { StepScan(s, p, call); }
    case Scan2 => StepScan2(s, p, call);
    case Sleep0 => StepSleep0(s, p, call);
    case Asleep => StepSleep0(s, p, call);
    case Sleep1 => StepSleep1(s, p, call);
    case Sleep2 => StepSleep2(s, p, call);
    case Sleep3 => StepSleep2(s, p, call);
    case Awake => StepAwake(s, p, call);
  }

  /** What may happen next: a step of a process, or a process being woken from elsewhere. */
  datatype Choice = Step(p: nat, call: Call) | StirOf(p: nat)

  /** A choice that is not possible changes nothing. */
  function Apply(s: State, x: Choice): (t: State)
  {
    match x
    case Step(p, call) => if Enabled(s, p, call) then Move(s, p, call) else s
    case StirOf(p) => Stir(s, p)
  }

  function Run(s: State, xs: seq<Choice>): (t: State)
    decreases |xs|
  {
    if xs == [] then s else Run(Apply(s, xs[0]), xs[1..])
  }

  function Start(n: nat): (s: State)
  {
    State(seq(n, _ => Pc(Out, 0, 0, 0)), map[], map[], {}, map[], map[], map[])
  }

  lemma {:induction false} RunInv(s: State, xs: seq<Choice>)
    requires Inv(s)
    ensures Inv(Run(s, xs))
    decreases |xs|
  {
    hide Inv;
    if xs != [] {
      match xs[0] {
        case Step(p, call) => if Enabled(s, p, call) { MoveInv(s, p, call); }
        case StirOf(p) => StepStir(s, p);
      }
      RunInv(Apply(s, xs[0]), xs[1..]);
    }
  }

  /**
   * No wakeup is lost: in every run, a process that still sleeps, or is on its
   * way to, has slept through no wakeup on its channel by a holder of lk since
   * it released lk.
   */
  lemma NoLostWakeup(n: nat, xs: seq<Choice>, p: nat)
    requires var s := Run(Start(n), xs); p < |s.pcs| && Committed(s.pcs[p], p in s.sleeping)
    ensures var s := Run(Start(n), xs);
      p in s.seen && Count(s.wakes, Key(s.pcs[p].ch, s.pcs[p].l)) == s.seen[p]
  {
    assert Inv(Start(n));
    RunInv(Start(n), xs);
  }

  /** In every run, when wakeup has come to the end of its loop, nobody sleeps on its channel with its lock. */
  lemma WakeupReachesAll(n: nat, xs: seq<Choice>, w: nat, p: nat)
    requires var s := Run(Start(n), xs);
      && w < |s.pcs| && s.pcs[w].at == Scan && s.pcs[w].i >= |s.pcs| && p < |s.pcs|
      && s.pcs[p].ch == s.pcs[w].ch && s.pcs[p].l == s.pcs[w].l
    ensures var s := Run(Start(n), xs); !Committed(s.pcs[p], p in s.sleeping)
  {
    assert Inv(Start(n));
    RunInv(Start(n), xs);
    assert Scanning(Run(Start(n), xs).pcs[w]);
  }
}
