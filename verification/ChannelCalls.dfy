/**
 * Whole calls of sleep and wakeup (kernel/proc.c), told from the choices of a
 * run: sleep comes back, with lk held again, only after the process was woken
 * on its channel or from elsewhere, and wakeup leaves nobody asleep on its
 * channel.
 */
module ChannelCalls {
  import opened Channels

  /** The state before choice k. */
  function Before(n: nat, xs: seq<Choice>, k: nat): (s: State)
    requires k <= |xs|
  {
    Run(Start(n), xs[..k])
  }

  lemma {:induction false} RunMore(s: State, xs: seq<Choice>, x: Choice)
    ensures Run(s, xs + [x]) == Apply(Run(s, xs), x)
    decreases |xs|
  {
    hide Apply;
    if xs == [] {
      assert [x][1..] == [];
      assert xs + [x] == [x];
    } else {
      assert (xs + [x])[1..] == xs[1..] + [x];
      RunMore(Apply(s, xs[0]), xs[1..], x);
    }
  }

  lemma OneChoice(n: nat, xs: seq<Choice>, k: nat)
    requires k < |xs|
    ensures Before(n, xs, k + 1) == Apply(Before(n, xs, k), xs[k])
  {
    hide Run;
    assert xs[..k + 1] == xs[..k] + [xs[k]];
    RunMore(Start(n), xs[..k], xs[k]);
  }

  /** Process p runs its own code under lock l. */
  predicate Works(s: State, p: nat, l: nat)
  {
    p < |s.pcs| && s.pcs[p].at == In && s.pcs[p].l == l
  }

  predicate Sleeps(c: Pc)
  {
    match c.at
    case Sleep0 => true
    case Sleep1 => true
    case Sleep2 => true
    case Sleep3 => true
    case Asleep => true
    case Awake => true
    case Again => true
    case _ => false
  }

  /** Process p is inside sleep(ch, l). */
  predicate InSleep(s: State, p: nat, l: nat, ch: nat)
  {
    p < |s.pcs| && Sleeps(s.pcs[p]) && s.pcs[p].l == l && s.pcs[p].ch == ch
  }

  /** It has been woken. */
  predicate Woken(s: State, p: nat)
    requires p < |s.pcs|
  {
    s.pcs[p].at == Awake || s.pcs[p].at == Again || (s.pcs[p].at == Asleep && p !in s.sleeping)
  }

  /** This choice wakes process p: a wakeup of channel ch that has come to it, or someone else. */
  predicate Wakes(s: State, x: Choice, p: nat, ch: nat)
  {
    match x
    case StirOf(q) => q == p
    case Step(w, _) => w < |s.pcs| && s.pcs[w].at == Scan2 && s.pcs[w].i == p && s.pcs[w].ch == ch
  }

  /** A step of process q moves nobody else, and takes from the sleeping at most the one that wakeup has come to. */
  lemma SleepMove(s: State, q: nat, call: Call, p: nat)
    requires Enabled(s, q, call) && Sleeps(s.pcs[q]) && p != q
    ensures var t := Move(s, q, call);
      |t.pcs| == |s.pcs| && (p < |s.pcs| ==> t.pcs[p] == s.pcs[p]) && (p in t.sleeping <==> p in s.sleeping)
  {
    hide Move;
    if s.pcs[q].at == Asleep || s.pcs[q].at == Awake || s.pcs[q].at == Again {
      RiseMove(s, q, call, p);
    } else {
      FallMove(s, q, call, p);
    }
  }

  lemma FallMove(s: State, q: nat, call: Call, p: nat)
    requires Enabled(s, q, call) && p != q
    requires s.pcs[q].at == Sleep0 || s.pcs[q].at == Sleep1 || s.pcs[q].at == Sleep2 || s.pcs[q].at == Sleep3
    ensures var t := Move(s, q, call);
      |t.pcs| == |s.pcs| && (p < |s.pcs| ==> t.pcs[p] == s.pcs[p]) && (p in t.sleeping <==> p in s.sleeping)
  {
    match s.pcs[q].at {
      case Sleep0 =>
      case Sleep1 =>
      case Sleep2 =>
      case Sleep3 =>
    }
  }

  lemma RiseMove(s: State, q: nat, call: Call, p: nat)
    requires Enabled(s, q, call) && p != q
    requires s.pcs[q].at == Asleep || s.pcs[q].at == Awake || s.pcs[q].at == Again
    ensures var t := Move(s, q, call);
      |t.pcs| == |s.pcs| && (p < |s.pcs| ==> t.pcs[p] == s.pcs[p]) && t.sleeping == s.sleeping
  {
    match s.pcs[q].at {
      case Asleep =>
      case Awake =>
      case Again =>
    }
  }

  lemma WakeMove(s: State, q: nat, call: Call, p: nat)
    requires Enabled(s, q, call) && !Sleeps(s.pcs[q]) && p != q
    ensures var t := Move(s, q, call);
      && |t.pcs| == |s.pcs| && (p < |s.pcs| ==> t.pcs[p] == s.pcs[p])
      && (p in t.sleeping ==> p in s.sleeping)
      && (p in s.sleeping && p !in t.sleeping ==>
            s.pcs[q].at == Scan2 && s.pcs[q].i == p && p in s.chan && s.chan[p] == s.pcs[q].ch)
  {
    hide Move;
    if s.pcs[q].at == Scan2 {
      Scan2Move(s, q, call, p);
    } else {
      PlainMove(s, q, call, p);
    }
  }

  lemma PlainMove(s: State, q: nat, call: Call, p: nat)
    requires Enabled(s, q, call) && p != q && (s.pcs[q].at == Out || s.pcs[q].at == In || s.pcs[q].at == Scan)
    ensures var t := Move(s, q, call);
      |t.pcs| == |s.pcs| && (p < |s.pcs| ==> t.pcs[p] == s.pcs[p]) && t.sleeping == s.sleeping
  {
    match s.pcs[q].at {
      case Out =>
      case In =>
      case Scan =>
    }
  }

  lemma Scan2Move(s: State, q: nat, call: Call, p: nat)
    requires Enabled(s, q, call) && s.pcs[q].at == Scan2 && p != q
    ensures var t := Move(s, q, call);
      && |t.pcs| == |s.pcs| && (p < |s.pcs| ==> t.pcs[p] == s.pcs[p])
      && (p in t.sleeping ==> p in s.sleeping)
      && (p in s.sleeping && p !in t.sleeping ==>
            s.pcs[q].i == p && p in s.chan && s.chan[p] == s.pcs[q].ch)
  {
  }

  /** What others do to a process that sleeps on channel ch. */
  lemma OthersStep(s: State, x: Choice, p: nat, ch: nat)
    requires p < |s.pcs| && !(x.Step? && x.p == p && Enabled(s, p, x.call))
    requires p in s.sleeping ==> p in s.chan && s.chan[p] == ch
    ensures var t := Apply(s, x);
      && p < |t.pcs| == |s.pcs| && t.pcs[p] == s.pcs[p] && (p in t.sleeping ==> p in s.sleeping)
      && (p in s.sleeping && p !in t.sleeping ==> Wakes(s, x, p, ch))
  {
    hide Move;
    if x.Step? && Enabled(s, x.p, x.call) {
      if Sleeps(s.pcs[x.p]) {
        SleepMove(s, x.p, x.call, p);
      } else {
        WakeMove(s, x.p, x.call, p);
      }
    }
  }

  /** The steps of sleep() itself. */
  lemma OwnStep(s: State, p: nat, call: Call, l: nat, ch: nat)
    requires InSleep(s, p, l, ch) && Enabled(s, p, call) && (s.pcs[p].at == Sleep3 ==> p in s.sleeping)
    ensures var t := Move(s, p, call);
      && |t.pcs| == |s.pcs| && (InSleep(t, p, l, ch) || (Works(t, p, l) && Woken(s, p)))
      && (InSleep(t, p, l, ch) && Woken(t, p) ==> Woken(s, p))
  {
    match s.pcs[p].at {
      case Sleep0 =>
      case Sleep1 =>
      case Sleep2 =>
      case Sleep3 =>
      case Asleep =>
      case Awake =>
      case Again =>
    }
  }

  /** Process p was woken between choices k and j. */
  ghost predicate WokenSince(n: nat, xs: seq<Choice>, k: nat, j: nat, p: nat, ch: nat)
    requires j <= |xs|
  {
    exists i :: k < i < j && Wakes(Before(n, xs, i), xs[i], p, ch)
  }

  lemma SleepingOn(s: State, p: nat, l: nat, ch: nat)
    requires Inv(s) && InSleep(s, p, l, ch)
    ensures p in s.sleeping ==> p in s.chan && s.chan[p] == ch
    ensures s.pcs[p].at == Sleep3 ==> p in s.sleeping
  {
    hide LkOk;
    hide ProcOk;
    hide Passed;
    hide NoneMissed;
  }

  lemma Reachable(n: nat, xs: seq<Choice>, k: nat)
    requires k <= |xs|
    ensures Inv(Before(n, xs, k))
  {
    assert Inv(Start(n));
    RunInv(Start(n), xs[..k]);
  }

  lemma BeginSleep(s: State, p: nat, l: nat, ch: nat)
    requires Works(s, p, l)
    ensures var t := Apply(s, Step(p, Sleep(ch))); InSleep(t, p, l, ch) && !Woken(t, p)
  {
  }

  /** Until it comes back the process is inside sleep(), and not woken unless somebody did it. */
  lemma {:induction false} Inside(n: nat, xs: seq<Choice>, k: nat, j: nat, p: nat, l: nat, ch: nat)
    requires k < j <= |xs| && Works(Before(n, xs, k), p, l) && xs[k] == Step(p, Sleep(ch))
    requires forall i | k < i < j :: !Works(Before(n, xs, i), p, l)
    ensures var t := Before(n, xs, j);
      if Works(t, p, l) then WokenSince(n, xs, k, j, p, ch)
      else InSleep(t, p, l, ch) && (Woken(t, p) ==> WokenSince(n, xs, k, j, p, ch))
    decreases j
  {
    hide Before;
    hide Inv;
    hide Move;
    OneChoice(n, xs, j - 1);
    var s, x := Before(n, xs, j - 1), xs[j - 1];
    if j == k + 1 {
      BeginSleep(s, p, l, ch);
    } else {
      Inside(n, xs, k, j - 1, p, l, ch);
      Reachable(n, xs, j - 1);
      SleepingOn(s, p, l, ch);
      if x.Step? && x.p == p && Enabled(s, p, x.call) {
        OwnStep(s, p, x.call, l, ch);
        Longer(n, xs, k, j, p, ch);
      } else {
        OthersStep(s, x, p, ch);
        Longer(n, xs, k, j, p, ch);
      }
    }
  }

  lemma Longer(n: nat, xs: seq<Choice>, k: nat, j: nat, p: nat, ch: nat)
    requires k < j <= |xs|
    ensures WokenSince(n, xs, k, j - 1, p, ch) ==> WokenSince(n, xs, k, j, p, ch)
    ensures k < j - 1 && Wakes(Before(n, xs, j - 1), xs[j - 1], p, ch) ==> WokenSince(n, xs, k, j, p, ch)
  {
    hide Before;
    hide Wakes;
    if WokenSince(n, xs, k, j - 1, p, ch) {
      var i :| k < i < j - 1 && Wakes(Before(n, xs, i), xs[i], p, ch);
    }
  }

  /** A process that comes back from sleep() was woken, and holds its lock as it did before. */
  lemma SleepReturns(n: nat, xs: seq<Choice>, k: nat, m: nat, p: nat, l: nat, ch: nat)
    requires k < m <= |xs| && Works(Before(n, xs, k), p, l) && xs[k] == Step(p, Sleep(ch))
    requires Works(Before(n, xs, m), p, l) && forall i | k < i < m :: !Works(Before(n, xs, i), p, l)
    ensures WokenSince(n, xs, k, m, p, ch)
    ensures var t := Before(n, xs, m); l in t.lk && t.lk[l] == p
  {
    Inside(n, xs, k, m, p, l, ch);
    Reachable(n, xs, m);
    HolderOf(Before(n, xs, m), p);
  }

  lemma HolderOf(s: State, p: nat)
    requires Inv(s) && p < |s.pcs| && HoldsLk(s.pcs[p])
    ensures s.pcs[p].l in s.lk && s.lk[s.pcs[p].l] == p
  {
    hide ProcOk;
    hide SleepOk;
    hide Passed;
    hide NoneMissed;
  }

  // ---- wakeup ----

  /** Process w is inside wakeup(ch), under lock l. */
  predicate InWakeup(s: State, w: nat, l: nat, ch: nat)
  {
    w < |s.pcs| && Scanning(s.pcs[w]) && s.pcs[w].l == l && s.pcs[w].ch == ch
  }

  /** Nobody is asleep on channel ch with lock l, or on the way to. */
  ghost predicate NobodyOn(s: State, l: nat, ch: nat)
  {
    forall p {:trigger s.pcs[p]} | 0 <= p < |s.pcs| && Committed(s.pcs[p], p in s.sleeping) ::
      s.pcs[p].ch != ch || s.pcs[p].l != l
  }

  /** The steps of wakeup itself: it ends only when it has been through the table. */
  lemma ScanStep(s: State, w: nat, call: Call, l: nat, ch: nat)
    requires Inv(s) && InWakeup(s, w, l, ch) && Enabled(s, w, call)
    ensures var t := Move(s, w, call); if Works(t, w, l) then NobodyOn(t, l, ch) else InWakeup(t, w, l, ch)
  {
    hide Inv;
    if s.pcs[w].at == Scan && s.pcs[w].i >= |s.pcs| {
      EndOfScan(s, w, l, ch);
      LastStep(s, w, call);
      hide Move;
    }
  }

  lemma LastStep(s: State, w: nat, call: Call)
    requires Enabled(s, w, call) && s.pcs[w].at == Scan && s.pcs[w].i >= |s.pcs|
    ensures var t := Move(s, w, call);
      t.pcs == s.pcs[w := Pc(In, s.pcs[w].l, 0, 0)] && t.sleeping == s.sleeping
  {
  }

  lemma EndOfScan(s: State, w: nat, l: nat, ch: nat)
    requires Inv(s) && InWakeup(s, w, l, ch) && s.pcs[w].i >= |s.pcs|
    ensures NobodyOn(s, l, ch)
  {
    hide LkOk;
    hide ProcOk;
    hide SleepOk;
    hide NoneMissed;
    assert Scanning(s.pcs[w]);
  }

  lemma BeginWakeup(s: State, w: nat, l: nat, ch: nat)
    requires Works(s, w, l)
    ensures InWakeup(Apply(s, Step(w, Wakeup(ch))), w, l, ch)
  {
  }

  lemma {:induction false} InsideWakeup(n: nat, xs: seq<Choice>, k: nat, j: nat, w: nat, l: nat, ch: nat)
    requires k < j <= |xs| && Works(Before(n, xs, k), w, l) && xs[k] == Step(w, Wakeup(ch))
    requires forall i | k < i < j :: !Works(Before(n, xs, i), w, l)
    ensures var t := Before(n, xs, j); if Works(t, w, l) then NobodyOn(t, l, ch) else InWakeup(t, w, l, ch)
    decreases j
  {
    hide Before;
    hide Inv;
    hide Move;
    hide NobodyOn;
    OneChoice(n, xs, j - 1);
    var s, x := Before(n, xs, j - 1), xs[j - 1];
    if j == k + 1 {
      BeginWakeup(s, w, l, ch);
    } else {
      InsideWakeup(n, xs, k, j - 1, w, l, ch);
      Reachable(n, xs, j - 1);
      if x.Step? && x.p == w && Enabled(s, w, x.call) {
        ScanStep(s, w, x.call, l, ch);
      } else {
        NotSleeping(s, w);
        OthersStep(s, x, w, ch);
      }
    }
  }

  lemma NotSleeping(s: State, w: nat)
    requires Inv(s) && w < |s.pcs| && Scanning(s.pcs[w])
    ensures w !in s.sleeping
  {
    hide LkOk;
    hide ProcOk;
    hide Passed;
    hide NoneMissed;
  }

  /** When wakeup comes back, nobody sleeps on its channel with its lock any more. */
  lemma WakeupReturns(n: nat, xs: seq<Choice>, k: nat, m: nat, w: nat, l: nat, ch: nat)
    requires k < m <= |xs| && Works(Before(n, xs, k), w, l) && xs[k] == Step(w, Wakeup(ch))
    requires Works(Before(n, xs, m), w, l) && forall i | k < i < m :: !Works(Before(n, xs, i), w, l)
    ensures NobodyOn(Before(n, xs, m), l, ch)
  {
    InsideWakeup(n, xs, k, m, w, l, ch);
  }
}
