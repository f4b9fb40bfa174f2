/**
 * Whole calls of acquiresleep and releasesleep (kernel/sleeplock.c), told
 * from the choices of a run: a process that comes back from acquiresleep has
 * the sleep-lock, and one that comes back from releasesleep does not.
 */
module SleepCalls {
  import opened SleepWakeup

  /** The state before choice k. */
  function Before(n: nat, xs: seq<Choice>, k: nat): (s: State)
    requires k <= |xs|
  {
    Run(Start(n), xs[..k])
  }

  lemma {:induction false} RunMore(s: State, xs: seq<Choice>, x: Choice)
    ensures Run(s, xs + [x]) == Apply(Run(s, xs), x)
    decreases |xs|
  {
    hide Apply;
    if xs == [] {
      assert [x][1..] == [];
      assert xs + [x] == [x];
    } else {
      assert (xs + [x])[1..] == xs[1..] + [x];
      RunMore(Apply(s, xs[0]), xs[1..], x);
    }
  }

  lemma OneChoice(n: nat, xs: seq<Choice>, k: nat)
    requires k < |xs|
    ensures Before(n, xs, k + 1) == Apply(Before(n, xs, k), xs[k])
  {
    hide Run;
    assert xs[..k + 1] == xs[..k] + [xs[k]];
    RunMore(Start(n), xs[..k], xs[k]);
  }

  /** Process p is inside acquiresleep(l). */
  predicate Acquiring(s: State, p: nat, l: nat)
  {
    p < |s.pcs| && (Wanting(s.pcs[p]) || s.pcs[p].at == Got) && s.pcs[p].l == l
  }

  /** Process p is inside releasesleep(l). */
  predicate Releasing(s: State, p: nat, l: nat)
  {
    && p < |s.pcs| && s.pcs[p].l == l
    && (s.pcs[p].at == Rel || s.pcs[p].at == Scan || s.pcs[p].at == Scan2)
  }

  predicate Idles(s: State, p: nat)
  {
    p < |s.pcs| && s.pcs[p].at == Idle
  }

  /** What process p owns. */
  function Owned(s: State, p: nat): (ls: set<nat>)
  {
    if p < |s.owned| then s.owned[p] else {}
  }

  /** Process p is inside sleep(). */
  predicate Sleeps(c: Pc)
  {
    c.at == Sleep0 || c.at == Sleep1 || c.at == Sleep2 || c.at == Sleep3 || c.at == Asleep || c.at == Awake
  }

  /** A step of process q inside sleep(): it stays on its way to the sleep-lock, and nobody else moves. */
  lemma SleepMove(s: State, q: nat, call: Call)
    requires Enabled(s, q, call) && Sleeps(s.pcs[q])
    ensures var t := Move(s, q, call);
      && |t.pcs| == |s.pcs| && t.owned == s.owned && Wanting(t.pcs[q]) && t.pcs[q].l == s.pcs[q].l
      && forall p | 0 <= p < |s.pcs| && p != q :: t.pcs[p] == s.pcs[p]
  {
    match s.pcs[q].at {
      case Sleep0 =>
      case Sleep1 =>
      case Sleep2 =>
      case Sleep3 =>
      case Asleep =>
      case Awake =>
    }
  }

  /** Any other step of process q changes the place of q, and what q owns, alone. */
  lemma WakeMove(s: State, q: nat, call: Call)
    requires Enabled(s, q, call) && !Sleeps(s.pcs[q]) && s.pcs[q].at != Idle && s.pcs[q].at != Got
    ensures var t := Move(s, q, call);
      && |t.pcs| == |s.pcs| && t.owned == s.owned && forall p | 0 <= p < |s.pcs| && p != q :: t.pcs[p] == s.pcs[p]
  {
    match s.pcs[q].at {
      case Check =>
      case Rel =>
      case Scan =>
      case Scan2 =>
      case Again =>
    }
  }

  lemma LockMove(s: State, q: nat, call: Call)
    requires Enabled(s, q, call) && (s.pcs[q].at == Idle || s.pcs[q].at == Got)
    ensures var t := Move(s, q, call);
      && |t.pcs| == |s.pcs| && |t.owned| == |s.owned|
      && forall p | 0 <= p < |s.pcs| && p != q :: t.pcs[p] == s.pcs[p] && Owned(t, p) == Owned(s, p)
  {
  }

  /** Nothing that others do moves process p. */
  lemma OthersStep(s: State, x: Choice, p: nat)
    ensures var t := Apply(s, x); |t.owned| == |s.owned| && |t.pcs| == |s.pcs|
    ensures var t := Apply(s, x);
      p < |s.pcs| && !(x.Step? && x.p == p && Enabled(s, p, x.call)) ==>
        t.pcs[p] == s.pcs[p] && Owned(t, p) == Owned(s, p)
  {
    hide Move;
    if x.Step? && Enabled(s, x.p, x.call) {
      if Sleeps(s.pcs[x.p]) {
        SleepMove(s, x.p, x.call);
      } else if s.pcs[x.p].at == Idle || s.pcs[x.p].at == Got {
        LockMove(s, x.p, x.call);
      } else {
        WakeMove(s, x.p, x.call);
      }
    }
  }

  lemma AcquireMove(s: State, p: nat, call: Call, l: nat)
    requires Acquiring(s, p, l) && Enabled(s, p, call)
    ensures var t := Move(s, p, call);
      if Idles(t, p) then Owned(t, p) == Owned(s, p) + {l} else Acquiring(t, p, l) && Owned(t, p) == Owned(s, p)
  {
    if Sleeps(s.pcs[p]) {
      hide Move;
      SleepMove(s, p, call);
    }
  }

  lemma AcquireStep(s: State, x: Choice, p: nat, l: nat)
    requires Acquiring(s, p, l)
    ensures var t := Apply(s, x);
      if Idles(t, p) then Owned(t, p) == Owned(s, p) + {l} else Acquiring(t, p, l) && Owned(t, p) == Owned(s, p)
  {
    hide Move;
    OthersStep(s, x, p);
    if x.Step? && x.p == p && Enabled(s, p, x.call) {
      AcquireMove(s, p, x.call, l);
    }
  }

  lemma ReleaseStep(s: State, x: Choice, p: nat, l: nat)
    requires Releasing(s, p, l)
    ensures var t := Apply(s, x);
      Owned(t, p) == Owned(s, p) && (Releasing(t, p, l) || Idles(t, p))
  {
    if !(x.Step? && x.p == p && Enabled(s, p, x.call)) {
      hide Apply;
      OthersStep(s, x, p);
    }
  }

  lemma {:induction false} SizeKept(n: nat, xs: seq<Choice>, k: nat)
    requires k <= |xs|
    ensures var s := Before(n, xs, k); |s.owned| == |s.pcs| == n
  {
    if k == 0 {
      assert xs[..0] == [];
    } else {
      SizeKept(n, xs, k - 1);
      OneChoice(n, xs, k - 1);
      hide Run;
      OthersStep(Before(n, xs, k - 1), xs[k - 1], 0);
    }
  }

  /** Process p, idle before choice k, begins a call there. */
  predicate Begins(n: nat, xs: seq<Choice>, k: nat, p: nat, call: Call)
    requires k < |xs|
  {
    xs[k] == Step(p, call) && Idles(Before(n, xs, k), p) && Enabled(Before(n, xs, k), p, call)
  }

  /** It comes back before choice m, and not earlier. */
  ghost predicate ComesBack(n: nat, xs: seq<Choice>, k: nat, m: nat, p: nat)
  {
    k < m <= |xs| && Idles(Before(n, xs, m), p) && forall j | k < j < m :: !Idles(Before(n, xs, j), p)
  }

  lemma BeginStep(s: State, p: nat, call: Call)
    requires Idles(s, p) && Enabled(s, p, call)
    ensures var t := Apply(s, Step(p, call));
      if call.Acquire? then Acquiring(t, p, call.l) && Owned(t, p) == Owned(s, p)
      else Releasing(t, p, call.l) && Owned(t, p) == Owned(s, p) - {call.l}
  {
  }

  /** Until it comes back the process is inside the call. */
  lemma {:induction false} Inside(n: nat, xs: seq<Choice>, k: nat, j: nat, p: nat, call: Call)
    requires k < j <= |xs| && Begins(n, xs, k, p, call)
    requires forall i | k < i < j :: !Idles(Before(n, xs, i), p)
    ensures var s, t := Before(n, xs, k), Before(n, xs, j);
      if call.Acquire?
      then
        if Idles(t, p) then Owned(t, p) == Owned(s, p) + {call.l}
        else Acquiring(t, p, call.l) && Owned(t, p) == Owned(s, p)
      else Owned(t, p) == Owned(s, p) - {call.l} && (Releasing(t, p, call.l) || Idles(t, p))
    decreases j
  {
    hide Before;
    hide Apply;
    OneChoice(n, xs, j - 1);
    SizeKept(n, xs, j - 1);
    var s := Before(n, xs, j - 1);
    if j == k + 1 {
      BeginStep(s, p, call);
    } else {
      Inside(n, xs, k, j - 1, p, call);
      if call.Acquire? {
        AcquireStep(s, xs[j - 1], p, call.l);
      } else {
        ReleaseStep(s, xs[j - 1], p, call.l);
      }
    }
  }

  /** A process that comes back from acquiresleep owns the sleep-lock, as nobody else does. */
  lemma AcquireReturns(n: nat, xs: seq<Choice>, k: nat, m: nat, p: nat, l: nat)
    requires k < |xs| && Begins(n, xs, k, p, Acquire(l)) && ComesBack(n, xs, k, m, p)
    ensures var s, t := Before(n, xs, k), Before(n, xs, m);
      && Owned(t, p) == Owned(s, p) + {l}
      && (forall q: nat | q != p :: l !in Owned(t, q)) && l in t.locked && t.locked[l] == p
  {
    hide Run;
    Inside(n, xs, k, m, p, Acquire(l));
    var t := Before(n, xs, m);
    Reachable(n, xs[..m]);
    OwnerIs(t, p, l);
  }

  lemma OwnerIs(t: State, p: nat, l: nat)
    requires Inv(t) && l in Owned(t, p)
    ensures l in t.locked && t.locked[l] == p && forall q: nat | q != p :: l !in Owned(t, q)
  {
    hide LkOk;
    hide ProcOk;
    hide SleepOk;
    hide NoLost;
  }

  /** A process that comes back from releasesleep has given the sleep-lock back, and keeps its others. */
  lemma ReleaseReturns(n: nat, xs: seq<Choice>, k: nat, m: nat, p: nat, l: nat)
    requires k < |xs| && Begins(n, xs, k, p, Release(l)) && ComesBack(n, xs, k, m, p)
    ensures var s, t := Before(n, xs, k), Before(n, xs, m);
      l in Owned(s, p) && Owned(t, p) == Owned(s, p) - {l}
  {
    hide Run;
    Inside(n, xs, k, m, p, Release(l));
  }
}
