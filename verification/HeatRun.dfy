/**
 * The scheduler at work: CPUs that sample the clock, cool the processes, look
 * through the process table and run what they are let run, timer interrupts
 * that heat whoever runs, and processes that sleep, wake, exit and are made
 * (kernel/proc.c, kernel/trap.c).  A heat cannot rise while its process waits,
 * so a hot one is let run in the end.
 */
module HeatRun {
  import opened Heat

  const NPROC: nat := 64

  datatype PState = Unused | Runnable | Running | Other

  /** Where a CPU is in scheduler(): at the top of its loop, about to look at process i, or running it. */
  datatype Cpu = Top | Scan(tick: nat, i: nat) | Busy(tick: nat, i: nat)

  datatype Sys = Sys(state: seq<PState>, heat: seq<nat>, pid: seq<nat>, ticks: nat, cpus: seq<Cpu>)

  /** CPU c starts a pass or looks at one process; a timer interrupt reaches CPU c; the process that CPU c runs goes to
      sleep or exits; a process is woken; a slot is freed, or used for a new process. */
  datatype Step =
    | Sample(c: nat)
    | Look(c: nat)
    | Tick(c: nat)
    | Block(c: nat)
    | Wake(p: nat)
    | Free(p: nat)
    | Make(p: nat, pid: nat)

  /** update_heat on one process. */
  function Cooled(heat: nat): (h: nat)
  {
    if heat > 1 then heat - 1 else 0
  }

  /** update_heat */
  function CooledAll(state: seq<PState>, heat: seq<nat>): (h: seq<nat>)
    requires |state| == |heat|
    ensures |h| == |heat|
    ensures forall p | 0 <= p < |heat| :: h[p] == if state[p] == Unused then heat[p] else Cooled(heat[p])
  {
    seq(|heat|, p requires 0 <= p < |heat| => if state[p] == Unused then heat[p] else Cooled(heat[p]))
  }

  predicate Shaped(s: Sys)
  {
    && |s.state| == |s.heat| == |s.pid| == NPROC
    && forall c | 0 <= c < |s.cpus| :: s.cpus[c] != Top ==> s.cpus[c].i <= NPROC
  }

  /** The pass of CPU c begins with cooling. */
  predicate Cools(s: Sys, step: Step)
  {
    step.Sample? && step.c < |s.cpus| && s.cpus[step.c] == Top && s.ticks % 10 == 0
  }

  /** CPU c is at process p and finds it ready to run. */
  predicate Decides(s: Sys, c: nat, p: nat)
    requires Shaped(s)
  {
    c < |s.cpus| && s.cpus[c].Scan? && s.cpus[c].i == p < NPROC && s.state[p] == Runnable
  }

  /** The step lets process p run. */
  predicate Allows(s: Sys, step: Step, p: nat)
    requires Shaped(s)
  {
    step.Look? && Decides(s, step.c, p) && !Skips(s.heat[p], s.pid[p], s.cpus[step.c].tick)
  }

  /** What a step does; a step that cannot be taken does nothing. */
  function Next(s: Sys, step: Step): (s': Sys)
    requires Shaped(s)
    ensures Shaped(s') && |s'.cpus| == |s.cpus|
  {
    match step
    case Sample(c) =>
      if c < |s.cpus| && s.cpus[c] == Top then
        s.(heat := if s.ticks % 10 == 0 then CooledAll(s.state, s.heat) else s.heat,
           cpus := s.cpus[c := Scan(s.ticks, 0)])
      else s
    case Look(c) =>
      if c < |s.cpus| && s.cpus[c].Scan? then
        var Scan(tick, i) := s.cpus[c];
        if i == NPROC then s.(cpus := s.cpus[c := Top])
        else if s.state[i] == Runnable && !Skips(s.heat[i], s.pid[i], tick) then
          s.(state := s.state[i := Running], cpus := s.cpus[c := Busy(tick, i)])
        else s.(cpus := s.cpus[c := Scan(tick, i + 1)])
      else s
    case Tick(c) =>
      if c < |s.cpus| then
        var s1 := if c == 0 then s.(ticks := (s.ticks + 1) % WORD) else s;
        if s.cpus[c].Busy? && s.cpus[c].i < NPROC then
          var Busy(tick, i) := s.cpus[c];
          s1.(heat := s.heat[i := (s.heat[i] + 1) % WORD], state := s.state[i := Runnable],
              cpus := s.cpus[c := Scan(tick, i + 1)])
        else s1
      else s
    case Block(c) =>
      if c < |s.cpus| && s.cpus[c].Busy? && s.cpus[c].i < NPROC then
        var Busy(tick, i) := s.cpus[c];
        s.(state := s.state[i := Other], cpus := s.cpus[c := Scan(tick, i + 1)])
      else s
    case Wake(p) =>
      if p < NPROC && s.state[p] == Other then s.(state := s.state[p := Runnable]) else s
    case Free(p) =>
      if p < NPROC && s.state[p] == Other then s.(state := s.state[p := Unused]) else s
    case Make(p, pid) =>
      if p < NPROC && s.state[p] == Unused then
        s.(state := s.state[p := Runnable], heat := s.heat[p := 0], pid := s.pid[p := pid])
      else s
  }

  /** Each process that runs does so on one CPU, and a CPU runs only a process that is Running. */
  predicate Inv(s: Sys)
  {
    && Shaped(s)
    && (forall c | 0 <= c < |s.cpus| && s.cpus[c].Busy? :: s.cpus[c].i < NPROC && s.state[s.cpus[c].i] == Running)
    && (forall c, d | 0 <= c < d < |s.cpus| && s.cpus[c].Busy? && s.cpus[d].Busy? :: s.cpus[c].i != s.cpus[d].i)
  }

  lemma InvStep(s: Sys, step: Step)
    requires Inv(s)
    ensures Inv(Next(s, step))
  {
  }

  function Run(s: Sys, steps: seq<Step>): (s': Sys)
    requires Shaped(s)
    ensures Shaped(s')
    decreases |steps|
  {
    if steps == [] then s else Run(Next(s, steps[0]), steps[1..])
  }

  /** In none of the steps is process p let run. */
  predicate NeverAllowed(s: Sys, steps: seq<Step>, p: nat)
    requires Shaped(s)
    decreases |steps|
  {
    steps == [] || (!Allows(s, steps[0], p) && NeverAllowed(Next(s, steps[0]), steps[1..], p))
  }

  /** The number of passes of update_heat in a run. */
  function Passes(s: Sys, steps: seq<Step>): (n: nat)
    requires Shaped(s)
    decreases |steps|
  {
    if steps == [] then 0 else (if Cools(s, steps[0]) then 1 else 0) + Passes(Next(s, steps[0]), steps[1..])
  }

  /** The heat of a process rises only while it runs: a step that finds it waiting cannot heat it. */
  lemma NoRiseStep(s: Sys, step: Step, p: nat)
    requires Inv(s) && p < NPROC && s.state[p] != Running && !Allows(s, step, p)
    ensures Next(s, step).state[p] != Running && Next(s, step).heat[p] <= s.heat[p]
  {
  }

  /** Between two schedulings the heat of a process does not rise, whatever else happens. */
  lemma {:induction false} NoRise(s: Sys, steps: seq<Step>, p: nat)
    requires Inv(s) && p < NPROC && s.state[p] != Running && NeverAllowed(s, steps, p)
    ensures Run(s, steps).state[p] != Running && Run(s, steps).heat[p] <= s.heat[p]
    decreases |steps|
  {
    if steps != [] {
      InvStep(s, steps[0]);
      NoRiseStep(s, steps[0], p);
      hide Next;
      NoRise(Next(s, steps[0]), steps[1..], p);
    }
  }

  /** The step is a timer interrupt on the CPU that runs process p. */
  predicate Heats(s: Sys, step: Step, p: nat)
  {
    step.Tick? && step.c < |s.cpus| && s.cpus[step.c].Busy? && s.cpus[step.c].i == p
  }

  /** The timer interrupts that process p has taken in a run. */
  function Charged(s: Sys, steps: seq<Step>, p: nat): (n: nat)
    requires Shaped(s)
    ensures n <= |steps|
    decreases |steps|
  {
    if steps == [] then 0 else (if Heats(s, steps[0], p) then 1 else 0) + Charged(Next(s, steps[0]), steps[1..], p)
  }

  /** The slot of process p is in use throughout. */
  predicate Alive(s: Sys, steps: seq<Step>, p: nat)
    requires Shaped(s) && p < NPROC
    decreases |steps|
  {
    s.state[p] != Unused && (steps == [] || Alive(Next(s, steps[0]), steps[1..], p))
  }

  lemma HeatStep(s: Sys, step: Step, p: nat)
    requires Inv(s) && p < NPROC && s.state[p] != Unused && s.heat[p] + 1 < WORD
    ensures Next(s, step).heat[p]
         == if Heats(s, step, p) then s.heat[p] + 1 else if Cools(s, step) then Cooled(s.heat[p]) else s.heat[p]
  {
  }

  /** Which steps change the state of a process, and how. */
  lemma LifeCycle(s: Sys, step: Step, p: nat)
    requires Inv(s) && p < NPROC
    ensures Next(s, step).state[p]
         == if Allows(s, step, p) then Running
            else if Heats(s, step, p) then Runnable
            else if step.Block? && Heats(s, Tick(step.c), p) then Other
            else if step == Wake(p) && s.state[p] == Other then Runnable
            else if step == Free(p) && s.state[p] == Other then Unused
            else if step.Make? && step.p == p && s.state[p] == Unused then Runnable
            else s.state[p]
  {
  }

  /** The interrupts of the timer of CPU 0, which keeps the clock. */
  function Beats(ncpu: nat, steps: seq<Step>): (n: nat)
  {
    if steps == [] then 0
    else (if steps[0] == Tick(0) && ncpu > 0 then 1 else 0) + Beats(ncpu, steps[1..])
  }

  lemma {:induction false} ClockCounts(s: Sys, steps: seq<Step>)
    requires Shaped(s) && s.ticks < WORD
    ensures Run(s, steps).ticks == (s.ticks + Beats(|s.cpus|, steps)) % WORD
    decreases |steps|
  {
    if steps != [] {
      hide Next;
      BeatStep(s, steps[0]);
      ClockCounts(Next(s, steps[0]), steps[1..]);
      AddWrapped(s.ticks + 1, Beats(|s.cpus|, steps[1..]));
    }
  }

  lemma BeatStep(s: Sys, step: Step)
    requires Shaped(s) && s.ticks < WORD
    ensures Next(s, step).ticks == if step == Tick(0) && |s.cpus| > 0 then (s.ticks + 1) % WORD else s.ticks
    ensures |Next(s, step).cpus| == |s.cpus|
  {
  }

  lemma AddWrapped(a: nat, b: nat)
    ensures (a % WORD + b) % WORD == (a + b) % WORD
  {
  }

  /** The heat of a process is what the timer charged it less what update_heat took off, which is at most one in each
      pass, and all of it only where nothing was left. */
  lemma {:induction false} HeatBalance(s: Sys, steps: seq<Step>, p: nat)
    requires Inv(s) && p < NPROC && Alive(s, steps, p) && s.heat[p] + |steps| + 1 < WORD
    ensures var h := Run(s, steps).heat[p];
      && s.heat[p] + Charged(s, steps, p) - Passes(s, steps) <= h <= s.heat[p] + Charged(s, steps, p)
      && (Passes(s, steps) < s.heat[p] ==> h == s.heat[p] + Charged(s, steps, p) - Passes(s, steps))
    decreases |steps|
  {
    if steps != [] {
      InvStep(s, steps[0]);
      HeatStep(s, steps[0], p);
      hide Next;
      hide Inv;
      HeatBalance(Next(s, steps[0]), steps[1..], p);
    }
  }

  lemma WaitStep(s: Sys, step: Step, p: nat)
    requires Inv(s) && p < NPROC && s.state[p] == Runnable && !Allows(s, step, p)
    ensures Next(s, step).state[p] == Runnable && Next(s, step).pid[p] == s.pid[p]
    ensures Next(s, step).heat[p] == if Cools(s, step) then Cooled(s.heat[p]) else s.heat[p]
  {
  }

  /** A process that is passed over each time stays runnable and cools by one in each pass of update_heat. */
  lemma {:induction false} Waiting(s: Sys, steps: seq<Step>, p: nat)
    requires Inv(s) && p < NPROC && s.state[p] == Runnable && NeverAllowed(s, steps, p)
    ensures Inv(Run(s, steps)) && Run(s, steps).state[p] == Runnable && Run(s, steps).pid[p] == s.pid[p]
    ensures Run(s, steps).heat[p] == if Passes(s, steps) < s.heat[p] then s.heat[p] - Passes(s, steps) else 0
    decreases |steps|
  {
    if steps != [] {
      InvStep(s, steps[0]);
      WaitStep(s, steps[0], p);
      hide Next;
      hide Inv;
      Waiting(Next(s, steps[0]), steps[1..], p);
    }
  }

  /** A runnable process of heat h that is passed over each time is let run at its first decision after h - 1519
      passes of update_heat, by whichever CPU and at whatever tick. */
  lemma SkipBound(s: Sys, steps: seq<Step>, p: nat, c: nat)
    requires Inv(s) && p < NPROC && s.state[p] == Runnable && NeverAllowed(s, steps, p)
    requires Passes(s, steps) >= s.heat[p] - (HEAT_SKIP_FROM - 1) && Decides(Run(s, steps), c, p)
    ensures Allows(Run(s, steps), Look(c), p) && Next(Run(s, steps), Look(c)).state[p] == Running
  {
    Waiting(s, steps, p);
    var s' := Run(s, steps);
    hide Run;
    hide Skips;
    ColdRuns(s'.heat[p], s'.pid[p], s'.cpus[c].tick);
  }

  /** The bound is the least one: with fewer passes the process is passed over by a pass that sampled tick 0, or any
      other tick at which its pseudo-random number is 0. */
  lemma SkipBoundTight(s: Sys, steps: seq<Step>, p: nat, c: nat)
    requires Inv(s) && p < NPROC && s.state[p] == Runnable && NeverAllowed(s, steps, p) && s.heat[p] < HEAT_LIMIT
    requires Passes(s, steps) < s.heat[p] - (HEAT_SKIP_FROM - 1) && Decides(Run(s, steps), c, p)
    requires PseudoRand(s.pid[p], Run(s, steps).cpus[c].tick) == 0
    ensures !Allows(Run(s, steps), Look(c), p) && Next(Run(s, steps), Look(c)).state[p] == Runnable
  {
    Waiting(s, steps, p);
    var s' := Run(s, steps);
    hide Run;
    hide Skips;
    HotWaits(s'.heat[p], s'.pid[p], s'.cpus[c].tick);
  }

  /** A process whose pass sampled a tick of the kind that HundredTicks finds is let run whatever its heat. */
  lemma AllowedAtTick(s: Sys, c: nat, p: nat)
    requires Inv(s) && Decides(s, c, p) && Sane(s.heat[p]) && PseudoRand(s.pid[p], s.cpus[c].tick) >= HEAT_SKIP_MAX
    ensures Next(s, Look(c)).state[p] == Running
  {
    ChanceRange(s.heat[p], s.pid[p], s.cpus[c].tick);
  }

  class Scheduler {
    var state: seq<PState>
    var heat: seq<nat>
    var pid: seq<nat>
    var ticks: nat
    var cpus: seq<Cpu>

    ghost function State(): Sys
      reads this
    {
      Sys(state, heat, pid, ticks, cpus)
    }

    /** The machine before its first process. */
    constructor (ncpu: nat)
      ensures Inv(State()) && |cpus| == ncpu && forall p | 0 <= p < NPROC :: state[p] == Unused && heat[p] == 0
    {
      state, heat, pid := seq(NPROC, _ => Unused), seq(NPROC, _ => 0), seq(NPROC, _ => 0);
      ticks, cpus := 0, seq(ncpu, _ => Top);
    }

    /** update_heat */
    method UpdateHeat()
      requires |state| == |heat|
      modifies `heat
      ensures heat == CooledAll(state, old(heat))
    {
      var p := 0;
      while p < |heat|
        invariant 0 <= p <= |heat| == |old(heat)|
        invariant forall q | 0 <= q < |heat| ::
          heat[q] == if q < p && state[q] != Unused then Cooled(old(heat)[q]) else old(heat)[q]
      {
        if state[p] != Unused {
          if heat[p] > 1 {
            heat := heat[p := heat[p] - 1];
          } else {
            heat := heat[p := 0];
          }
        }
        p := p + 1;
      }
    }

    /** The top of the loop of scheduler(). */
    method StartPass(c: nat)
      requires Inv(State()) && c < |cpus| && cpus[c] == Top
      modifies this
      ensures State() == Next(old(State()), Sample(c))
    {
      var tick := ticks;
      if tick % 10 == 0 {
        UpdateHeat();
      }
      cpus := cpus[c := Scan(tick, 0)];
    }

    /** One turn of the inner loop of scheduler(). */
    method LookAtOne(c: nat)
      requires Inv(State()) && c < |cpus| && cpus[c].Scan?
      modifies this
      ensures State() == Next(old(State()), Look(c))
    {
      var tick, p := cpus[c].tick, cpus[c].i;
      if p == NPROC {
        cpus := cpus[c := Top];
      } else if state[p] == Runnable {
        var skip := Decide(heat[p], pid[p], tick);
        if skip {
          cpus := cpus[c := Scan(tick, p + 1)];
        } else {
          state := state[p := Running];
          cpus := cpus[c := Busy(tick, p)];
        }
      } else {
        cpus := cpus[c := Scan(tick, p + 1)];
      }
    }

    /** A timer interrupt on CPU c, in usertrap() or kerneltrap(): the process heats up and yields. */
    method TimerTick(c: nat)
      requires Inv(State()) && c < |cpus|
      modifies this
      ensures State() == Next(old(State()), Tick(c))
    {
      if c == 0 {
        ticks := (ticks + 1) % WORD;
      }
      if cpus[c].Busy? {
        var tick, p := cpus[c].tick, cpus[c].i;
        heat := heat[p := (heat[p] + 1) % WORD];
        state := state[p := Runnable];
        cpus := cpus[c := Scan(tick, p + 1)];
      }
    }

    /** One step of the machine. */
    method Do(step: Step)
      requires Inv(State())
      modifies this
      ensures State() == Next(old(State()), step) && Inv(State())
    {
      InvStep(State(), step);
      match step {
        case Sample(c) =>
          if c < |cpus| && cpus[c] == Top {
            StartPass(c);
          }
        case Look(c) =>
          if c < |cpus| && cpus[c].Scan? {
            LookAtOne(c);
          }
        case Tick(c) =>
          if c < |cpus| {
            TimerTick(c);
          }
        case Block(c) =>
          if c < |cpus| && cpus[c].Busy? {
            state := state[cpus[c].i := Other];
            cpus := cpus[c := Scan(cpus[c].tick, cpus[c].i + 1)];
          }
        case Wake(p) =>
          if p < NPROC && state[p] == Other {
            state := state[p := Runnable];
          }
        case Free(p) =>
          if p < NPROC && state[p] == Other {
            state := state[p := Unused];
          }
        case Make(p, n) =>
          if p < NPROC && state[p] == Unused {
            state, heat, pid := state[p := Runnable], heat[p := 0], pid[p := n];
          }
      }
    }

    /** A whole run. */
    method Go(steps: seq<Step>)
      requires Inv(State())
      modifies this
      ensures Inv(State()) && State() == Run(old(State()), steps)
    {
      hide Next;
      hide Inv;
      var k := 0;
      InvShaped(State());
      assert steps[0..] == steps;
      while k < |steps|
        invariant 0 <= k <= |steps| && Inv(State()) && Shaped(State()) && Shaped(old(State()))
        invariant Run(State(), steps[k..]) == Run(old(State()), steps)
      {
        assert steps[k..][1..] == steps[k + 1..];
        Do(steps[k]);
        InvShaped(State());
        k := k + 1;
      }
    }
  }

  lemma InvShaped(s: Sys)
    requires Inv(s)
    ensures Shaped(s)
  {
  }
}
