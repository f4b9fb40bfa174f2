/**
 * The heat-aware scheduler: how hot processes are passed over, how they cool
 * and when they are let run again (kernel/proc.c, kernel/trap.c).
 */
module Heat {
  const HEAT_THRESHOLD_HOT: nat := 1500
  const HEAT_SKIP_SCALE: nat := 20
  const HEAT_SKIP_MAX: nat := 90
  const WORD: nat := 0x1_0000_0000_0000_0000

  /** A 64-bit value assigned to an int. */
  function ToInt(x: nat): (i: int)
  {
    var low := x % 0x1_0000_0000;
    if low < 0x8000_0000 then low else low - 0x1_0000_0000
  }

  /** skip_chance of a process with this heat. */
  function SkipChance(heat: nat): (chance: int)
  {
    if heat < HEAT_THRESHOLD_HOT then 0
    else
      var c := ToInt((heat - HEAT_THRESHOLD_HOT) / HEAT_SKIP_SCALE);
      if c > HEAT_SKIP_MAX then HEAT_SKIP_MAX else c
  }

  /** pseudo_rand */
  function PseudoRand(pid: nat, tick: nat): (r: nat)
    ensures r < 100
  {
    pid * tick % WORD % 100
  }

  /** should_skip; the comparison is an unsigned one. */
  predicate Skips(heat: nat, pid: nat, tick: nat)
  {
    heat >= HEAT_THRESHOLD_HOT &&
    var chance := SkipChance(heat);
    PseudoRand(pid, tick) < (if chance < 0 then chance + WORD else chance)
  }

  /** The decision as the scheduler computes it. */
  method Decide(heat: nat, pid: nat, tick: nat) returns (skip: bool)
    ensures skip == Skips(heat, pid, tick)
  {
    skip := false;
    var chance := 0;
    if heat >= HEAT_THRESHOLD_HOT {
      chance := ToInt((heat - HEAT_THRESHOLD_HOT) / HEAT_SKIP_SCALE);
      if chance > HEAT_SKIP_MAX {
        chance := HEAT_SKIP_MAX;
      }
      var r := PseudoRand(pid, tick);
      if chance < 0 || r < chance {
        skip := true;
      }
    }
  }

  /** The heats that do not overflow the int skip_chance. */
  predicate Sane(heat: nat)
  {
    heat < HEAT_THRESHOLD_HOT || (heat - HEAT_THRESHOLD_HOT) / HEAT_SKIP_SCALE % 0x1_0000_0000 < 0x8000_0000
  }

  /** skip_chance is a percentage of at most 90 exactly for the sane heats; the others are always skipped. */
  lemma ChanceRange(heat: nat, pid: nat, tick: nat)
    ensures 0 <= SkipChance(heat) <= HEAT_SKIP_MAX <==> Sane(heat)
    ensures !Sane(heat) ==> Skips(heat, pid, tick)
  {
  }

  /** The heat at which the chance overflows, far beyond what any process reaches. */
  const HEAT_LIMIT: nat := HEAT_THRESHOLD_HOT + HEAT_SKIP_SCALE * 0x8000_0000

  /** Short of the overflow, a process is passed over exactly if the pseudo-random number is below 90 and its heat
      exceeds 1500 by twenty for each unit of it and twenty more. */
  lemma SkipRule(heat: nat, pid: nat, tick: nat)
    requires heat < HEAT_LIMIT
    ensures var r := PseudoRand(pid, tick);
      Skips(heat, pid, tick) <==> r < 90 && 1500 + 20 * (r + 1) <= heat
    ensures 1500 <= heat < 3300 ==> 1500 + 20 * SkipChance(heat) <= heat < 1500 + 20 * (SkipChance(heat) + 1)
    ensures heat >= 3300 ==> SkipChance(heat) == 90
  {
    hide PseudoRand;
    if heat >= 1500 {
      var d := (heat - 1500) / 20;
      assert 20 * d <= heat - 1500 < 20 * d + 20;
      assert d % 0x1_0000_0000 == d;
    }
  }

  /** Below this heat no process is passed over. */
  const HEAT_SKIP_FROM: nat := HEAT_THRESHOLD_HOT + HEAT_SKIP_SCALE

  lemma ColdRuns(heat: nat, pid: nat, tick: nat)
    requires heat < HEAT_SKIP_FROM
    ensures !Skips(heat, pid, tick)
  {
    if heat >= HEAT_THRESHOLD_HOT {
      assert (heat - HEAT_THRESHOLD_HOT) / HEAT_SKIP_SCALE == 0;
    }
  }

  lemma HotWaits(heat: nat, pid: nat, tick: nat)
    requires HEAT_SKIP_FROM <= heat < HEAT_LIMIT && PseudoRand(pid, tick) == 0
    ensures Skips(heat, pid, tick)
  {
    assert (heat - HEAT_THRESHOLD_HOT) / HEAT_SKIP_SCALE >= 1;
  }

  /** A process can be passed over at some tick if and only if its heat is at least 1520. */
  lemma SkippedWhenHot(heat: nat, pid: nat)
    requires heat < HEAT_LIMIT
    ensures (exists tick: nat :: Skips(heat, pid, tick)) <==> heat >= HEAT_SKIP_FROM
  {
    if heat >= HEAT_SKIP_FROM {
      assert PseudoRand(pid, 0) == 0;
      HotWaits(heat, pid, 0);
    } else {
      forall tick: nat
        ensures !Skips(heat, pid, tick)
      {
        ColdRuns(heat, pid, tick);
      }
    }
  }

  /** Within ten of a multiple of a hundred, but not one. */
  predicate Near(x: nat)
  {
    1 <= x <= 10 || 90 <= x < 100
  }

  lemma SmallMultipleLow(k: nat) returns (s: nat)
    requires k <= 25 && k % 20 != 0 && k % 25 != 0
    ensures 1 <= s <= 9 && Near(k * s % 100)
  {
    if k <= 10 { return 1; }
    if 23 <= k { return 4; }
    if 18 <= k { return 5; }
    if 15 <= k { return 6; }
    if 13 <= k { return 7; }
    if k == 12 { return 8; }
    s := 9;
  }

  /** A small multiple of k comes near a multiple of a hundred. */
  lemma SmallMultiple(k: nat) returns (s: nat)
    requires k <= 50 && k % 20 != 0 && k % 25 != 0
    ensures 1 <= s <= 9 && Near(k * s % 100)
  {
    if k <= 25 {
      s := SmallMultipleLow(k);
      return;
    }
    if 45 <= k { return 2; }
    if 30 <= k <= 36 { return 3; }
    if k <= 27 { return 4; }
    if 38 <= k <= 41 { return 5; }
    if k <= 29 || 42 <= k { return 7; }
    s := 8;
  }

  lemma SmallMultipleAny(k: nat) returns (s: nat)
    requires k < 100 && k % 20 != 0 && k % 25 != 0
    ensures 1 <= s <= 9 && Near(k * s % 100)
  {
    if k <= 50 {
      s := SmallMultiple(k);
    } else {
      var m := 100 - k;
      s := SmallMultiple(m);
      assert k * s == 100 * s - m * s;
      assert k * s % 100 == 100 - m * s % 100 by {
        Opposite(m * s, s);
      }
    }
  }

  lemma Opposite(x: nat, s: nat)
    requires x % 100 != 0 && x <= 100 * s
    ensures (100 * s - x) % 100 == 100 - x % 100
  {
    var q, r := x / 100, x % 100;
    assert 100 * s - x == 100 * (s - q - 1) + (100 - r);
  }

  /** Steps of x, at most ten, land in the nineties. */
  lemma Climb(x: nat)
    requires 1 <= x <= 10
    ensures 90 <= x * ((89 + x) / x) < 100
  {
    if x == 1 {} else if x == 2 {} else if x == 3 {} else if x == 4 {} else if x == 5 {}
    else if x == 6 {} else if x == 7 {} else if x == 8 {} else if x == 9 {} else {}
  }

  lemma MulMod(a: nat, b: nat)
    ensures a * b % 100 == (a % 100) * b % 100
    ensures a * b % 100 == a * (b % 100) % 100
  {
    var q, r := a / 100, a % 100;
    assert a * b == 100 * (q * b) + r * b;
    MulHundred(q * b, r * b);
    var u, v := b / 100, b % 100;
    assert a * b == 100 * (a * u) + a * v;
    MulHundred(a * u, a * v);
  }

  lemma MulHundred(q: nat, x: nat)
    ensures (100 * q + x) % 100 == x % 100
  {
  }

  lemma ClimbFrom(y: nat, x: nat, c: nat)
    requires y % 100 == x && 90 <= x * c < 100
    ensures y * c % 100 >= 90
  {
    MulMod(y, c);
  }

  /** Some multiple of pid ends in a number from 90 on. */
  lemma InTheNineties(pid: nat) returns (r: nat)
    requires pid % 20 != 0 && pid % 25 != 0
    ensures pid * r % 100 >= 90
  {
    hide Near;
    Digits(pid);
    var s := SmallMultipleAny(pid % 100);
    NearToo(pid, s);
    r := Reach(pid, s, pid * s % 100);
  }

  lemma Digits(pid: nat)
    ensures pid % 100 % 20 == pid % 20 && pid % 100 % 25 == pid % 25
  {
    var q, r := pid / 100, pid % 100;
    Twenty(5 * q + r / 20, r % 20);
    TwentyFive(4 * q + r / 25, r % 25);
    assert pid == 20 * (5 * q + r / 20) + r % 20;
    assert pid == 25 * (4 * q + r / 25) + r % 25;
  }

  lemma Twenty(m: nat, c: nat)
    requires c < 20
    ensures (20 * m + c) % 20 == c
  {
  }

  lemma TwentyFive(m: nat, c: nat)
    requires c < 25
    ensures (25 * m + c) % 25 == c
  {
  }

  lemma NearToo(pid: nat, s: nat)
    requires Near(pid % 100 * s % 100)
    ensures Near(pid * s % 100)
  {
    MulMod(pid, s);
  }

  lemma Reach(pid: nat, s: nat, x: nat) returns (r: nat)
    requires x == pid * s % 100 && Near(x)
    ensures pid * r % 100 >= 90
  {
    if x >= 90 {
      return s;
    }
    var c := (89 + x) / x;
    Climb(x);
    ClimbFrom(pid * s, x, c);
    Assoc(pid, s, c);
    r := s * c;
  }

  lemma Assoc(a: nat, b: nat, c: nat)
    ensures a * (b * c) == (a * b) * c
  {
  }

  /** Tick t falls in the hundred ticks from t0 on and is r modulo a hundred. */
  lemma InWindow(t0: nat, r: nat) returns (t: nat)
    ensures t0 <= t < t0 + 100 && t % 100 == r % 100
  {
    var a, b := t0 % 100, r % 100;
    t := if a <= b then t0 + (b - a) else t0 + (100 + b - a);
  }

  /** At tick t the process is let run whatever its heat. */
  ghost predicate AlwaysAllowed(pid: nat, t: nat)
  {
    forall heat: nat {:trigger Skips(heat, pid, t)} | Sane(heat) :: !Skips(heat, pid, t)
  }

  lemma AllowedFromNinety(pid: nat, t: nat)
    ensures AlwaysAllowed(pid, t) <==> PseudoRand(pid, t) >= 90
  {
    if PseudoRand(pid, t) >= 90 {
      forall heat: nat {:trigger Skips(heat, pid, t)} | Sane(heat)
        ensures !Skips(heat, pid, t)
      {
        ChanceRange(heat, pid, t);
      }
    } else {
      assert SkipChance(3300) == 90 && Sane(3300);
      assert Skips(3300, pid, t);
    }
  }

  /**
   * Any hundred consecutive ticks hold one at which the process is let run at
   * every heat, if neither 20 nor 25 divides its number; otherwise no tick is
   * such a one.
   */
  lemma HundredTicks(pid: nat, t0: nat)
    requires pid * (t0 + 100) < WORD
    ensures (exists t: nat :: t0 <= t < t0 + 100 && AlwaysAllowed(pid, t)) <==> pid % 20 != 0 && pid % 25 != 0
  {
    hide AlwaysAllowed;
    hide PseudoRand;
    if pid % 20 != 0 && pid % 25 != 0 {
      var r := InTheNineties(pid);
      var t := InWindow(t0, r);
      MulMod(pid, t);
      MulMod(pid, r);
      NoWrap(pid, t0, t);
      AllowedFromNinety(pid, t);
      assert AlwaysAllowed(pid, t);
    } else {
      forall t: nat | t0 <= t < t0 + 100
        ensures !AlwaysAllowed(pid, t)
      {
        NoWrap(pid, t0, t);
        NeverNinety(pid, t);
        AllowedFromNinety(pid, t);
      }
    }
  }

  lemma NoWrap(pid: nat, t0: nat, t: nat)
    requires pid * (t0 + 100) < WORD && t <= t0 + 100
    ensures PseudoRand(pid, t) == pid * t % 100
  {
    Larger(pid, t, t0 + 100);
    Small(pid * t);
  }

  lemma Larger(a: nat, b: nat, c: nat)
    requires b <= c
    ensures a * b <= a * c
  {
  }

  lemma Small(x: nat)
    requires x < WORD
    ensures x % WORD == x
  {
  }

  lemma NeverNinety(pid: nat, t: nat)
    requires pid % 20 == 0 || pid % 25 == 0
    ensures pid * t % 100 < 90
  {
    if pid % 20 == 0 {
      Assoc(20, pid / 20, t);
      Multiple(20, 5, pid / 20 * t);
    } else {
      Assoc(25, pid / 25, t);
      Multiple(25, 4, pid / 25 * t);
    }
  }

  lemma Multiple(d: nat, e: nat, y: nat)
    requires (d == 20 && e == 5) || (d == 25 && e == 4)
    ensures d * y % 100 <= 80
  {
    assert d * y == 100 * (y / e) + d * (y % e);
    MulHundred(y / e, d * (y % e));
  }

  /** What usertrap does with a cause. */
  datatype Branch = Syscall | Device | TimerBranch | PageFault | Unexpected

  predicate External(scause: nat)
  {
    scause >= 0x8000_0000_0000_0000 && scause % 256 == 9
  }

  /** devintr: 1 for a device, 2 for the timer, 0 otherwise. */
  function Devintr(scause: nat): (which: nat)
  {
    if External(scause) then 1 else if scause == 0x8000_0000_0000_0001 then 2 else 0
  }

  /** The chain of tests of usertrap; TimerBranch is the one that would add 5 to the heat. */
  function Usertrap(scause: nat): (b: Branch)
  {
    if scause == 8 then Syscall
    else if Devintr(scause) != 0 then Device
    else if External(scause) then TimerBranch
    else if scause == 13 || scause == 15 then PageFault
    else Unexpected
  }

  /** Heat never rises by 5: no cause reaches that branch. */
  lemma NoFastHeating(scause: nat)
    ensures Usertrap(scause) != TimerBranch
    ensures Usertrap(scause) == Device <==> External(scause) || scause == 0x8000_0000_0000_0001
  {
  }
}
