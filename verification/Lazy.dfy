/**
 * Demand-zero paging against the eager allocator it replaced: sys_sbrk,
 * growproc and the page-fault branch of usertrap (kernel/sysproc.c,
 * kernel/proc.c, kernel/trap.c), on the image that a process sees of its
 * address space.  Accesses are to aligned 8-byte words.
 */
module Lazy {
  import opened Pages
  import opened PageTable

  /** The size of a process and, for each of its mapped pages, the flags and the contents. */
  datatype Space = Space(sz: nat, flags: map<nat, nat>, mem: map<nat, Page>)

  /** PTE_V, PTE_R, PTE_W and PTE_U */
  const HEAP_FLAGS: nat := 23

  predicate Allows(flags: nat, write: bool)
  {
    flags / 16 % 2 == 1 && (if write then flags / 4 % 2 == 1 else flags / 2 % 2 == 1)
  }

  /** sz + n in 64-bit arithmetic. */
  function NewSize(sz: nat, n: int): (m: nat)
    requires -0x80000000 <= n
  {
    if 0 <= sz + n then sz + n else sz + n + 0x1_0000_0000_0000_0000
  }

  predicate Between(v: nat, n: nat, u: nat)
  {
    v <= u < v + n
  }

  function Added(s: Space, v: nat, n: nat): (t: Space)
  {
    Space(s.sz, s.flags + (map u: nat | v <= u < v + n && Between(v, n, u) :: HEAP_FLAGS),
          s.mem + (map u: nat | v <= u < v + n && Between(v, n, u) :: Filled(0)))
  }

  /** uvmdealloc */
  function Shrunk(s: Space, newsz: nat): (t: Space)
  {
    if newsz >= s.sz then s
    else Space(newsz, map u | u in s.flags && u < PageUp(newsz) :: s.flags[u],
               map u | u in s.mem && u < PageUp(newsz) :: s.mem[u])
  }

  /** The original sbrk: growproc in both directions. */
  function EagerSbrk(s: Space, n: int): (t: Space)
    requires -0x80000000 <= n
  {
    if n > 0 then Added(s, PageUp(s.sz), PageUp(s.sz + n) - PageUp(s.sz)).(sz := s.sz + n)
    else if n < 0 then Shrunk(s, NewSize(s.sz, n))
    else s
  }

  /** The sbrk that replaced it: growth only changes the size. */
  function LazySbrk(s: Space, n: int): (t: Space)
    requires -0x80000000 <= n
  {
    if n > 0 then s.(sz := s.sz + n) else if n < 0 then Shrunk(s, NewSize(s.sz, n)) else s
  }

  /** How an access ends: with a word read and a new image, with the process killed, or not at all. */
  datatype Outcome = Fine(word: nat, space: Space) | Killed | Stuck

  /** A load, or a store of a word. */
  datatype Access = Load | Store(word: nat)

  function Touched(s: Space, a: nat, op: Access): (out: Outcome)
    requires a / 4096 in s.mem
  {
    var page := s.mem[a / 4096];
    var k := a % 4096 / 8;
    if k >= |page| then Stuck
    else match op
      case Load => Fine(page[k], s)
      case Store(w) =>
        var page': Page := page[k := w];
        Fine(page[k], s.(mem := s.mem[a / 4096 := page']))
  }

  /** With the eager allocator a fault kills the process. */
  function EagerAccess(s: Space, a: nat, op: Access): (out: Outcome)
    requires s.flags.Keys == s.mem.Keys
  {
    if a / 4096 in s.mem && Allows(s.flags[a / 4096], op.Store?) then Touched(s, a, op) else Killed
  }

  /** With the lazy one a fault below the size maps a zeroed page, unless a page is mapped there already. */
  function LazyAccess(s: Space, a: nat, op: Access): (out: Outcome)
    requires s.flags.Keys == s.mem.Keys
  {
    if a / 4096 in s.mem && Allows(s.flags[a / 4096], op.Store?) then Touched(s, a, op)
    else if a >= s.sz then Killed
    else if a / 4096 in s.mem then Stuck
    else Touched(Added(s, a / 4096, 1), a, op)
  }

  ghost predicate PagesOk(s: Space)
  {
    && s.flags.Keys == s.mem.Keys
    && (forall u | u in s.mem :: u < PageUp(s.sz) && |s.mem[u]| == 512)
  }

  /** The lazy image l stands for the eager image e: what it lacks is still zero there. */
  ghost predicate Stands(l: Space, e: Space)
  {
    && l.sz == e.sz
    && PagesOk(l) && PagesOk(e)
    && (forall u: nat | u < PageUp(e.sz) :: u in e.mem)
    && (forall u | u in l.mem :: u in e.mem && l.mem[u] == e.mem[u] && l.flags[u] == e.flags[u])
    && (forall u {:trigger e.mem[u]} | u in e.mem && u !in l.mem :: e.mem[u] == Filled(0) && e.flags[u] == HEAP_FLAGS)
  }

  /** Both ways of growing and shrinking keep the correspondence, and return the same address. */
  lemma SbrkStands(l: Space, e: Space, n: int)
    requires Stands(l, e) && -0x80000000 <= n
    ensures Stands(LazySbrk(l, n), EagerSbrk(e, n))
  {
    hide Stands;
    hide Added;
    hide Shrunk;
    StandsSize(l, e);
    if n > 0 {
      GrowStands(l, e, n);
    } else if n < 0 {
      ShrinkStands(l, e, NewSize(l.sz, n));
    }
  }

  lemma StandsSize(l: Space, e: Space)
    requires Stands(l, e)
    ensures l.sz == e.sz && PagesOk(l) && PagesOk(e)
  {
  }

  lemma ShrinkStands(l: Space, e: Space, newsz: nat)
    requires Stands(l, e)
    ensures Stands(Shrunk(l, newsz), Shrunk(e, newsz))
  {
    hide Filled;
  }

  lemma GrowStands(l: Space, e: Space, n: nat)
    requires Stands(l, e)
    ensures Stands(l.(sz := l.sz + n), Added(e, PageUp(e.sz), PageUp(e.sz + n) - PageUp(e.sz)).(sz := e.sz + n))
  {
    assert |Filled(0)| == 512;
    hide Filled;
    var e' := Added(e, PageUp(e.sz), PageUp(e.sz + n) - PageUp(e.sz)).(sz := e.sz + n);
    forall u: nat | u < PageUp(e'.sz)
      ensures u in e'.mem
    {
      assert Between(PageUp(e.sz), PageUp(e.sz + n) - PageUp(e.sz), u) || u < PageUp(e.sz);
    }
  }

  lemma TouchedStands(l: Space, e: Space, a: nat, op: Access)
    requires Stands(l, e) && a / 4096 in l.mem
    ensures Touched(l, a, op).Fine? && Touched(e, a, op).Fine?
    ensures Touched(l, a, op).word == Touched(e, a, op).word
    ensures Stands(Touched(l, a, op).space, Touched(e, a, op).space)
  {
    hide Filled;
  }

  lemma AddedStands(l: Space, e: Space, v: nat)
    requires Stands(l, e) && v !in l.mem && v in e.mem
    ensures Stands(Added(l, v, 1), e)
  {
    hide Filled;
  }

  ghost predicate SameOutcome(x: Outcome, y: Outcome)
  {
    || (x.Killed? && y.Killed?)
    || (x.Fine? && y.Fine? && x.word == y.word && Stands(x.space, y.space))
  }

  /** Exactly the accesses on which the lazy process behaves as the eager one. */
  predicate Agrees(l: Space, e: Space, a: nat, op: Access)
    requires e.flags.Keys == e.mem.Keys
  {
    if a < e.sz then a / 4096 in e.mem && Allows(e.flags[a / 4096], op.Store?)
    else a / 4096 in l.mem || a / 4096 >= PageUp(e.sz)
  }

  /** An access has the same outcome in both if and only if it is permitted below sz, or not to a lazy hole above it. */
  lemma AccessAgrees(l: Space, e: Space, a: nat, op: Access)
    requires Stands(l, e)
    ensures SameOutcome(LazyAccess(l, a, op), EagerAccess(e, a, op)) <==> Agrees(l, e, a, op)
  {
    hide Filled;
    assert HEAP_FLAGS / 16 % 2 == 1;
    if a / 4096 in l.mem {
      TouchedStands(l, e, a, op);
    } else if a / 4096 in e.mem {
      assert Allows(e.flags[a / 4096], op.Store?);
      AddedStands(l, e, a / 4096);
      TouchedStands(Added(l, a / 4096, 1), e, a, op);
    }
  }

  /** What a user program does to its memory. */
  datatype Op = Sbrk(n: int) | Access(a: nat, op: Access)

  ghost predicate IntArgument(op: Op)
  {
    op.Sbrk? ==> -0x80000000 <= op.n < 0x80000000
  }

  /** The value an operation returns, and the image after it. */
  function EagerStep(s: Space, op: Op): (out: Outcome)
    requires IntArgument(op) && s.flags.Keys == s.mem.Keys
  {
    match op
    case Sbrk(n) => Fine(s.sz, EagerSbrk(s, n))
    case Access(a, acc) => EagerAccess(s, a, acc)
  }

  function LazyStep(s: Space, op: Op): (out: Outcome)
    requires IntArgument(op) && s.flags.Keys == s.mem.Keys
  {
    match op
    case Sbrk(n) => Fine(s.sz, LazySbrk(s, n))
    case Access(a, acc) => LazyAccess(s, a, acc)
  }

  lemma StepStands(l: Space, e: Space, op: Op)
    requires Stands(l, e) && IntArgument(op)
    requires op.Access? ==> Agrees(l, e, op.a, op.op)
    ensures SameOutcome(LazyStep(l, op), EagerStep(e, op))
  {
    hide Stands;
    StandsSize(l, e);
    match op
    case Sbrk(n) => SbrkStands(l, e, n);
    case Access(a, acc) => AccessAgrees(l, e, a, acc);
  }

  /** The program, run eagerly from s, accesses only memory below its size and as the page permits. */
  ghost predicate Proper(s: Space, ops: seq<Op>)
    requires PagesOk(s)
    decreases |ops|
  {
    ops == [] ||
    (&& IntArgument(ops[0])
     && (ops[0].Access? ==> ops[0].a < s.sz && ops[0].a / 4096 in s.mem
                            && Allows(s.flags[ops[0].a / 4096], ops[0].op.Store?))
     && var out := EagerStep(s, ops[0]);
        out.Fine? && PagesOk(out.space) && Proper(out.space, ops[1..]))
  }

  /** The values returned by the operations of a run. */
  ghost function EagerTrace(s: Space, ops: seq<Op>): seq<nat>
    requires PagesOk(s) && Proper(s, ops)
    decreases |ops|
  {
    if ops == [] then []
    else var out := EagerStep(s, ops[0]);
      [out.word] + EagerTrace(out.space, ops[1..])
  }

  /** The same for the lazy process, up to the first operation that does not return. */
  ghost function LazyTrace(s: Space, ops: seq<Op>): seq<nat>
    requires PagesOk(s) && forall op | op in ops :: IntArgument(op)
    decreases |ops|
  {
    if ops == [] then []
    else var out := LazyStep(s, ops[0]);
      if out.Fine? && PagesOk(out.space) then [out.word] + LazyTrace(out.space, ops[1..]) else []
  }

  ghost function LazyFinal(s: Space, ops: seq<Op>): Space
    requires PagesOk(s) && forall op | op in ops :: IntArgument(op)
    decreases |ops|
  {
    if ops == [] then s
    else var out := LazyStep(s, ops[0]);
      if out.Fine? && PagesOk(out.space) then LazyFinal(out.space, ops[1..]) else s
  }

  ghost function EagerFinal(s: Space, ops: seq<Op>): Space
    requires PagesOk(s) && Proper(s, ops)
    decreases |ops|
  {
    if ops == [] then s else EagerFinal(EagerStep(s, ops[0]).space, ops[1..])
  }

  lemma {:induction false} ProperIntArgument(s: Space, ops: seq<Op>)
    requires PagesOk(s) && Proper(s, ops)
    ensures forall op | op in ops :: IntArgument(op)
    decreases |ops|
  {
    hide EagerStep;
    if ops != [] {
      ProperIntArgument(EagerStep(s, ops[0]).space, ops[1..]);
      assert ops == [ops[0]] + ops[1..];
    }
  }

  /** Over every run, demand-zero paging returns the same values as eager allocation and ends in a corresponding image.
      */
  lemma {:induction false} LazySimulatesEager(l: Space, e: Space, ops: seq<Op>)
    requires Stands(l, e) && PagesOk(l) && PagesOk(e) && Proper(e, ops)
    requires forall op | op in ops :: IntArgument(op)
    ensures LazyTrace(l, ops) == EagerTrace(e, ops)
    ensures Stands(LazyFinal(l, ops), EagerFinal(e, ops))
    decreases |ops|
  {
    if ops != [] {
      hide Stands;
      hide PagesOk;
      hide EagerStep;
      hide LazyStep;
      hide Allows;
      StandsSize(l, e);
      StepStands(l, e, ops[0]);
      var l', e' := LazyStep(l, ops[0]).space, EagerStep(e, ops[0]).space;
      StandsSize(l', e');
      LazySimulatesEager(l', e', ops[1..]);
    }
  }
}
