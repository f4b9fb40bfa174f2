/**
 * Memory as a program sees it: which word a load returns, told from the
 * program's own stores and calls of sbrk alone.
 */
module Words {
  import opened Pages
  import opened PageTable
  import opened Lazy

  /** Word w of an address space, which is at addresses 8w to 8w + 7; zero where no page is. */
  function WordAt(s: Space, w: nat): (x: nat)
  {
    if w / 512 in s.mem && w % 512 < |s.mem[w / 512]| then s.mem[w / 512][w % 512] else 0
  }

  /** The size after sbrk(n). */
  function Resized(sz: nat, n: int): (m: nat)
    requires -0x80000000 <= n
  {
    if n < 0 && sz <= NewSize(sz, n) then sz else NewSize(sz, n)
  }

  /** The size after the operations, from their arguments alone. */
  function SizeAfter(sz: nat, ops: seq<Op>): (m: nat)
    requires forall op | op in ops :: IntArgument(op)
  {
    if ops == [] then sz
    else
      var before := SizeAfter(sz, ops[..|ops| - 1]);
      assert IntArgument(ops[|ops| - 1]);
      match ops[|ops| - 1]
      case Sbrk(n) => Resized(before, n)
      case Access(_, _) => before
  }

  /** Word w is on a page that a change of size from m to n adds or drops. */
  predicate Moved(m: nat, n: nat, w: nat)
  {
    w / 512 >= PageUp(m) || w / 512 >= PageUp(n)
  }

  /** The last store to word w since its page was last added or dropped; zero if there is none since, and what was
      there at the start if the page was there all along. */
  function LastStore(s: Space, ops: seq<Op>, w: nat): (x: nat)
    requires forall op | op in ops :: IntArgument(op)
  {
    if ops == [] then WordAt(s, w)
    else
      var before := ops[..|ops| - 1];
      match ops[|ops| - 1]
      case Access(a, Store(x)) => if a / 8 == w then x else LastStore(s, before, w)
      case Access(_, Load) => LastStore(s, before, w)
      case Sbrk(n) =>
        if n != 0 && Moved(SizeAfter(s.sz, before), SizeAfter(s.sz, ops), w) then 0 else LastStore(s, before, w)
  }

  /** What an operation returns after those before it: sbrk the size, an access the word last stored. */
  function Returns(s: Space, before: seq<Op>, op: Op): (x: nat)
    requires forall o | o in before :: IntArgument(o)
  {
    match op
    case Sbrk(_) => SizeAfter(s.sz, before)
    case Access(a, _) => LastStore(s, before, a / 8)
  }

  /** What an access at a does: it finds the word there, and a store changes that word and no other. */
  ghost predicate Accessed(s: Space, t: Space, a: nat, op: Access, word: nat)
  {
    && word == WordAt(s, a / 8) && t.sz == s.sz
    && forall w: nat :: WordAt(t, w) == if op.Store? && w == a / 8 then op.word else WordAt(s, w)
  }

  lemma SameWord(a: nat, w: nat)
    ensures a / 8 / 512 == a / 4096 && a / 8 % 512 == a % 4096 / 8
    ensures w == a / 8 <==> w / 512 == a / 4096 && w % 512 == a % 4096 / 8
  {
    assert w == 512 * (w / 512) + w % 512;
    assert a == 8 * (a / 8) + a % 8;
  }

  lemma TouchedWords(s: Space, a: nat, op: Access)
    requires a / 4096 in s.mem && Touched(s, a, op).Fine?
    ensures Accessed(s, Touched(s, a, op).space, a, op, Touched(s, a, op).word)
  {
    var t := Touched(s, a, op).space;
    SameWord(a, 0);
    forall w: nat
      ensures WordAt(t, w) == if op.Store? && w == a / 8 then op.word else WordAt(s, w)
    {
      SameWord(a, w);
    }
  }

  /** Pages that are added read as zero, like those that are missing. */
  lemma AddedWords(s: Space, v: nat, n: nat, w: nat)
    ensures WordAt(Added(s, v, n), w) == if v <= w / 512 < v + n then 0 else WordAt(s, w)
  {
    assert Between(v, n, w / 512) <==> v <= w / 512 < v + n;
  }

  lemma ShrunkWords(s: Space, newsz: nat, w: nat)
    requires PagesOk(s)
    ensures WordAt(Shrunk(s, newsz), w) == if w / 512 >= PageUp(newsz) then 0 else WordAt(s, w)
  {
  }

  /** An access of the lazy process, with its fault, is an access. */
  lemma LazyWords(s: Space, a: nat, op: Access)
    requires PagesOk(s) && LazyAccess(s, a, op).Fine?
    ensures Accessed(s, LazyAccess(s, a, op).space, a, op, LazyAccess(s, a, op).word)
  {
    var v := a / 4096;
    if v in s.mem {
      TouchedWords(s, a, op);
    } else {
      assert Between(v, 1, v);
      TouchedWords(Added(s, v, 1), a, op);
      hide Touched;
      hide Added;
      hide WordAt;
      forall w: nat
        ensures WordAt(Added(s, v, 1), w) == WordAt(s, w)
      {
        AddedWords(s, v, 1, w);
        MissingWord(s, w);
      }
    }
  }

  lemma MissingWord(s: Space, w: nat)
    ensures w / 512 !in s.mem ==> WordAt(s, w) == 0
  {
  }

  lemma SbrkWords(s: Space, n: int, w: nat)
    requires PagesOk(s) && -0x80000000 <= n
    ensures EagerSbrk(s, n).sz == Resized(s.sz, n)
    ensures WordAt(EagerSbrk(s, n), w) == if n != 0 && Moved(s.sz, Resized(s.sz, n), w) then 0 else WordAt(s, w)
  {
    hide Added;
    hide Shrunk;
    if n > 0 {
      AddedWords(s, PageUp(s.sz), PageUp(s.sz + n) - PageUp(s.sz), w);
      GrownSize(s, n);
    } else if n < 0 {
      ShrunkWords(s, NewSize(s.sz, n), w);
      ShrunkSize(s, NewSize(s.sz, n));
    }
  }

  lemma GrownSize(s: Space, n: nat)
    ensures Added(s, PageUp(s.sz), PageUp(s.sz + n) - PageUp(s.sz)).(sz := s.sz + n).sz == s.sz + n
    ensures PageUp(s.sz) <= PageUp(s.sz + n)
  {
  }

  lemma ShrunkSize(s: Space, m: nat)
    ensures Shrunk(s, m).sz == if m < s.sz then m else s.sz
  {
  }

  /** One operation, on its own. */
  ghost predicate Follows(s: Space, t: Space, op: Op)
    requires IntArgument(op)
  {
    && t.sz == SizeAfter(s.sz, [op])
    && forall w: nat :: WordAt(t, w) == LastStore(s, [op], w)
  }

  lemma OneOp(s: Space, op: Op, w: nat)
    requires IntArgument(op)
    ensures SizeAfter(s.sz, [op]) == if op.Sbrk? then Resized(s.sz, op.n) else s.sz
    ensures op.Access? ==>
      LastStore(s, [op], w) == if op.op.Store? && op.a / 8 == w then op.op.word else WordAt(s, w)
    ensures op.Sbrk? ==>
      LastStore(s, [op], w) == if op.n != 0 && Moved(s.sz, Resized(s.sz, op.n), w) then 0 else WordAt(s, w)
  {
    assert [op][..0] == [];
  }

  lemma StepWords(s: Space, op: Op)
    requires IntArgument(op) && PagesOk(s) && EagerStep(s, op).Fine?
    ensures Follows(s, EagerStep(s, op).space, op) && EagerStep(s, op).word == Returns(s, [], op)
  {
    hide WordAt;
    hide LastStore;
    hide SizeAfter;
    hide Touched;
    hide EagerSbrk;
    hide Moved;
    hide Resized;
    var t := EagerStep(s, op).space;
    if op.Access? {
      TouchedWords(s, op.a, op.op);
    }
    StartWords(s);
    forall w: nat
      ensures WordAt(t, w) == LastStore(s, [op], w)
    {
      OneOp(s, op, w);
      if op.Sbrk? {
        SbrkWords(s, op.n, w);
      }
    }
    OneOp(s, op, 0);
    if op.Sbrk? {
      SbrkWords(s, op.n, 0);
    }
  }

  lemma StartWords(s: Space)
    ensures SizeAfter(s.sz, []) == s.sz && forall w: nat :: LastStore(s, [], w) == WordAt(s, w)
  {
  }

  /** Starting after the first operation makes no difference. */
  lemma {:induction false} Shift(s: Space, t: Space, op: Op, ops: seq<Op>, w: nat)
    requires IntArgument(op) && (forall o | o in ops :: IntArgument(o)) && Follows(s, t, op)
    ensures forall o | o in [op] + ops :: IntArgument(o)
    ensures SizeAfter(t.sz, ops) == SizeAfter(s.sz, [op] + ops)
    ensures LastStore(t, ops, w) == LastStore(s, [op] + ops, w)
    decreases |ops|
  {
    hide WordAt;
    hide Moved;
    hide Resized;
    if ops == [] {
      assert [op] + ops == [op];
    } else {
      var before := ops[..|ops| - 1];
      assert ([op] + ops)[..|ops|] == [op] + before;
      assert ([op] + ops)[|ops|] == ops[|ops| - 1];
      Shift(s, t, op, before, w);
    }
  }

  /** Read over write, over every run: each access returns the word last stored there, and each sbrk the size. */
  lemma {:induction false} ReadOverWrite(s: Space, ops: seq<Op>, k: nat)
    requires PagesOk(s) && Proper(s, ops) && k < |ops|
    ensures |EagerTrace(s, ops)| == |ops| && forall o | o in ops[..k] :: IntArgument(o)
    ensures EagerTrace(s, ops)[k] == Returns(s, ops[..k], ops[k])
    decreases |ops|
  {
    hide WordAt;
    hide LastStore;
    hide SizeAfter;
    hide EagerStep;
    hide Follows;
    var t := EagerStep(s, ops[0]).space;
    StepWords(s, ops[0]);
    if k == 0 {
      assert ops[..0] == [];
      if |ops| > 1 {
        ReadOverWrite(t, ops[1..], 0);
      }
    } else {
      ReadOverWrite(t, ops[1..], k - 1);
      var before := ops[1..][..k - 1];
      assert ops[..k] == [ops[0]] + before;
      Shift(s, t, ops[0], before, if ops[k].Access? then ops[k].a / 8 else 0);
    }
  }

  /** And after the run every word is what was last stored there. */
  lemma {:induction false} FinalWords(s: Space, ops: seq<Op>, w: nat)
    requires PagesOk(s) && Proper(s, ops)
    ensures forall o | o in ops :: IntArgument(o)
    ensures WordAt(EagerFinal(s, ops), w) == LastStore(s, ops, w) && EagerFinal(s, ops).sz == SizeAfter(s.sz, ops)
    decreases |ops|
  {
    hide WordAt;
    hide EagerStep;
    hide Follows;
    if ops != [] {
      hide LastStore;
      hide SizeAfter;
      var t := EagerStep(s, ops[0]).space;
      StepWords(s, ops[0]);
      FinalWords(t, ops[1..], w);
      Shift(s, t, ops[0], ops[1..], w);
      assert ops == [ops[0]] + ops[1..];
    }
  }

  /** The replies are what the operations before each of them make of it. */
  ghost predicate Remembered(s: Space, ops: seq<Op>, replies: seq<nat>)
  {
    && |replies| <= |ops| && (forall o | o in ops :: IntArgument(o))
    && forall k | 0 <= k < |replies| :: replies[k] == Returns(s, ops[..k], ops[k])
  }

  lemma TraceRemembered(s: Space, ops: seq<Op>, n: nat)
    requires PagesOk(s) && Proper(s, ops) && n <= |EagerTrace(s, ops)| <= |ops|
    ensures Remembered(s, ops, EagerTrace(s, ops)[..n])
  {
    hide EagerTrace;
    hide Proper;
    hide PagesOk;
    hide Returns;
    ProperIntArgument(s, ops);
    forall k | 0 <= k < n
      ensures EagerTrace(s, ops)[k] == Returns(s, ops[..k], ops[k])
    {
      ReadOverWrite(s, ops, k);
    }
  }
}
