/** The buffer cache of kernel/bio.c: NBUF buffers on a doubly linked list, most recently used first.

  Buffers are numbered 0..NBUF-1 and NBUF stands for bcache.head; `next` and `prev` hold the links.
  `age` gives each buffer's place on the list, 0 for the most recently used.  A buffer that was never
  used has device 0.
 */
module BufferCache {

  const NBUF: nat := 30
  const HEAD: nat := NBUF

  type Block = seq<nat>
  datatype Option<T> = None | Some(value: T)

  ghost predicate Ages(age: map<nat, nat>, n: nat)
  {
    && (forall b | b in age :: b < NBUF && age[b] < n)
    && (forall b, c | b in age && c in age && b != c :: age[b] != age[c])
  }

  /** `next` leads from the head through the `n` buffers by increasing age and back to the head. */
  ghost predicate Forward(next: seq<nat>, age: map<nat, nat>, n: nat)
  {
    && |next| == NBUF + 1
    && (forall b {:trigger next[b]} | b in age && b < NBUF ::
          if age[b] + 1 == n then next[b] == HEAD else next[b] in age && age[next[b]] == age[b] + 1)
    && if n == 0 then next[HEAD] == HEAD else next[HEAD] in age && age[next[HEAD]] == 0
  }

  /** `prev` leads from the head through the buffers by decreasing age. */
  ghost predicate Backward(prev: seq<nat>, age: map<nat, nat>, n: nat)
  {
    && |prev| == NBUF + 1
    && (forall b {:trigger prev[b]} | b in age && b < NBUF ::
          if age[b] == 0 then prev[b] == HEAD else prev[b] in age && age[prev[b]] == age[b] - 1)
    && if n == 0 then prev[HEAD] == HEAD else prev[HEAD] in age && age[prev[HEAD]] == n - 1
  }

  ghost predicate Linked(next: seq<nat>, prev: seq<nat>, age: map<nat, nat>, n: nat)
  {
    Ages(age, n) && Forward(next, age, n) && Backward(prev, age, n)
  }

  ghost function Unlinked(age: map<nat, nat>, b: nat): map<nat, nat>
    requires b in age
  {
    map c | c in age && c != b :: if age[b] < age[c] then age[c] - 1 else age[c]
  }

  ghost function Pushed(age: map<nat, nat>, b: nat): map<nat, nat>
  {
    map c | c in age.Keys + {b} :: if c == b then 0 else age[c] + 1
  }

  /** The list after brelse() has moved `b` to the front: everything that was younger ages by one place. */
  function Touched(age: map<nat, nat>, b: nat): map<nat, nat>
    requires b in age
  {
    map c | c in age :: if c == b then 0 else if age[c] < age[b] then age[c] + 1 else age[c]
  }

  /** The list after the last references to these buffers were released, in this order. */
  function Released(age: map<nat, nat>, bs: seq<nat>): (r: map<nat, nat>)
    requires forall b | b in bs :: b in age
    ensures r.Keys == age.Keys
  {
    if bs == [] then age else Touched(Released(age, bs[..|bs| - 1]), bs[|bs| - 1])
  }

  /** When buffer b was last released, counted from 1; 0 if it was not. */
  function LastRelease(bs: seq<nat>, b: nat): (n: nat)
    ensures n <= |bs|
  {
    if bs == [] then 0 else if bs[|bs| - 1] == b then |bs| else LastRelease(bs[..|bs| - 1], b)
  }

  ghost predicate DistinctAges(age: map<nat, nat>)
  {
    forall b, c | b in age && c in age && b != c :: age[b] != age[c]
  }

  lemma TouchedOrder(age: map<nat, nat>, x: nat, b: nat, c: nat)
    requires DistinctAges(age) && x in age && b in age && c in age && c != x && (b == x || age[b] < age[c]) && b != c
    ensures Touched(age, x)[b] < Touched(age, x)[c]
  {
    assert age[c] != age[x];
  }

  lemma TouchedDistinct(age: map<nat, nat>, x: nat)
    requires DistinctAges(age) && x in age
    ensures DistinctAges(Touched(age, x))
  {
    var r := Touched(age, x);
    forall b, c | b in r && c in r && b != c
      ensures r[b] != r[c]
    {
      if c != x && (b == x || age[b] < age[c]) {
        TouchedOrder(age, x, b, c);
      } else {
        assert age[b] != age[c];
        TouchedOrder(age, x, c, b);
      }
    }
  }

  lemma {:induction false} ReleasedAges(age: map<nat, nat>, bs: seq<nat>)
    requires (forall b | b in bs :: b in age) && DistinctAges(age)
    ensures DistinctAges(Released(age, bs))
  {
    hide DistinctAges;
    hide Touched;
    if bs != [] {
      ReleasedAges(age, bs[..|bs| - 1]);
      TouchedDistinct(Released(age, bs[..|bs| - 1]), bs[|bs| - 1]);
    }
  }

  /** The list is in the order of use: a buffer released after another stands before it, so that the least recently
      used one stands last. */
  lemma {:induction false} RecentFirst(age: map<nat, nat>, bs: seq<nat>, b: nat, c: nat)
    requires (forall x | x in bs :: x in age) && DistinctAges(age)
    requires b in age && c in age && LastRelease(bs, c) < LastRelease(bs, b)
    ensures Released(age, bs)[b] < Released(age, bs)[c]
  {
    hide DistinctAges;
    hide Touched;
    var before, x := bs[..|bs| - 1], bs[|bs| - 1];
    ReleasedAges(age, before);
    if x != b {
      RecentFirst(age, before, b, c);
    }
    TouchedOrder(Released(age, before), x, b, c);
  }

  lemma UnlinkForward(next: seq<nat>, prev: seq<nat>, age: map<nat, nat>, n: nat, b: nat)
    requires Linked(next, prev, age, n) && b in age
    ensures |next| == |prev| == NBUF + 1
    ensures 0 < n && next[b] <= HEAD && prev[b] <= HEAD && b < NBUF && next[b] != b && prev[b] != b
    ensures Forward(next[prev[b] := next[b]], Unlinked(age, b), n - 1)
  {
  }

  lemma UnlinkBackward(next: seq<nat>, prev: seq<nat>, age: map<nat, nat>, n: nat, b: nat)
    requires Linked(next, prev, age, n) && b in age && 0 < n && next[b] <= HEAD && b < NBUF
    ensures Backward(prev[next[b] := prev[b]], Unlinked(age, b), n - 1)
  {
  }

  lemma UnlinkKeeps(next: seq<nat>, prev: seq<nat>, age: map<nat, nat>, n: nat, b: nat)
    requires Linked(next, prev, age, n) && b in age
    ensures |next| == |prev| == NBUF + 1
    ensures 0 < n && next[b] <= HEAD && prev[b] <= HEAD && b < NBUF && next[b] != b && prev[b] != b
    ensures Linked(next[prev[b] := next[b]], prev[next[b] := prev[b]], Unlinked(age, b), n - 1)
  {
    hide Forward;
    hide Backward;
    UnlinkForward(next, prev, age, n, b);
    UnlinkBackward(next, prev, age, n, b);
  }

  lemma PushForward(next: seq<nat>, age: map<nat, nat>, n: nat, b: nat)
    requires Ages(age, n) && Forward(next, age, n) && b !in age && b < NBUF
    ensures Forward(next[b := next[HEAD]][HEAD := b], Pushed(age, b), n + 1)
  {
  }

  lemma PushBackward(next: seq<nat>, prev: seq<nat>, age: map<nat, nat>, n: nat, b: nat)
    requires Ages(age, n) && Forward(next, age, n) && Backward(prev, age, n) && b !in age && b < NBUF
    ensures next[HEAD] <= HEAD
    ensures Backward(prev[b := HEAD][next[HEAD] := b], Pushed(age, b), n + 1)
  {
    if n == 0 {
      assert age == map[];
    }
  }

  lemma PushKeeps(next: seq<nat>, prev: seq<nat>, age: map<nat, nat>, n: nat, b: nat)
    requires Linked(next, prev, age, n) && b !in age && b < NBUF
    ensures next[HEAD] <= HEAD
    ensures Linked(next[b := next[HEAD]][HEAD := b], prev[b := HEAD][next[HEAD] := b], Pushed(age, b), n + 1)
  {
    hide Forward;
    hide Backward;
    PushForward(next, age, n, b);
    PushBackward(next, prev, age, n, b);
  }

  lemma MovedToFront(next: seq<nat>, prev: seq<nat>, age: map<nat, nat>, n: nat, b: nat)
    requires Linked(next, prev, age, n) && b in age
    ensures Pushed(Unlinked(age, b), b) == Touched(age, b)
  {
    assert Pushed(Unlinked(age, b), b).Keys == age.Keys;
  }

  /** No two used buffers hold the same block. */
  ghost predicate Unique(dev: seq<nat>, blockno: seq<nat>)
    requires |dev| == NBUF && |blockno| == NBUF
  {
    forall i, j | 0 <= i < j < NBUF && dev[i] == dev[j] && dev[i] != 0 :: blockno[i] != blockno[j]
  }

  /** Buffer `i` belongs to block `bno` of device `d`. */
  ghost predicate Cached(dev: seq<nat>, blockno: seq<nat>, i: nat, d: nat, bno: nat)
  {
    i < |dev| && i < |blockno| && dev[i] == d && blockno[i] == bno
  }

  lemma AssignKeepsUnique(dev: seq<nat>, blockno: seq<nat>, v: nat, d: nat, bno: nat)
    requires |dev| == NBUF && |blockno| == NBUF && Unique(dev, blockno) && v < NBUF
    requires forall i: nat :: !Cached(dev, blockno, i, d, bno)
    ensures Unique(dev[v := d], blockno[v := bno])
  {
    assert forall i | 0 <= i < NBUF && dev[i] == d && blockno[i] == bno :: Cached(dev, blockno, i, d, bno);
  }

  /** What the filled buffers of one device say, by block number. */
  ghost function Table<T>(dev: seq<nat>, blockno: seq<nat>, valid: seq<bool>, vals: seq<T>, d: nat): map<nat, T>
    requires |dev| == NBUF && |blockno| == NBUF && |valid| == NBUF && |vals| == NBUF && Unique(dev, blockno) && d != 0
  {
    map i | 0 <= i < NBUF && valid[i] && dev[i] == d :: blockno[i] := vals[i]
  }

  lemma TableAt<T>(dev: seq<nat>, blockno: seq<nat>, valid: seq<bool>, vals: seq<T>, d: nat, i: nat)
    requires |dev| == NBUF && |blockno| == NBUF && |valid| == NBUF && |vals| == NBUF && Unique(dev, blockno)
    requires d != 0 && i < NBUF && valid[i] && dev[i] == d
    ensures blockno[i] in Table(dev, blockno, valid, vals, d)
    ensures Table(dev, blockno, valid, vals, d)[blockno[i]] == vals[i]
  {
  }

  lemma TableFrom<T>(dev: seq<nat>, blockno: seq<nat>, valid: seq<bool>, vals: seq<T>, d: nat, b: nat) returns (i: nat)
    requires |dev| == NBUF && |blockno| == NBUF && |valid| == NBUF && |vals| == NBUF && Unique(dev, blockno)
    requires d != 0 && b in Table(dev, blockno, valid, vals, d)
    ensures i < NBUF && valid[i] && dev[i] == d && blockno[i] == b
  {
    i :| 0 <= i < NBUF && valid[i] && dev[i] == d && blockno[i] == b;
  }

  /** Giving buffer `v` to an uncached block drops at most the block it held and adds the new one. */
  lemma TableLoad<T>(dev: seq<nat>, blockno: seq<nat>, valid: seq<bool>, vals: seq<T>, d: nat, v: nat, bno: nat, val: T)
    requires |dev| == NBUF && |blockno| == NBUF && |valid| == NBUF && |vals| == NBUF && Unique(dev, blockno)
    requires d != 0 && v < NBUF && forall i: nat :: !Cached(dev, blockno, i, d, bno)
    ensures Unique(dev[v := d], blockno[v := bno])
    ensures Table(dev[v := d], blockno[v := bno], valid[v := true], vals[v := val], d)
         == (Table(dev, blockno, valid, vals, d) - (if dev[v] == d then {blockno[v]} else {}))[bno := val]
  {
    AssignKeepsUnique(dev, blockno, v, d, bno);
    var dev', blockno', valid', vals' := dev[v := d], blockno[v := bno], valid[v := true], vals[v := val];
    var m := Table(dev, blockno, valid, vals, d) - (if dev[v] == d then {blockno[v]} else {});
    var m' := Table(dev', blockno', valid', vals', d);
    hide Table;
    forall b | b in m'
      ensures b in m[bno := val] && m'[b] == m[bno := val][b]
    {
      var i := TableFrom(dev', blockno', valid', vals', d, b);
      TableAt(dev', blockno', valid', vals', d, i);
      if i != v {
        TableAt(dev, blockno, valid, vals, d, i);
        assert !Cached(dev, blockno, i, d, bno);
      }
    }
    forall b | b in m[bno := val]
      ensures b in m'
    {
      if b == bno {
        TableAt(dev', blockno', valid', vals', d, v);
      } else {
        var i := TableFrom(dev, blockno, valid, vals, d, b);
        TableAt(dev', blockno', valid', vals', d, i);
      }
    }
  }

  /** Changing what one buffer says changes the entry of its block. */
  lemma TablePut<T>(dev: seq<nat>, blockno: seq<nat>, valid: seq<bool>, vals: seq<T>, d: nat, v: nat, val: T)
    requires |dev| == NBUF && |blockno| == NBUF && |valid| == NBUF && |vals| == NBUF && Unique(dev, blockno)
    requires d != 0 && v < NBUF && valid[v] && dev[v] == d
    ensures blockno[v] in Table(dev, blockno, valid, vals, d)
    ensures Table(dev, blockno, valid, vals[v := val], d) == Table(dev, blockno, valid, vals, d)[blockno[v] := val]
  {
    TableAt(dev, blockno, valid, vals, d, v);
    var m, m' := Table(dev, blockno, valid, vals, d), Table(dev, blockno, valid, vals[v := val], d);
    hide Table;
    forall b | b in m'
      ensures b in m && m'[b] == m[blockno[v] := val][b]
    {
      var i := TableFrom(dev, blockno, valid, vals[v := val], d, b);
      TableAt(dev, blockno, valid, vals[v := val], d, i);
      TableAt(dev, blockno, valid, vals, d, i);
    }
    forall b | b in m
      ensures b in m'
    {
      var i := TableFrom(dev, blockno, valid, vals, d, b);
      TableAt(dev, blockno, valid, vals[v := val], d, i);
    }
  }

  /** The cache of one device as its users see it: contents and references, by block number. */
  datatype Cache = Cache(data: map<nat, Block>, refs: map<nat, nat>)

  /** A block was read: it is referenced once more, or loaded; room is made by dropping at most one block that nobody
      references, so neither a block in use nor a pinned one is ever dropped. */
  ghost predicate Got(c: Cache, c': Cache, b: nat, block: Block)
  {
    if b in c.data then b in c.refs && c' == c.(refs := c.refs[b := c.refs[b] + 1])
    else exists drop: set<nat> :: Dropped(c, drop) && c' == Cache((c.data - drop)[b := block], (c.refs - drop)[b := 1])
  }

  ghost predicate Dropped(c: Cache, drop: set<nat>)
  {
    drop == {} || exists v: nat :: drop == {v} && v in c.refs && c.refs[v] == 0
  }

  /** The references of a cached block change by `k`, and nothing else does. */
  ghost predicate Counted(c: Cache, c': Cache, b: nat, k: int)
  {
    b in c.refs && c.refs[b] + k >= 0 && c' == c.(refs := c.refs[b := c.refs[b] + k])
  }

  lemma CountedPut(dev: seq<nat>, blockno: seq<nat>, valid: seq<bool>, data: seq<Block>, refcnt: seq<nat>, v: nat,
                   k: int)
    requires |dev| == NBUF && |blockno| == NBUF && |valid| == NBUF && |data| == NBUF && |refcnt| == NBUF
    requires Unique(dev, blockno) && v < NBUF && valid[v] && dev[v] != 0 && refcnt[v] + k >= 0
    ensures Counted(Cache(Table(dev, blockno, valid, data, dev[v]), Table(dev, blockno, valid, refcnt, dev[v])),
                    Cache(Table(dev, blockno, valid, data, dev[v]),
                          Table(dev, blockno, valid, refcnt[v := refcnt[v] + k], dev[v])), blockno[v], k)
  {
    TableAt(dev, blockno, valid, refcnt, dev[v], v);
    TablePut(dev, blockno, valid, refcnt, dev[v], v, refcnt[v] + k);
    hide Table;
  }

  lemma GotHit(dev: seq<nat>, blockno: seq<nat>, valid: seq<bool>, data: seq<Block>, refcnt: seq<nat>, d: nat, v: nat,
               block: Block)
    requires |dev| == NBUF && |blockno| == NBUF && |valid| == NBUF && |data| == NBUF && |refcnt| == NBUF
    requires Unique(dev, blockno) && d != 0 && v < NBUF && valid[v] && dev[v] == d
    ensures
      Got(Cache(Table(dev, blockno, valid, data, d), Table(dev, blockno, valid, refcnt, d)),
          Cache(Table(dev, blockno, valid, data, d), Table(dev, blockno, valid, refcnt[v := refcnt[v] + 1], d)),
          blockno[v], block)
  {
    TableAt(dev, blockno, valid, data, d, v);
    TableAt(dev, blockno, valid, refcnt, d, v);
    TablePut(dev, blockno, valid, refcnt, d, v, refcnt[v] + 1);
    hide Table;
  }

  lemma GotMiss(dev: seq<nat>, blockno: seq<nat>, valid: seq<bool>, data: seq<Block>, refcnt: seq<nat>, d: nat, v: nat,
                bno: nat, block: Block)
    requires |dev| == NBUF && |blockno| == NBUF && |valid| == NBUF && |data| == NBUF && |refcnt| == NBUF
    requires Unique(dev, blockno) && d != 0 && v < NBUF && refcnt[v] == 0 && (dev[v] != 0 ==> valid[v])
    requires forall i: nat :: !Cached(dev, blockno, i, d, bno)
    ensures Unique(dev[v := d], blockno[v := bno])
    ensures Got(Cache(Table(dev, blockno, valid, data, d), Table(dev, blockno, valid, refcnt, d)),
                Cache(Table(dev[v := d], blockno[v := bno], valid[v := true], data[v := block], d),
                      Table(dev[v := d], blockno[v := bno], valid[v := true], refcnt[v := 1], d)), bno, block)
  {
    TableLoad(dev, blockno, valid, data, d, v, bno, block);
    TableLoad(dev, blockno, valid, refcnt, d, v, bno, 1);
    var c := Cache(Table(dev, blockno, valid, data, d), Table(dev, blockno, valid, refcnt, d));
    assert forall i | 0 <= i < NBUF && dev[i] == d && blockno[i] == bno :: Cached(dev, blockno, i, d, bno);
    assert bno !in c.data;
    var drop := if dev[v] == d then {blockno[v]} else {};
    if dev[v] == d {
      TableAt(dev, blockno, valid, refcnt, d, v);
    }
    hide Table;
    assert Dropped(c, drop);
  }

  class Bcache {
    var next: seq<nat>
    var prev: seq<nat>
    var dev: seq<nat>
    var blockno: seq<nat>
    var valid: seq<bool>
    var refcnt: seq<nat>
    var data: seq<Block>
    var disk: seq<Block>
    ghost var age: map<nat, nat>

    ghost predicate Valid()
      reads this
    {
      && |dev| == NBUF && |blockno| == NBUF && |valid| == NBUF && |refcnt| == NBUF && |data| == NBUF
      && Linked(next, prev, age, NBUF)
      && (forall b | 0 <= b < NBUF :: b in age)
      && Unique(dev, blockno)
    }

    /** Every buffer that belongs to a block holds it. */
    ghost predicate AllFilled()
      reads this
    {
      |dev| == |valid| && forall i | 0 <= i < |dev| && dev[i] != 0 :: valid[i]
    }

    ghost function View(d: nat): Cache
      requires Valid() && d != 0
      reads this
    {
      Cache(Table(dev, blockno, valid, data, d), Table(dev, blockno, valid, refcnt, d))
    }

    /** binit(): every buffer is unused and on the list. */
    constructor (disk: seq<Block>)
      ensures Valid() && this.disk == disk
      ensures forall i | 0 <= i < NBUF :: dev[i] == 0 && refcnt[i] == 0 && !valid[i]
      ensures AllFilled()
    {
      next, prev := seq(NBUF + 1, _ => HEAD), seq(NBUF + 1, _ => HEAD);
      dev, blockno, refcnt := seq(NBUF, _ => 0), seq(NBUF, _ => 0), seq(NBUF, _ => 0);
      valid, data := seq(NBUF, _ => false), seq(NBUF, _ => []);
      age := map[];
      this.disk := disk;
      new;
      LinkAll();
    }

    /** The loop of binit(). */
    method LinkAll()
      requires next == seq(NBUF + 1, _ => HEAD) && prev == seq(NBUF + 1, _ => HEAD) && age == map[]
      modifies `next, `prev, `age
      ensures Linked(next, prev, age, NBUF) && forall c :: c in age <==> 0 <= c < NBUF
    {
      assert Linked(next, prev, age, 0);
      hide Linked;
      var b := 0;
      while b < NBUF
        invariant 0 <= b <= NBUF && Linked(next, prev, age, b)
        invariant forall c :: c in age <==> 0 <= c < b
      {
        PushFront(b, b);
        b := b + 1;
      }
    }

    /** The four stores that put a buffer at the front of the list. */
    method PushFront(b: nat, ghost n: nat)
      requires Linked(next, prev, age, n) && b !in age && b < NBUF
      modifies `next, `prev, `age
      ensures Linked(next, prev, age, n + 1) && age == Pushed(old(age), b)
    {
      PushKeeps(next, prev, age, n, b);
      hide Linked;
      next := next[b := next[HEAD]];
      prev := prev[b := HEAD];
      prev := prev[next[HEAD] := b];
      next := next[HEAD := b];
      age := Pushed(age, b);
    }

    /** The first loop of bget(): the buffer that holds the block, if any. */
    method Find(d: nat, bno: nat) returns (r: Option<nat>)
      requires Valid()
      ensures r.Some? ==> Cached(dev, blockno, r.value, d, bno)
      ensures r.None? ==> forall i: nat :: !Cached(dev, blockno, i, d, bno)
    {
      var b := next[HEAD];
      ghost var k := 0;
      while b != HEAD
        invariant 0 <= k <= NBUF
        invariant if b == HEAD then k == NBUF else b in age && age[b] == k
        invariant forall i | 0 <= i < NBUF && age[i] < k :: !Cached(dev, blockno, i, d, bno)
        decreases NBUF - k
      {
        if dev[b] == d && blockno[b] == bno {
          return Some(b);
        }
        b := next[b];
        k := k + 1;
      }
      return None;
    }

    /** The second loop of bget(): the least recently used of the unreferenced buffers. */
    method FindUnused() returns (r: Option<nat>)
      requires Valid()
      ensures r.Some? ==> r.value < NBUF && refcnt[r.value] == 0
      ensures r.Some? ==> forall i | 0 <= i < NBUF && refcnt[i] == 0 :: age[i] <= age[r.value]
      ensures r.None? ==> forall i | 0 <= i < NBUF :: refcnt[i] != 0
    {
      var b := prev[HEAD];
      ghost var k := NBUF;
      while b != HEAD
        invariant 0 <= k <= NBUF
        invariant if b == HEAD then k == 0 else b in age && age[b] + 1 == k
        invariant forall i | 0 <= i < NBUF && k <= age[i] :: refcnt[i] != 0
        decreases k
      {
        if refcnt[b] == 0 {
          return Some(b);
        }
        b := prev[b];
        k := k - 1;
      }
      return None;
    }

    /** bget(): the buffer of the block if it is cached; otherwise the least recently used unreferenced
        buffer, emptied and given to the block; None, a panic in the kernel, if every buffer is referenced. */
    method Bget(d: nat, bno: nat) returns (r: Option<nat>)
      requires Valid() && d != 0
      modifies `dev, `blockno, `valid, `refcnt
      ensures Valid()
      ensures r.None? ==> (forall i: nat :: !Cached(old(dev), old(blockno), i, d,
                                                    bno)) && (forall i | 0 <= i < NBUF :: old(refcnt)[i] != 0)
      ensures r.None? ==> dev == old(dev) && blockno == old(blockno) && valid == old(valid) && refcnt == old(refcnt)
      ensures r.Some? ==>
        Cached(dev, blockno, r.value, d, bno) && refcnt == old(refcnt)[r.value := old(refcnt)[r.value] + 1]
      ensures r.Some? && Cached(old(dev), old(blockno), r.value, d, bno) ==>
        dev == old(dev) && blockno == old(blockno) && valid == old(valid)
      ensures r.Some? && !Cached(old(dev), old(blockno), r.value, d, bno) ==>
        && dev == old(dev)[r.value := d] && blockno == old(blockno)[r.value := bno]
        && valid == old(valid)[r.value := false]
        && old(refcnt)[r.value] == 0
        && (forall i: nat :: !Cached(old(dev), old(blockno), i, d, bno))
        && (forall i | 0 <= i < NBUF && old(refcnt)[i] == 0 :: age[i] <= age[r.value])
    {
      hide Linked;
      r := Find(d, bno);
      if r.Some? {
        refcnt := refcnt[r.value := refcnt[r.value] + 1];
        return;
      }
      r := FindUnused();
      if r.Some? {
        AssignKeepsUnique(dev, blockno, r.value, d, bno);
        dev := dev[r.value := d];
        blockno := blockno[r.value := bno];
        valid := valid[r.value := false];
        refcnt := refcnt[r.value := 1];
      }
    }

    /** bread(): the block's buffer, filled from the disk unless it already holds the block. */
    method Bread(d: nat, bno: nat) returns (r: Option<nat>)
      requires Valid() && d != 0 && bno < |disk|
      modifies `dev, `blockno, `valid, `refcnt, `data
      ensures Valid()
      ensures r.None? ==> data == old(data) && dev == old(dev) && blockno == old(blockno) && valid == old(valid)
      ensures r.None? ==> refcnt == old(refcnt)
      ensures r.Some? ==>
        Cached(dev, blockno, r.value, d, bno) && valid[r.value] && refcnt[r.value] == old(refcnt)[r.value] + 1
      ensures r.Some? ==> (if Cached(old(dev), old(blockno), r.value, d, bno) && old(valid)[r.value]
                           then data[r.value] == old(data)[r.value] else data[r.value] == disk[bno])
      ensures r.Some? && !Cached(old(dev), old(blockno), r.value, d, bno) ==> old(refcnt)[r.value] == 0
      ensures forall i | 0 <= i < NBUF && r != Some(i) ::
        dev[i] == old(dev)[i] && blockno[i] == old(blockno)[i] && valid[i] == old(valid)[i]
        && refcnt[i] == old(refcnt)[i] && data[i] == old(data)[i]
      ensures old(AllFilled()) ==> AllFilled()
      ensures old(AllFilled()) && r.Some? ==> Got(old(View(d)), View(d), bno, disk[bno])
    {
      hide Linked;
      hide Table;
      hide Got;
      r := Bget(d, bno);
      if r.Some? {
        ghost var v := r.value;
        if !valid[r.value] {
          data := data[r.value := disk[bno]];
          valid := valid[r.value := true];
        }
        if old(AllFilled()) {
          if Cached(old(dev), old(blockno), v, d, bno) {
            GotHit(old(dev), old(blockno), old(valid), old(data), old(refcnt), d, v, disk[bno]);
          } else {
            assert data == old(data)[v := disk[bno]] && valid == old(valid)[v := true] && refcnt == old(refcnt)[v := 1];
            GotMiss(old(dev), old(blockno), old(valid), old(data), old(refcnt), d, v, bno, disk[bno]);
          }
        }
      }
    }

    /** bwrite(). */
    method Bwrite(b: nat)
      requires Valid() && b < NBUF && blockno[b] < |disk|
      modifies `disk
      ensures disk == old(disk)[blockno[b] := data[b]]
    {
      disk := disk[blockno[b] := data[b]];
    }

    /** The two stores that take a buffer off the list. */
    method Unlink(b: nat, ghost n: nat)
      requires Linked(next, prev, age, n) && b in age
      modifies `next, `prev, `age
      ensures 0 < n && Linked(next, prev, age, n - 1) && age == Unlinked(old(age), b)
    {
      hide Linked;
      UnlinkKeeps(next, prev, age, n, b);
      prev := prev[next[b] := prev[b]];
      next := next[prev[b] := next[b]];
      age := Unlinked(age, b);
    }

    /** brelse(): the last reference moves the buffer to the front of the list. */
    method Brelse(b: nat)
      requires Valid() && b < NBUF && refcnt[b] > 0
      modifies `refcnt, `next, `prev, `age
      ensures Valid()
      ensures refcnt == old(refcnt)[b := old(refcnt)[b] - 1]
      ensures age == if refcnt[b] == 0 then Touched(old(age), b) else old(age)
      ensures valid[b] && dev[b] != 0 ==> Counted(old(View(dev[b])), View(dev[b]), blockno[b], -1)
    {
      hide Linked;
      hide Table;
      hide Counted;
      if valid[b] && dev[b] != 0 {
        CountedPut(dev, blockno, valid, data, refcnt, b, -1);
      }
      refcnt := refcnt[b := refcnt[b] - 1];
      if refcnt[b] == 0 {
        MovedToFront(next, prev, age, NBUF, b);
        Unlink(b, NBUF);
        PushFront(b, NBUF - 1);
      }
    }

    /** bpin() and bunpin(): a pinned buffer is referenced, so bget() cannot recycle it. */
    method Bpin(b: nat)
      requires Valid() && b < NBUF
      modifies `refcnt
      ensures Valid() && refcnt == old(refcnt)[b := old(refcnt)[b] + 1]
      ensures valid[b] && dev[b] != 0 ==> Counted(old(View(dev[b])), View(dev[b]), blockno[b], 1)
    {
      hide Linked;
      hide Table;
      hide Counted;
      if valid[b] && dev[b] != 0 {
        CountedPut(dev, blockno, valid, data, refcnt, b, 1);
      }
      refcnt := refcnt[b := refcnt[b] + 1];
    }

    method Bunpin(b: nat)
      requires Valid() && b < NBUF && refcnt[b] > 0
      modifies `refcnt
      ensures Valid() && refcnt == old(refcnt)[b := old(refcnt)[b] - 1]
      ensures valid[b] && dev[b] != 0 ==> Counted(old(View(dev[b])), View(dev[b]), blockno[b], -1)
    {
      hide Linked;
      hide Table;
      hide Counted;
      if valid[b] && dev[b] != 0 {
        CountedPut(dev, blockno, valid, data, refcnt, b, -1);
      }
      refcnt := refcnt[b := refcnt[b] - 1];
    }
  }
}
