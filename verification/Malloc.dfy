/** The user-space storage allocator of user/umalloc.c.

  Addresses count units of one header (16 bytes).  `mem` is the process memory
  below the program break; a cell is read as a header only where the code reads
  one.  The free list is circular, threaded through `ptr`, and the static header
  `base` (a block of size 0, below the heap) is always on it.
 */
module Malloc {

  const HEADER_BYTES: nat := 16
  const MIN_CORE: nat := 4096
  const UINT_LIMIT: nat := 0x1_0000_0000

  datatype Option<T> = None | Some(value: T)

  /** Number of units that hold `nbytes` bytes and one header. */
  function Units(nbytes: nat): (n: nat)
    ensures (n - 1) * HEADER_BYTES >= nbytes && n >= 1
    ensures n >= 2 ==> (n - 2) * HEADER_BYTES < nbytes
  {
    (nbytes + HEADER_BYTES - 1) / HEADER_BYTES + 1
  }

  /** A circular list in address order over the set `free`, starting at `base`; blocks are disjoint. */
  ghost predicate Chain(ptr: seq<nat>, size: seq<nat>, base: nat, free: set<nat>)
  {
    && |ptr| == |size|
    && base in free && 0 < base
    && (forall a | a in free :: base <= a < |size| && a + size[a] <= |size|)
    && (forall a | a in free :: 0 < size[a] <==> a != base)
    && (forall a {:trigger ptr[a]} | a in free :: ptr[a] in free && (ptr[a] <= a ==> ptr[a] == base))
    && (forall a, c {:trigger ptr[a], c in free} | a in free && c in free && a < c :: a < ptr[a] <= c)
    && (forall a, c | a in free && c in free && a < c :: a + size[a] <= c)
  }

  /** `live` maps the header address of every block handed out to its size in
      units; live blocks overlap neither each other nor a free block. */
  ghost predicate LiveBlocks(size: seq<nat>, base: nat, free: set<nat>, live: map<nat, nat>)
    requires forall a | a in free :: a < |size|
  {
    && (forall a | a in live :: base < a && 0 < live[a] && a + live[a] <= |size| && size[a] == live[a])
    && (forall a, b | a in live && b in live && a < b :: a + live[a] <= b)
    && (forall a, f | a in live && f in free :: a + live[a] <= f || (f < a && f + size[f] <= a))
  }

  ghost predicate FreeUnit(size: seq<nat>, free: set<nat>, u: nat)
    requires forall a | a in free :: a < |size|
  {
    exists a :: a in free && a <= u < a + size[a]
  }

  ghost predicate LiveUnit(live: map<nat, nat>, u: nat)
  {
    exists a :: a in live && a <= u < a + live[a]
  }

  /** The free chain and the live blocks partition the units obtained from the kernel. */
  ghost predicate Partition(ptr: seq<nat>, size: seq<nat>, base: nat, free: set<nat>,
                            live: map<nat, nat>, arena: set<nat>)
  {
    && Chain(ptr, size, base, free)
    && LiveBlocks(size, base, free, live)
    && (forall u: nat :: u in arena <==> FreeUnit(size, free, u) || LiveUnit(live, u))
  }

  /** No free block touches the next one. */
  ghost predicate Coalesced(size: seq<nat>, free: set<nat>)
    requires forall a | a in free :: a < |size|
  {
    forall a, c | a in free && c in free && a < c :: a + size[a] < c
  }

  ghost predicate Consistent(ptr: seq<nat>, size: seq<nat>, base: nat, free: set<nat>,
                             live: map<nat, nat>, arena: set<nat>)
  {
    Partition(ptr, size, base, free, live, arena) && Coalesced(size, free)
  }

  lemma OnList(ptr: seq<nat>, size: seq<nat>, base: nat, free: set<nat>,
               live: map<nat, nat>, arena: set<nat>, a: nat)
    requires Consistent(ptr, size, base, free, live, arena) && a in free
    ensures |ptr| == |size| && 0 < a < |size| && ptr[a] in free && ptr[a] < |size|
    ensures 0 < size[ptr[a]] ==> ptr[a] != base
    ensures a + size[a] <= |size|
  {
  }

  // ---- free ----

  /** The free block after which `bp` belongs. */
  ghost predicate GapAt(free: set<nat>, g: nat, bp: nat)
  {
    g in free && g < bp && forall c | c in free :: c <= g || bp < c
  }

  lemma {:induction false} GapExists(free: set<nat>, low: nat, bp: nat) returns (g: nat)
    requires low in free && low < bp && bp !in free
    ensures GapAt(free, g, bp)
    decreases bp - low
  {
    if c :| c in free && low < c < bp {
      g := GapExists(free, c, bp);
    } else {
      g := low;
    }
  }

  lemma InsertChain(ptr: seq<nat>, size: seq<nat>, base: nat, free: set<nat>, p: nat, bp: nat)
    requires Chain(ptr, size, base, free) && GapAt(free, p, bp)
    requires bp < |size| && bp + size[bp] <= |size| && 0 < size[bp]
    requires p + size[p] <= bp
    requires forall c | c in free && bp < c :: bp + size[bp] <= c
    ensures Chain(ptr[bp := ptr[p]][p := bp], size, base, free + {bp})
  {
  }

  /** Putting a live block on the chain moves its units from live to free. */
  lemma InsertPartition(ptr: seq<nat>, size: seq<nat>, base: nat, free: set<nat>,
                        live: map<nat, nat>, arena: set<nat>, p: nat, bp: nat)
    requires Partition(ptr, size, base, free, live, arena) && bp in live && GapAt(free, p, bp)
    ensures Partition(ptr[bp := ptr[p]][p := bp], size, base, free + {bp}, live - {bp}, arena)
  {
    InsertChain(ptr, size, base, free, p, bp);
    InsertUnits(size, free, live, bp);
  }

  lemma InsertUnits(size: seq<nat>, free: set<nat>, live: map<nat, nat>, bp: nat)
    requires forall c | c in free :: c < |size|
    requires bp in live && bp < |size| && size[bp] == live[bp]
    ensures forall u: nat :: FreeUnit(size, free, u) || LiveUnit(live, u)
                         <==> FreeUnit(size, free + {bp}, u) || LiveUnit(live - {bp}, u)
  {
    forall u: nat
      ensures FreeUnit(size, free, u) || LiveUnit(live, u) <==> FreeUnit(size, free + {bp}, u) || LiveUnit(live - {bp}, u)
    {
      if FreeUnit(size, free, u) {
        var a :| a in free && a <= u < a + size[a];
        assert a in free + {bp};
      } else if LiveUnit(live, u) {
        var a :| a in live && a <= u < a + live[a];
        assert a == bp || a in live - {bp};
        assert bp in free + {bp};
      }
    }
  }

  lemma MergeChain(ptr: seq<nat>, size: seq<nat>, base: nat, free: set<nat>, a: nat, s: nat)
    requires Chain(ptr, size, base, free) && a in free && s == ptr[a] && a + size[a] == s && a != base
    ensures Chain(ptr[a := ptr[s]], size[a := size[a] + size[s]], base, free - {s})
  {
  }

  /** Merging two touching free blocks frees and loses no unit. */
  lemma MergePartition(ptr: seq<nat>, size: seq<nat>, base: nat, free: set<nat>,
                       live: map<nat, nat>, arena: set<nat>, a: nat, s: nat)
    requires Partition(ptr, size, base, free, live, arena)
    requires a in free && s == ptr[a] && a + size[a] == s && a != base
    ensures Partition(ptr[a := ptr[s]], size[a := size[a] + size[s]], base, free - {s}, live, arena)
  {
    MergeChain(ptr, size, base, free, a, s);
    var size' := size[a := size[a] + size[s]];
    forall u: nat
      ensures FreeUnit(size', free - {s}, u) <==> FreeUnit(size, free, u)
    {
      MergeUnits(size, free, a, s, u);
    }
  }

  lemma MergeUnits(size: seq<nat>, free: set<nat>, a: nat, s: nat, u: nat)
    requires forall c | c in free :: c < |size|
    requires a in free && s in free && a != s && a + size[a] == s
    ensures FreeUnit(size[a := size[a] + size[s]], free - {s}, u) <==> FreeUnit(size, free, u)
  {
    var size' := size[a := size[a] + size[s]];
    if FreeUnit(size, free, u) {
      var c :| c in free && c <= u < c + size[c];
      var d := if c == s then a else c;
      assert d in free - {s} && d <= u < d + size'[d];
    }
    if FreeUnit(size', free - {s}, u) {
      var c :| c in free - {s} && c <= u < c + size'[c];
      var d := if c == a && s <= u then s else c;
      assert d in free && d <= u < d + size[d];
    }
  }

  /** The two stores to `ptr` made by free(), as one value. */
  function LinkPtr(ptr: seq<nat>, size: seq<nat>, p: nat, bp: nat): seq<nat>
    requires |ptr| == |size| && p < |ptr| && bp < |ptr| && ptr[p] < |ptr|
  {
    var ptr1 := ptr[bp := if bp + size[bp] == ptr[p] then ptr[ptr[p]] else ptr[p]];
    ptr1[p := if p + size[p] == bp then ptr1[bp] else bp]
  }

  function LinkSize(ptr: seq<nat>, size: seq<nat>, p: nat, bp: nat): seq<nat>
    requires |ptr| == |size| && p < |ptr| && bp < |ptr| && ptr[p] < |ptr|
  {
    var size1 := if bp + size[bp] == ptr[p] then size[bp := size[bp] + size[ptr[p]]] else size;
    if p + size[p] == bp then size1[p := size1[p] + size1[bp]] else size1
  }

  ghost predicate NearlyCoalesced(size: seq<nat>, free: set<nat>, p: nat, bp: nat)
    requires forall a | a in free :: a < |size|
  {
    forall a, c | a in free && c in free && a < c && !(a == p && c == bp) :: a + size[a] < c
  }

  lemma GapFacts(ptr: seq<nat>, size: seq<nat>, base: nat, free: set<nat>,
                 live: map<nat, nat>, arena: set<nat>, p: nat, bp: nat)
    requires Consistent(ptr, size, base, free, live, arena) && bp in live && GapAt(free, p, bp)
    ensures |ptr| == |size| && 0 < p < bp < |size| && ptr[p] < |size| && ptr[ptr[p]] < |size|
    ensures live[bp] == size[bp] && (p + size[p] == bp ==> p != base)
    ensures bp !in free && bp != base && ptr[p] in free
    ensures forall c | c in free + {bp} - {ptr[p]} :: c < |size|
    ensures if bp + size[bp] == ptr[p]
            then ptr[p] != p && NearlyCoalesced(size[bp := size[bp] + size[ptr[p]]], free + {bp} - {ptr[p]}, p, bp)
            else NearlyCoalesced(size, free + {bp}, p, bp)
  {
    assert ptr[p] in free;
    assert ptr[ptr[p]] in free;
  }

  /** The first half of free(): the block is on the list, merged with its successor if they touch,
      and only `p` and `bp` can still touch. */
  lemma LinkNext(ptr: seq<nat>, size: seq<nat>, base: nat, free: set<nat>,
                 live: map<nat, nat>, arena: set<nat>, p: nat, bp: nat)
    returns (ptr1: seq<nat>, size1: seq<nat>, free1: set<nat>)
    requires Consistent(ptr, size, base, free, live, arena) && bp in live && GapAt(free, p, bp)
    ensures Partition(ptr1, size1, base, free1, live - {bp}, arena)
    ensures {p, bp} <= free1 && NearlyCoalesced(size1, free1, p, bp)
    ensures |ptr| == |size| && p < bp < |size| && ptr[p] < |size|
    ensures ptr1 == ptr[bp := if bp + size[bp] == ptr[p] then ptr[ptr[p]] else ptr[p]][p := bp]
    ensures size1 == if bp + size[bp] == ptr[p] then size[bp := size[bp] + size[ptr[p]]] else size
  {
    hide Partition;
    hide Coalesced;
    hide NearlyCoalesced;
    GapFacts(ptr, size, base, free, live, arena, p, bp);
    var next := ptr[p];
    InsertPartition(ptr, size, base, free, live, arena, p, bp);
    ptr1, size1, free1 := ptr[bp := next][p := bp], size, free + {bp};
    if bp + size[bp] == next {
      MergePartition(ptr1, size1, base, free1, live - {bp}, arena, bp, next);
      assert ptr1[bp := ptr1[next]] == ptr[bp := ptr[next]][p := bp];
      ptr1, size1, free1 := ptr1[bp := ptr1[next]], size1[bp := size1[bp] + size1[next]], free1 - {next};
    }
  }

  lemma MergeCoalesced(ptr: seq<nat>, size: seq<nat>, base: nat, free: set<nat>,
                       live: map<nat, nat>, arena: set<nat>, p: nat, bp: nat)
    requires Partition(ptr, size, base, free, live, arena) && NearlyCoalesced(size, free, p, bp)
    requires p in free && bp in free && p + size[p] == bp && p < bp
    ensures Coalesced(size[p := size[p] + size[bp]], free - {bp})
  {
  }

  lemma GapCoalesced(ptr: seq<nat>, size: seq<nat>, base: nat, free: set<nat>,
                     live: map<nat, nat>, arena: set<nat>, p: nat, bp: nat)
    requires Partition(ptr, size, base, free, live, arena) && NearlyCoalesced(size, free, p, bp)
    requires p in free && bp in free && p + size[p] != bp
    ensures Coalesced(size, free)
  {
  }

  /** The heart of free(): one returned block and up to two merges keep the heap consistent. */
  lemma LinkConsistent(ptr: seq<nat>, size: seq<nat>, base: nat, free: set<nat>,
                       live: map<nat, nat>, arena: set<nat>, p: nat, bp: nat)
    returns (free': set<nat>)
    requires Consistent(ptr, size, base, free, live, arena) && bp in live && GapAt(free, p, bp)
    ensures p in free' && 0 < p && bp < |size|
    ensures Consistent(LinkPtr(ptr, size, p, bp), LinkSize(ptr, size, p, bp), base, free', live - {bp}, arena)
    ensures Fits(LinkSize(ptr, size, p, bp), free', live[bp])
  {
    hide Partition;
    hide Coalesced;
    hide NearlyCoalesced;
    GapFacts(ptr, size, base, free, live, arena, p, bp);
    var ptr1, size1, free1 := LinkNext(ptr, size, base, free, live, arena, p, bp);
    if p + size[p] == bp {
      MergePartition(ptr1, size1, base, free1, live - {bp}, arena, p, bp);
      MergeCoalesced(ptr1, size1, base, free1, live - {bp}, arena, p, bp);
      free' := free1 - {bp};
      assert LinkPtr(ptr, size, p, bp) == ptr1[p := ptr1[bp]];
      assert LinkSize(ptr, size, p, bp) == size1[p := size1[p] + size1[bp]];
      assert live[bp] <= LinkSize(ptr, size, p, bp)[p];
    } else {
      GapCoalesced(ptr1, size1, base, free1, live - {bp}, arena, p, bp);
      free' := free1;
      assert LinkPtr(ptr, size, p, bp) == ptr1;
      assert live[bp] <= LinkSize(ptr, size, p, bp)[bp];
    }
  }

  // ---- malloc ----

  /** Unlinking a whole free block hands all its units out. */
  lemma TakeWhole(ptr: seq<nat>, size: seq<nat>, base: nat, free: set<nat>,
                  live: map<nat, nat>, arena: set<nat>, prevp: nat, p: nat)
    requires Consistent(ptr, size, base, free, live, arena)
    requires prevp in free && p == ptr[prevp] && p != base
    ensures prevp in free - {p}
    ensures p !in live
    ensures Consistent(ptr[prevp := ptr[p]], size, base, free - {p}, live[p := size[p]], arena)
  {
    UnlinkChain(ptr, size, base, free, prevp, p);
    TakeUnits(size, free, live, p, free - {p}, size, p, size[p]);
  }

  lemma UnlinkChain(ptr: seq<nat>, size: seq<nat>, base: nat, free: set<nat>, prevp: nat, p: nat)
    requires Chain(ptr, size, base, free) && prevp in free && p == ptr[prevp] && p != base
    ensures p in free && prevp != p
    ensures Chain(ptr[prevp := ptr[p]], size, base, free - {p})
  {
    assert ptr[p] in free;
  }

  /** Splitting a free block hands its last `n` units out and keeps the rest in place. */
  lemma TakeTail(ptr: seq<nat>, size: seq<nat>, base: nat, free: set<nat>,
                 live: map<nat, nat>, arena: set<nat>, p: nat, n: nat)
    requires Consistent(ptr, size, base, free, live, arena)
    requires p in free && 0 < n < size[p]
    ensures p + (size[p] - n) !in live
    ensures Consistent(ptr, size[p := size[p] - n][p + (size[p] - n) := n], base, free,
                       live[p + (size[p] - n) := n], arena)
  {
    var a := p + (size[p] - n);
    ShrinkChain(ptr, size, base, free, p, n);
    TailLive(size, base, free, live, p, n);
    TakeUnits(size, free, live, p, free, size[p := size[p] - n][a := n], a, n);
  }

  lemma ShrinkChain(ptr: seq<nat>, size: seq<nat>, base: nat, free: set<nat>, p: nat, n: nat)
    requires Chain(ptr, size, base, free) && Coalesced(size, free) && p in free && 0 < n < size[p]
    ensures p + (size[p] - n) !in free
    ensures Chain(ptr, size[p := size[p] - n][p + (size[p] - n) := n], base, free)
    ensures Coalesced(size[p := size[p] - n][p + (size[p] - n) := n], free)
  {
  }

  lemma TailLive(size: seq<nat>, base: nat, free: set<nat>, live: map<nat, nat>, p: nat, n: nat)
    requires forall a | a in free :: base <= a < |size| && a + size[a] <= |size|
    requires forall a, c | a in free && c in free && a < c :: a + size[a] <= c
    requires LiveBlocks(size, base, free, live) && p in free && 0 < n < size[p]
    ensures p + (size[p] - n) !in live
    ensures LiveBlocks(size[p := size[p] - n][p + (size[p] - n) := n], base, free, live[p + (size[p] - n) := n])
  {
  }

  /** Cutting the units [a, a + n) off the end of the free block `p` moves just those units to live. */
  lemma TakeUnits(size: seq<nat>, free: set<nat>, live: map<nat, nat>, p: nat,
                  free': set<nat>, size': seq<nat>, a: nat, n: nat)
    requires forall c | c in free :: c < |size|
    requires p in free && a !in live && p <= a && a + n == p + size[p]
    requires free' <= free <= free' + {p} && |size'| == |size|
    requires if a == p then p !in free' else p in free' && size'[p] == a - p
    requires forall c | c in free' && c != p :: size'[c] == size[c]
    ensures forall u: nat :: FreeUnit(size, free, u) || LiveUnit(live, u)
                         <==> FreeUnit(size', free', u) || LiveUnit(live[a := n], u)
  {
    var live' := live[a := n];
    forall u: nat
      ensures FreeUnit(size, free, u) || LiveUnit(live, u) <==> FreeUnit(size', free', u) || LiveUnit(live', u)
    {
      if FreeUnit(size, free, u) {
        var c :| c in free && c <= u < c + size[c];
        if c == p && a <= u {
          assert a in live' && a <= u < a + live'[a];
        } else {
          assert c in free' && c <= u < c + size'[c];
        }
      } else if LiveUnit(live, u) {
        var c :| c in live && c <= u < c + live[c];
        assert c in live' && c <= u < c + live'[c];
      }
      if FreeUnit(size', free', u) {
        var c :| c in free' && c <= u < c + size'[c];
        assert c in free && c <= u < c + size[c];
      } else if LiveUnit(live', u) {
        var c :| c in live' && c <= u < c + live'[c];
        if c == a {
          assert p in free && p <= u < p + size[p];
        } else {
          assert c in live && c <= u < c + live[c];
        }
      }
    }
  }

  ghost predicate Fits(size: seq<nat>, free: set<nat>, n: nat)
    requires forall c | c in free :: c < |size|
  {
    exists c :: c in free && n <= size[c]
  }

  /** The blocks passed on the way round the list from `f` to `p` are all smaller than `n`. */
  ghost predicate Passed(size: seq<nat>, free: set<nat>, f: nat, p: nat, n: nat)
    requires forall c | c in free :: c < |size|
  {
    forall c | c in free && (if f < p then f < c < p else f < c || c < p) :: size[c] < n
  }

  lemma PassedStart(ptr: seq<nat>, size: seq<nat>, base: nat, free: set<nat>, f: nat, n: nat)
    requires Chain(ptr, size, base, free) && f in free
    ensures ptr[f] in free && Passed(size, free, f, ptr[f], n)
  {
  }

  lemma PassedStep(ptr: seq<nat>, size: seq<nat>, base: nat, free: set<nat>, f: nat, p: nat, n: nat)
    requires Chain(ptr, size, base, free) && f in free && p in free && p != f
    requires Passed(size, free, f, p, n) && size[p] < n
    ensures ptr[p] in free && Passed(size, free, f, ptr[p], n)
    ensures if f < p then ptr[p] <= f || p < ptr[p] else p < ptr[p] <= f
  {
  }

  ghost function Range(a: nat, n: nat): (r: set<nat>)
    ensures forall u: nat :: u in r <==> a <= u < a + n
  {
    if n == 0 then {} else Range(a, n - 1) + {a + n - 1}
  }

  // ---- morecore ----

  function Zeros(n: nat): (z: seq<nat>)
    ensures |z| == n && forall i | 0 <= i < n :: z[i] == 0
  {
    seq(n, _ => 0)
  }

  /** Units requested from the kernel for a request of `n` units. */
  function CoreUnits(n: nat): (c: nat)
    ensures n <= c && MIN_CORE <= c
  {
    if n < MIN_CORE then MIN_CORE else n
  }

  /** The value sbrk() receives: its parameter is a 32-bit int. */
  function SbrkArgument(units: nat): (arg: int)
    ensures -0x8000_0000 <= arg < 0x8000_0000
  {
    var w := (units * HEADER_BYTES) % UINT_LIMIT;
    if w < 0x8000_0000 then w else w - UINT_LIMIT
  }

  /** morecore() asks the kernel for the units it then records in the header exactly when the
      request is below 2 GiB. */
  lemma CoreRequestExact(nbytes: nat)
    requires nbytes < UINT_LIMIT
    ensures SbrkArgument(CoreUnits(Units(nbytes))) == CoreUnits(Units(nbytes)) * HEADER_BYTES <==> nbytes <= 0x7FFF_FFE0
  {
    var n := Units(nbytes);
    assert n <= 0x1000_0001;
    if nbytes <= 0x7FFF_FFE0 {
      assert n * HEADER_BYTES < 0x8000_0000;
    } else {
      assert n * HEADER_BYTES >= 0x8000_0000;
    }
  }

  /** The largest request: one unit is obtained and 0x1000_0001 units are recorded. */
  lemma CoreRequestTruncated()
    ensures SbrkArgument(CoreUnits(Units(0xFFFF_FFFF))) == HEADER_BYTES
    ensures CoreUnits(Units(0xFFFF_FFFF)) == 0x1000_0001
  {
  }

  /** Memory above the old break that no block covers. */
  lemma ExtendConsistent(ptr: seq<nat>, size: seq<nat>, base: nat, free: set<nat>,
                         live: map<nat, nat>, arena: set<nat>, n: nat)
    requires Consistent(ptr, size, base, free, live, arena)
    ensures Consistent(ptr + Zeros(n), size + Zeros(n), base, free, live, arena)
  {
    var ptr', size' := ptr + Zeros(n), size + Zeros(n);
    assert forall c | c in free :: size'[c] == size[c];
    assert forall c {:trigger ptr'[c]} | c in free :: ptr'[c] == ptr[c];
    assert forall u: nat :: FreeUnit(size, free, u) <==> FreeUnit(size', free, u);
  }

  lemma StoreConsistent(ptr: seq<nat>, size: seq<nat>, base: nat, free: set<nat>,
                        live: map<nat, nat>, arena: set<nat>, a: nat, u: nat, x: nat, y: nat)
    requires Consistent(ptr, size, base, free, live, arena) && a in live && a < u < a + live[a]
    ensures Consistent(ptr[u := x], size[u := y], base, free, live, arena)
  {
    var ptr', size' := ptr[u := x], size[u := y];
    assert u !in free && u !in live;
    assert forall c {:trigger ptr'[c]} | c in free :: ptr'[c] == ptr[c];
    assert forall v: nat :: FreeUnit(size, free, v) <==> FreeUnit(size', free, v);
  }

  /** New memory enters the heap as one live block. */
  lemma GrowConsistent(ptr: seq<nat>, size: seq<nat>, base: nat, free: set<nat>,
                       live: map<nat, nat>, arena: set<nat>, n: nat)
    requires Consistent(ptr, size, base, free, live, arena) && 0 < n
    ensures |size| !in live
    ensures Consistent(ptr + Zeros(n), (size + Zeros(n))[|size| := n], base, free,
                       live[|size| := n], arena + Range(|size|, n))
  {
    var a, live' := |size|, live[|size| := n];
    ExtendConsistent(ptr, size, base, free, live, arena, n);
    var size1 := size + Zeros(n);
    var size' := size1[a := n];
    assert a !in free;
    forall u: nat
      ensures u in arena + Range(a, n) <==> FreeUnit(size', free, u) || LiveUnit(live', u)
    {
      assert FreeUnit(size1, free, u) <==> FreeUnit(size', free, u);
      GrowUnits(live, a, n, u);
    }
  }

  lemma GrowUnits(live: map<nat, nat>, a: nat, n: nat, u: nat)
    requires a !in live
    ensures LiveUnit(live[a := n], u) <==> LiveUnit(live, u) || a <= u < a + n
  {
    var live' := live[a := n];
    if LiveUnit(live', u) {
      var c :| c in live' && c <= u < c + live'[c];
      assert c == a || c in live;
    }
    if LiveUnit(live, u) {
      var c :| c in live && c <= u < c + live[c];
      assert c in live' && c <= u < c + live'[c];
    }
    assert a in live' && live'[a] == n;
  }

  /** Memory below the program break, the list head and, as ghosts, what the list stands for. */
  class Heap {
    const base: nat
    var ptr: seq<nat>
    var size: seq<nat>
    var freep: nat
    ghost var free: set<nat>
    ghost var live: map<nat, nat>
    ghost var arena: set<nat>

    ghost predicate Valid()
      reads this
    {
      && 0 < base < |size| && |ptr| == |size|
      && if freep == 0 then free == {} && live == map[] && arena == {}
         else freep in free && Consistent(ptr, size, base, free, live, arena)
    }

    /** Some free block is large enough for a request of `nbytes` bytes. */
    ghost predicate HasFit(nbytes: nat)
      requires Valid()
      reads this
    {
      freep != 0 && Fits(size, free, Units(nbytes))
    }

    constructor (base: nat, memory: nat)
      requires 0 < base < memory
      ensures Valid() && live == map[] && arena == {} && this.base == base && |size| == memory
    {
      this.base := base;
      ptr, size, freep := Zeros(memory), Zeros(memory), 0;
      free, live, arena := {}, map[], {};
    }

    /** The search loop of free(): the free block after which `bp` belongs. */
    method FindGap(bp: nat) returns (p: nat)
      requires Valid() && bp in live
      ensures GapAt(free, p, bp)
    {
      p := freep;
      ghost var g := GapExists(free, base, bp);
      while !(bp > p && bp < ptr[p])
        invariant p in free
        decreases p > g, |size| - p
      {
        if p >= ptr[p] && (bp > p || bp < ptr[p]) {
          break;
        }
        p := ptr[p];
      }
      assert ptr[p] in free;
    }

    /** The stores of free(). */
    method Link(p: nat, bp: nat)
      requires |ptr| == |size| && p < |ptr| && bp < |ptr| && ptr[p] < |ptr|
      modifies `ptr, `size, `freep
      ensures ptr == LinkPtr(old(ptr), old(size), p, bp)
      ensures size == LinkSize(old(ptr), old(size), p, bp)
      ensures freep == p
    {
      if bp + size[bp] == ptr[p] {
        size := size[bp := size[bp] + size[ptr[p]]];
        ptr := ptr[bp := ptr[ptr[p]]];
      } else {
        ptr := ptr[bp := ptr[p]];
      }
      if p + size[p] == bp {
        size := size[p := size[p] + size[bp]];
        ptr := ptr[p := ptr[bp]];
      } else {
        ptr := ptr[p := bp];
      }
      freep := p;
    }

    /** free(): the block goes back on the list; every other live block and the arena are unchanged. */
    method Free(ap: nat)
      requires Valid() && 0 < ap && ap - 1 in live
      modifies this
      ensures Valid() && freep != 0
      ensures live == old(live) - {ap - 1} && arena == old(arena)
      ensures |size| == |old(size)| && Fits(size, free, old(live)[ap - 1])
    {
      hide Consistent;
      hide Fits;
      var bp := ap - 1;
      var p := FindGap(bp);
      OnList(ptr, size, base, free, live, arena, p);
      ghost var free' := LinkConsistent(ptr, size, base, free, live, arena, p, bp);
      Link(p, bp);
      free, live := free', live - {bp};
    }

    /** sbrk() as morecore() uses it: the break moves up and the new memory reads as zeros.
        Whether the kernel grants the request is the caller's parameter. */
    method Sbrk(bytes: int, granted: bool) returns (r: Option<nat>)
      requires |ptr| == |size| && 0 <= bytes && bytes % HEADER_BYTES == 0
      modifies `ptr, `size
      ensures granted ==> r == Some(old(|size|))
      ensures granted ==>
        ptr == old(ptr) + Zeros(bytes / HEADER_BYTES) && size == old(size) + Zeros(bytes / HEADER_BYTES)
      ensures !granted ==> r == None && ptr == old(ptr) && size == old(size)
    {
      if !granted {
        return None;
      }
      r := Some(|size|);
      ptr := ptr + Zeros(bytes / HEADER_BYTES);
      size := size + Zeros(bytes / HEADER_BYTES);
    }

    /** Memory obtained by some other user of sbrk() leaves a gap between arenas. */
    method SbrkElsewhere(units: nat)
      requires Valid()
      modifies `ptr, `size
      ensures Valid() && |size| == old(|size|) + units
    {
      hide Consistent;
      ghost var ptr0, size0 := ptr, size;
      ptr := ptr + Zeros(units);
      size := size + Zeros(units);
      if freep != 0 {
        ExtendConsistent(ptr0, size0, base, free, live, arena, units);
      }
    }

    /** A store by the program into the payload of one of its blocks disturbs nothing. */
    method StorePayload(a: nat, u: nat, x: nat, y: nat)
      requires Valid() && a in live && a < u < a + live[a]
      modifies `ptr, `size
      ensures Valid() && ptr == old(ptr)[u := x] && size == old(size)[u := y]
    {
      StoreConsistent(ptr, size, base, free, live, arena, a, u, x, y);
      ptr, size := ptr[u := x], size[u := y];
    }

    /** The region obtained from sbrk(), with its header filled in: one more live block. */
    method NewRegion(units: nat, granted: bool) returns (r: Option<nat>)
      requires Valid() && freep != 0 && 0 < units && SbrkArgument(units) == units * HEADER_BYTES
      modifies this
      ensures Valid() && free == old(free) && freep == old(freep)
      ensures r == if granted then Some(old(|size|)) else None
      ensures !granted ==> arena == old(arena) && live == old(live) && size == old(size) && ptr == old(ptr)
      ensures granted ==> arena == old(arena) + Range(old(|size|), units)
      ensures granted ==> old(|size|) !in old(live) && live == old(live)[old(|size|) := units]
      ensures granted ==> |size| == old(|size|) + units
    {
      hide Consistent;
      r := Sbrk(SbrkArgument(units), granted);
      if r == None {
        return;
      }
      GrowConsistent(old(ptr), old(size), base, free, live, arena, units);
      size := size[r.value := units];
      arena := arena + Range(r.value, units);
      live := live[r.value := units];
    }

    /** morecore(): the heap grows by one region, which is freed into the list. */
    method Morecore(nu: nat, granted: bool) returns (r: Option<nat>)
      requires Valid() && freep != 0
      requires SbrkArgument(CoreUnits(nu)) == CoreUnits(nu) * HEADER_BYTES
      modifies this
      ensures Valid() && freep != 0 && live == old(live)
      ensures r == if granted then Some(freep) else None
      ensures !granted ==>
        arena == old(arena) && size == old(size) && ptr == old(ptr) && free == old(free) && freep == old(freep)
      ensures granted ==> arena == old(arena) + Range(old(|size|), CoreUnits(nu))
      ensures granted ==> |size| == old(|size|) + CoreUnits(nu) && Fits(size, free, nu)
    {
      hide Consistent;
      var hp := NewRegion(CoreUnits(nu), granted);
      if hp == None {
        return None;
      }
      Free(hp.value + 1);
      r := Some(freep);
    }

    /** The found block is unlinked, or its tail is split off. */
    method Take(prevp: nat, p: nat, n: nat) returns (r: Option<nat>)
      requires Valid() && freep != 0 && prevp in free && p == ptr[prevp] && 0 < n <= size[p]
      modifies this
      ensures Valid() && freep == prevp && freep != 0
      ensures r.Some? && 0 < r.value && r.value - 1 !in old(live) && live == old(live)[r.value - 1 := n]
      ensures arena == old(arena) && |size| == old(|size|)
    {
      hide Consistent;
      OnList(ptr, size, base, free, live, arena, prevp);
      OnList(ptr, size, base, free, live, arena, p);
      var a := p;
      if size[p] == n {
        TakeWhole(ptr, size, base, free, live, arena, prevp, p);
        ptr := ptr[prevp := ptr[p]];
        free := free - {p};
      } else {
        TakeTail(ptr, size, base, free, live, arena, p, n);
        a := p + (size[p] - n);
        size := size[p := size[p] - n];
        size := size[a := n];
      }
      freep := prevp;
      live := live[a := n];
      return Some(a + 1);
    }

    /** The first call of malloc() makes a list of `base` alone. */
    method Init()
      requires Valid() && freep == 0
      modifies this
      ensures Valid() && freep == base && free == {base} && live == map[] && arena == {}
      ensures |size| == old(|size|) && size[base] == 0
    {
      ptr, size, freep := ptr[base := base], size[base := 0], base;
      free := {base};
    }

    /** One trip of malloc()'s loop round the list, starting after `freep`: the first block that is
        large enough, or the certainty that there is none.  After morecore() the loop starts another trip. */
    method Search(n: nat) returns (found: bool, prevp: nat, p: nat)
      requires Valid() && freep != 0
      ensures found <==> Fits(size, free, n)
      ensures found ==> prevp in free && p == ptr[prevp] && n <= size[p]
      ensures found ==> p in free && Passed(size, free, freep, p, n)
    {
      prevp, p := freep, ptr[freep];
      PassedStart(ptr, size, base, free, freep, n);
      while size[p] < n
        invariant prevp in free && p == ptr[prevp] && p in free
        invariant Passed(size, free, freep, p, n)
        decreases p > freep, |size| - p
      {
        if p == freep {
          return false, prevp, p;
        }
        PassedStep(ptr, size, base, free, freep, p, n);
        prevp, p := p, ptr[p];
      }
      return true, prevp, p;
    }

    /** malloc(): None only when no free block is large enough and the kernel refuses more memory;
        otherwise a block of Units(nbytes) units that no other live block overlaps, taken from a free
        block if one is large enough and from new memory only if none is. */
    method Alloc(nbytes: nat, granted: bool) returns (r: Option<nat>)
      requires Valid() && nbytes <= 0x7FFF_FFE0
      modifies this
      ensures Valid() && freep != 0
      ensures r == None <==> !old(HasFit(nbytes)) && !granted
      ensures r == None ==> live == old(live)
      ensures r.Some? ==> 0 < r.value && r.value - 1 !in old(live) && live == old(live)[r.value - 1 := Units(nbytes)]
      ensures old(HasFit(nbytes)) || !granted ==> arena == old(arena) && |size| == old(|size|)
      ensures !old(HasFit(nbytes)) && granted ==>
        arena == old(arena) + Range(old(|size|), CoreUnits(Units(nbytes)))
    {
      hide Consistent;
      hide Fits;
      var n := Units(nbytes);
      CoreRequestExact(nbytes);
      if freep == 0 {
        Init();
      }
      var found, prevp, p := Search(n);
      if !found {
        var more := Morecore(n, granted);
        if more == None {
          return None;
        }
        found, prevp, p := Search(n);
      }
      r := Take(prevp, p, n);
    }
  }
}
