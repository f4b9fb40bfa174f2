/** The buffer cache of module BufferCache takes the cache steps of module LogSystem: what bread(), brelse(), bpin()
    and bunpin() do to the buffers of the disk is what LogSystem says of its cache, which leaves out the blocks of the
    log. */
module CacheSteps {
  import opened LogDisk
  import B = BufferCache
  import L = LogSystem

  ghost function Home<T>(start: nat, m: map<nat, T>): map<nat, T>
  {
    map b | b in m && !InLog(start, b) :: m[b]
  }

  lemma HomePut<T>(start: nat, m: map<nat, T>, b: nat, x: T)
    ensures Home(start, m[b := x]) == if InLog(start, b) then Home(start, m) else Home(start, m)[b := x]
  {
  }

  lemma HomeAt<T>(start: nat, m: map<nat, T>, b: nat)
    ensures b in Home(start, m) <==> b in m && !InLog(start, b)
    ensures b in Home(start, m) ==> Home(start, m)[b] == m[b]
  {
  }

  lemma HomeDrop<T>(start: nat, m: map<nat, T>, drop: set<nat>)
    ensures Home(start, m - drop) == Home(start, m) - drop
  {
  }

  /** The cache of `s` is the buffers `c`. */
  ghost predicate Shows(start: nat, s: L.State, c: B.Cache)
  {
    c.data.Keys == c.refs.Keys && s.data == Home(start, c.data) && s.refs == Home(start, c.refs)
  }

  /** Making room recycles at most one block that nobody references. */
  lemma RoomIsStep(start: nat, s: L.State, c: B.Cache, drop: set<nat>) returns (s1: L.State)
    requires Shows(start, s, c) && B.Dropped(c, drop)
    ensures s1 == s || exists v: nat :: L.RecycleStep(s, s1, v)
    ensures Shows(start, s1, B.Cache(c.data - drop, c.refs - drop)) && s1 == s.(data := s1.data, refs := s1.refs)
  {
    HomeDrop(start, c.data, drop);
    HomeDrop(start, c.refs, drop);
    s1 := s.(data := s.data - drop, refs := s.refs - drop);
    if drop != {} {
      var v: nat :| drop == {v} && v in c.refs && c.refs[v] == 0;
      HomeAt(start, c.refs, v);
      HomeAt(start, c.data, v);
      hide Home;
      if !InLog(start, v) {
        assert L.RecycleStep(s, s1, v);
      } else {
        assert s1.data == s.data && s1.refs == s.refs;
      }
    } else {
      assert s1.data == s.data && s1.refs == s.refs;
    }
  }

  /** A read that misses makes room and then loads the block. */
  lemma MissMakesRoom(start: nat, s: L.State, c: B.Cache, c': B.Cache, b: nat, block: Block) returns (s1: L.State)
    requires Shows(start, s, c) && b !in c.data && B.Got(c, c', b, block)
    ensures s1 == s || exists v: nat :: L.RecycleStep(s, s1, v)
    ensures s1 == s.(data := s1.data, refs := s1.refs) && b !in s1.data && c'.data.Keys == c'.refs.Keys
    ensures Home(start, c'.data) == if InLog(start, b) then s1.data else s1.data[b := block]
    ensures Home(start, c'.refs) == if InLog(start, b) then s1.refs else s1.refs[b := 1]
  {
    hide Home;
    var drop: set<nat> :| B.Dropped(c, drop) && c' == B.Cache((c.data - drop)[b := block], (c.refs - drop)[b := 1]);
    s1 := RoomIsStep(start, s, c, drop);
    HomePut(start, c.data - drop, b, block);
    HomePut(start, c.refs - drop, b, 1);
    HomeAt(start, c.data - drop, b);
  }

  /** bread() of a block outside the log. */
  lemma ReadIsSteps(start: nat, s: L.State, c: B.Cache, c': B.Cache, client: nat, b: nat)
    returns (s1: L.State, s2: L.State)
    requires Shows(start, s, c) && !s.phase.Booting? && !s.phase.Recovering?
    requires b < |s.disk| && !InLog(start, b) && b !in s.holder && B.Got(c, c', b, s.disk[b])
    ensures s1 == s || exists v: nat :: L.RecycleStep(s, s1, v)
    ensures L.BreadStep(start, s1, s2, client, b) && Shows(start, s2, c')
  {
    hide Home;
    HomeAt(start, c.data, b);
    HomeAt(start, c.refs, b);
    if b in c.data {
      HomePut(start, c.refs, b, c.refs[b] + 1);
      s1 := s;
      s2 := s.(holder := s.holder[b := client], refs := s.refs[b := s.refs[b] + 1]);
    } else {
      s1 := MissMakesRoom(start, s, c, c', b, s.disk[b]);
      s2 := s1.(data := s1.data[b := s1.disk[b]], refs := s1.refs[b := 1], holder := s1.holder[b := client]);
    }
  }

  /** bread() of a block of the log can at most recycle a buffer. */
  lemma LogReadIsSteps(start: nat, s: L.State, c: B.Cache, c': B.Cache, b: nat) returns (s1: L.State)
    requires Shows(start, s, c) && b < |s.disk| && InLog(start, b) && B.Got(c, c', b, s.disk[b])
    ensures s1 == s || exists v: nat :: L.RecycleStep(s, s1, v)
    ensures Shows(start, s1, c')
  {
    hide Home;
    if b in c.data {
      HomePut(start, c.refs, b, c.refs[b] + 1);
      s1 := s;
    } else {
      s1 := MissMakesRoom(start, s, c, c', b, s.disk[b]);
    }
  }

  /** brelse() */
  lemma ReleaseIsStep(start: nat, s: L.State, c: B.Cache, c': B.Cache, client: nat, b: nat) returns (s': L.State)
    requires Shows(start, s, c) && b in s.holder && s.holder[b] == client && b !in s.dirty && b in s.refs
    requires B.Counted(c, c', b, -1)
    ensures L.BrelseStep(s, s', client, b) && Shows(start, s', c')
  {
    s' := s.(holder := s.holder - {b}, refs := s.refs[b := s.refs[b] - 1]);
    assert Home(start, c'.refs) == s'.refs;
  }

  /** bpin() in log_write() of a block that is not in the log yet. */
  lemma PinIsStep(start: nat, limit: nat, s: L.State, s': L.State, c: B.Cache, c': B.Cache, op: nat, b: nat)
    requires Shows(start, s, c) && L.LogWriteStep(limit, s, s', op, b) && b !in s.lh && B.Counted(c, c', b, 1)
    ensures Shows(start, s', c')
  {
    assert Home(start, c'.refs) == s'.refs;
  }

  /** bunpin() in install_trans() */
  lemma UnpinIsStep(start: nat, s: L.State, s': L.State, c: B.Cache, c': B.Cache)
    requires Shows(start, s, c) && L.InstallBlockStep(start, s, s') && B.Counted(c, c', s.lh[s.phase.homes], -1)
    ensures Shows(start, s', c')
  {
    assert Home(start, c'.refs) == s'.refs;
  }

  /** No read drops a block that is pinned or in use. */
  lemma PinnedStays(c: B.Cache, c': B.Cache, b: nat, block: Block, p: nat)
    requires c.data.Keys == c.refs.Keys && B.Got(c, c', b, block) && p in c.refs && c.refs[p] > 0
    ensures p in c'.data && c'.data[p] == c.data[p] && p in c'.refs && c'.refs[p] >= c.refs[p]
  {
  }
}
