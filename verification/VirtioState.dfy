/**
 * The shared rings and descriptors of the virtio block driver
 * (kernel/virtio_disk.c; sections 2.6 and 5.2 of VIRTIO 1.1): what holds
 * between any two steps of driver and device.
 */
module VirtioState {
  const F_NEXT: nat := 1
  const F_WRITE: nat := 2

  type Block = seq<nat>

  /** What a descriptor's address points to. */
  datatype Addr = NoAddr | OpAt(op: nat) | DataOf(buf: nat) | StatusAt(info: nat)

  datatype Desc = Desc(addr: Addr, len: nat, flags: nat, next: nat)

  /** struct virtio_blk_req; kind 0 reads the disk, 1 writes it. */
  datatype Op = Op(kind: nat, sector: nat)

  /** disk.info[i]; buffers are numbered from 1, 0 is the null pointer. */
  datatype Info = Info(b: nat, status: nat)

  /** How far a request has got. */
  datatype Phase = Preparing | Published | InDevice | Filled | Used | Done

  /** A request: its other two descriptors, what is asked, a serial number and its place in a ring. */
  datatype Req = Req(second: nat, third: nat, b: nat, write: bool, block: nat, id: nat, phase: Phase, ticket: nat)

  type Reqs = map<nat, Req>

  /** The descriptors in use are those of the chains, each in exactly one of them; chain names its head. */
  ghost predicate Chains(free: seq<bool>, chain: seq<nat>, reqs: Reqs)
  {
    && |free| == |chain| == 8
    && (forall h {:trigger reqs[h]} | h in reqs :: ChainAt(free, chain, h, reqs[h].second, reqs[h].third))
    && (forall i {:trigger free[i]} | 0 <= i < 8 && !free[i] ::
          chain[i] in reqs && (i == chain[i] || i == reqs[chain[i]].second || i == reqs[chain[i]].third))
  }

  ghost predicate ChainAt(free: seq<bool>, chain: seq<nat>, h: nat, s: nat, t: nat)
    requires |free| == |chain| == 8
  {
    && h < 8 && s < 8 && t < 8 && h != s && h != t && s != t
    && !free[h] && !free[s] && !free[t]
    && chain[h] == h && chain[s] == h && chain[t] == h
  }

  lemma {:induction false} Pigeons(s: set<nat>, n: nat)
    requires forall x | x in s :: x < n
    ensures |s| <= n
  {
    if n > 0 {
      Pigeons(s - {n - 1}, n - 1);
    }
  }

  /** Eight descriptors make at most two chains. */
  lemma TwoChains(free: seq<bool>, chain: seq<nat>, reqs: Reqs, a: nat, b: nat, c: nat)
    requires Chains(free, chain, reqs) && a in reqs && b in reqs && c in reqs
    ensures a == b || b == c || a == c
  {
    if a != b && b != c && a != c {
      var s := {a, reqs[a].second, reqs[a].third};
      var t := {b, reqs[b].second, reqs[b].third};
      var u := {c, reqs[c].second, reqs[c].third};
      assert |s| == 3 && |t| == 3 && |u| == 3;
      assert s !! t && s !! u && t !! u;
      assert |s + t| == 6;
      assert |s + t + u| == 9;
      Pigeons(s + t + u, 8);
    }
  }

  /** The ring slot of the t-th entry ever. */
  function At(ring: seq<nat>, t: nat): (h: nat)
  {
    if t % 8 < |ring| then ring[t % 8] else 0
  }

  ghost predicate InPhase(reqs: Reqs, h: nat, phase: Phase, ticket: nat)
  {
    h in reqs && reqs[h].phase == phase && reqs[h].ticket == ticket
  }

  /**
   * Entries lo to hi of a ring are the requests in phase inside, each in the
   * slot its ticket names; a request in phase next is written at hi but not
   * yet announced.
   */
  ghost predicate Window(ring: seq<nat>, lo: nat, hi: nat, reqs: Reqs, inside: Phase, next: Phase)
  {
    && |ring| == 8 && lo <= hi
    && (forall t: nat {:trigger At(ring, t)} | lo <= t < hi :: InPhase(reqs, At(ring, t), inside, t))
    && (forall h | h in reqs :: PlaceOk(ring, lo, hi, reqs[h], h, inside, next))
  }

  ghost predicate PlaceOk(ring: seq<nat>, lo: nat, hi: nat, r: Req, h: nat, inside: Phase, next: Phase)
  {
    && (r.phase == inside ==> lo <= r.ticket < hi && At(ring, r.ticket) == h)
    && (r.phase == next ==> r.ticket == hi && At(ring, hi) == h)
  }

  /** No ring ever holds more than two entries, counting the one being written. */
  lemma WindowBound(free: seq<bool>, chain: seq<nat>, ring: seq<nat>, lo: nat, hi: nat, reqs: Reqs, inside: Phase,
                    next: Phase)
    requires Chains(free, chain, reqs) && Window(ring, lo, hi, reqs, inside, next) && inside != next
    ensures hi - lo <= 2
    ensures hi - lo == 2 ==> forall h | h in reqs :: reqs[h].phase == inside
  {
    hide Chains;
    if hi - lo > 2 {
      assert InPhase(reqs, At(ring, lo), inside, lo);
      assert InPhase(reqs, At(ring, lo + 1), inside, lo + 1);
      assert InPhase(reqs, At(ring, lo + 2), inside, lo + 2);
      TwoChains(free, chain, reqs, At(ring, lo), At(ring, lo + 1), At(ring, lo + 2));
    }
    if hi - lo == 2 {
      forall h | h in reqs
        ensures reqs[h].phase == inside
      {
        assert InPhase(reqs, At(ring, lo), inside, lo);
        assert InPhase(reqs, At(ring, lo + 1), inside, lo + 1);
        TwoChains(free, chain, reqs, At(ring, lo), At(ring, lo + 1), h);
      }
    }
  }

  lemma AtWritten(ring: seq<nat>, lo: nat, hi: nat, h: nat, ring': seq<nat>)
    requires |ring| == 8 && lo <= hi <= lo + 7 && ring' == ring[hi % 8 := h]
    ensures At(ring', hi) == h
    ensures forall t: nat {:trigger At(ring', t)} | lo <= t < hi :: At(ring', t) == At(ring, t)
  {
    forall t: nat {:trigger At(ring', t)} | lo <= t < hi
      ensures At(ring', t) == At(ring, t)
    {
      assert t % 8 != hi % 8;
    }
  }

  /** A request is written into the slot after the last one. */
  lemma WindowWrite(ring: seq<nat>, lo: nat, hi: nat, reqs: Reqs, inside: Phase, next: Phase, h: nat, r: Req,
                    ring': seq<nat>, reqs': Reqs)
    requires Window(ring, lo, hi, reqs, inside, next) && hi - lo <= 7 && inside != next
    requires forall g | g in reqs :: reqs[g].phase != next
    requires h in reqs ==> reqs[h].phase != inside
    requires r.phase == next && r.ticket == hi && reqs' == reqs[h := r] && ring' == ring[hi % 8 := h]
    ensures Window(ring', lo, hi, reqs', inside, next)
  {
    hide At;
    AtWritten(ring, lo, hi, h, ring');
    forall g | g in reqs'
      ensures PlaceOk(ring', lo, hi, reqs'[g], g, inside, next)
    {
      if g != h {
        assert PlaceOk(ring, lo, hi, reqs[g], g, inside, next);
      }
    }
  }

  /** The index moves past the entry written last. */
  lemma WindowPublish(ring: seq<nat>, lo: nat, hi: nat, reqs: Reqs, inside: Phase, next: Phase, h: nat, r: Req,
                      reqs': Reqs)
    requires Window(ring, lo, hi, reqs, inside, next) && inside != next
    requires h in reqs && reqs[h].phase == next
    requires r.phase == inside && r.ticket == hi && reqs' == reqs[h := r]
    ensures Window(ring, lo, hi + 1, reqs', inside, next)
  {
    assert PlaceOk(ring, lo, hi, reqs[h], h, inside, next);
    forall g | g in reqs'
      ensures PlaceOk(ring, lo, hi + 1, reqs'[g], g, inside, next)
    {
      if g != h {
        assert PlaceOk(ring, lo, hi, reqs[g], g, inside, next);
      }
    }
    forall t: nat {:trigger At(ring, t)} | lo <= t < hi + 1
      ensures InPhase(reqs', At(ring, t), inside, t)
    {
      if t < hi {
        assert InPhase(reqs, At(ring, t), inside, t);
      }
    }
  }

  /** The reader takes the oldest entry. */
  lemma WindowTake(ring: seq<nat>, lo: nat, hi: nat, reqs: Reqs, inside: Phase, next: Phase, r: Req, reqs': Reqs)
    requires Window(ring, lo, hi, reqs, inside, next) && lo < hi && inside != next
    requires r.phase != inside && r.phase != next && reqs' == reqs[At(ring, lo) := r]
    ensures InPhase(reqs, At(ring, lo), inside, lo)
    ensures Window(ring, lo + 1, hi, reqs', inside, next)
  {
    assert InPhase(reqs, At(ring, lo), inside, lo);
    forall g | g in reqs'
      ensures PlaceOk(ring, lo + 1, hi, reqs'[g], g, inside, next)
    {
      if g != At(ring, lo) {
        assert PlaceOk(ring, lo, hi, reqs[g], g, inside, next);
      }
    }
    forall t: nat {:trigger At(ring, t)} | lo + 1 <= t < hi
      ensures InPhase(reqs', At(ring, t), inside, t)
    {
      assert InPhase(reqs, At(ring, t), inside, t);
    }
  }

  /** A request in neither phase before or after does not concern the ring. */
  lemma WindowOther(ring: seq<nat>, lo: nat, hi: nat, reqs: Reqs, inside: Phase, next: Phase, h: nat, r: Req,
                    reqs': Reqs)
    requires Window(ring, lo, hi, reqs, inside, next)
    requires h in reqs ==> reqs[h].phase != inside
    requires r.phase != inside && r.phase != next
    requires reqs' == reqs[h := r] || reqs' == reqs - {h}
    ensures Window(ring, lo, hi, reqs', inside, next)
  {
    forall g | g in reqs'
      ensures PlaceOk(ring, lo, hi, reqs'[g], g, inside, next)
    {
      if g != h {
        assert PlaceOk(ring, lo, hi, reqs[g], g, inside, next);
      }
    }
    forall t: nat {:trigger At(ring, t)} | lo <= t < hi
      ensures InPhase(reqs', At(ring, t), inside, t)
    {
      assert InPhase(reqs, At(ring, t), inside, t);
    }
  }

  /** The three descriptors of a request, its command block and its entry in info say what it asks for. */
  ghost predicate Formatted(desc: seq<Desc>, ops: seq<Op>, info: seq<Info>, h: nat, r: Req)
    requires |desc| == |ops| == |info| == 8
  {
    && h < 8 && r.second < 8 && r.third < 8
    && desc[h] == Desc(OpAt(h), 16, F_NEXT, r.second)
    && desc[r.second] == Desc(DataOf(r.b), 1024, if r.write then F_NEXT else F_WRITE + F_NEXT, r.third)
    && desc[r.third] == Desc(StatusAt(h), 1, F_WRITE, 0)
    && ops[h] == Op(if r.write then 1 else 0, 2 * r.block)
    && info[h].b == r.b
    && (Executed(r.phase) ==> info[h].status == 0)
  }

  predicate Executed(phase: Phase)
  {
    phase == Filled || phase == Used || phase == Done
  }

  ghost predicate AllFormatted(desc: seq<Desc>, ops: seq<Op>, info: seq<Info>, reqs: Reqs)
  {
    && |desc| == |ops| == |info| == 8
    && (forall h | h in reqs :: Formatted(desc, ops, info, h, reqs[h]))
  }

  /** Buffers belong to one request each and are marked busy until it is done; serial numbers tell which were executed.
      */
  ghost predicate Owners(reqs: Reqs, busy: set<nat>, executed: set<nat>, nextId: nat)
  {
    && (forall h | h in reqs :: OwnerOk(reqs[h], busy, executed, nextId))
    && (forall g, h | g in reqs && h in reqs && g != h :: reqs[g].b != reqs[h].b && reqs[g].id != reqs[h].id)
    && (forall i | i in executed :: i < nextId)
  }

  ghost predicate OwnerOk(r: Req, busy: set<nat>, executed: set<nat>, nextId: nat)
  {
    && r.b != 0
    && (r.b in busy <==> r.phase != Done)
    && r.id < nextId
    && (r.id in executed <==> Executed(r.phase))
  }

  /** Buffer b is part of no request: its caller holds its lock. */
  ghost predicate NotOwned(reqs: Reqs, b: nat)
  {
    forall h | h in reqs :: reqs[h].b != b
  }

  /** The heads the device works on, the one it has finished but not announced, the one being prepared. */
  ghost predicate Holders(reqs: Reqs, inDevice: set<nat>, pending: set<nat>, preparing: set<nat>)
  {
    && (forall h :: h in inDevice <==> h in reqs && reqs[h].phase == InDevice)
    && (forall h :: h in pending <==> h in reqs && reqs[h].phase == Filled)
    && (forall h :: h in preparing <==> h in reqs && reqs[h].phase == Preparing)
  }

  /** Moving a request to another phase leaves its format and its chain alone. */
  lemma PhaseChange(free: seq<bool>, chain: seq<nat>, desc: seq<Desc>, ops: seq<Op>, info: seq<Info>, reqs: Reqs,
                    h: nat, r: Req, info': seq<Info>, reqs': Reqs)
    requires Chains(free, chain, reqs) && AllFormatted(desc, ops, info, reqs)
    requires h in reqs && r == reqs[h].(phase := r.phase, ticket := r.ticket) && reqs' == reqs[h := r]
    requires |info'| == 8 && info'[h].b == info[h].b && (Executed(r.phase) ==> info'[h].status == 0)
    requires forall i | 0 <= i < 8 && i != h :: info'[i] == info[i]
    ensures Chains(free, chain, reqs') && AllFormatted(desc, ops, info', reqs')
  {
    forall g | g in reqs'
      ensures Formatted(desc, ops, info', g, reqs'[g])
    {
      assert Formatted(desc, ops, info, g, reqs[g]);
    }
    hide Formatted;
    forall g {:trigger reqs'[g]} | g in reqs'
      ensures ChainAt(free, chain, g, reqs'[g].second, reqs'[g].third)
    {
      assert ChainAt(free, chain, g, reqs[g].second, reqs[g].third);
    }
  }

  /** What the device reads when it follows a chain: the command, the buffer and where the status goes. */
  function Decode(desc: seq<Desc>, ops: seq<Op>, h: nat): (c: (bool, nat, nat, nat))
    requires |desc| == |ops| == 8
  {
    if h < 8 && desc[h].addr.OpAt? && desc[h].addr.op < 8 && desc[h].flags % 2 == 1 && desc[h].next < 8 then
      var d1 := desc[desc[h].next];
      if d1.addr.DataOf? && d1.flags % 2 == 1 && d1.next < 8 && desc[d1.next].addr.StatusAt? then
        (ops[desc[h].addr.op].kind == 1, ops[desc[h].addr.op].sector / 2, d1.addr.buf, desc[d1.next].addr.info)
      else (false, 0, 0, 8)
    else (false, 0, 0, 8)
  }

  /** The device sees exactly the request that was made. */
  lemma DecodeFormatted(desc: seq<Desc>, ops: seq<Op>, info: seq<Info>, h: nat, r: Req)
    requires |desc| == |ops| == |info| == 8 && Formatted(desc, ops, info, h, r)
    ensures Decode(desc, ops, h) == (r.write, r.block, r.b, h)
  {
  }

  /** Three free descriptors become a chain. */
  lemma ChainsAdd(free: seq<bool>, chain: seq<nat>, reqs: Reqs, h: nat, s: nat, t: nat, r: Req,
                  free': seq<bool>, chain': seq<nat>, reqs': Reqs)
    requires Chains(free, chain, reqs) && h < 8 && s < 8 && t < 8 && h != s && h != t && s != t
    requires free[h] && free[s] && free[t] && r.second == s && r.third == t
    requires free' == free[h := false][s := false][t := false]
    requires chain' == chain[h := h][s := h][t := h]
    requires reqs' == reqs[h := r]
    ensures Chains(free', chain', reqs') && h !in reqs
  {
    forall g {:trigger reqs'[g]} | g in reqs'
      ensures ChainAt(free', chain', g, reqs'[g].second, reqs'[g].third)
    {
      if g != h {
        assert ChainAt(free, chain, g, reqs[g].second, reqs[g].third);
      }
    }
    forall i {:trigger free'[i]} | 0 <= i < 8 && !free'[i]
      ensures chain'[i] in reqs' && (i == chain'[i] || i == reqs'[chain'[i]].second || i == reqs'[chain'[i]].third)
    {
      if i != h && i != s && i != t {
        assert !free[i];
      }
    }
  }

  /** The descriptors of a finished request become free. */
  lemma ChainsRemove(free: seq<bool>, chain: seq<nat>, reqs: Reqs, h: nat, free': seq<bool>, reqs': Reqs)
    requires Chains(free, chain, reqs) && h in reqs
    requires ChainAt(free, chain, h, reqs[h].second, reqs[h].third)
    requires free' == free[h := true][reqs[h].second := true][reqs[h].third := true]
    requires reqs' == reqs - {h}
    ensures Chains(free', chain, reqs')
  {
    forall g {:trigger reqs'[g]} | g in reqs'
      ensures ChainAt(free', chain, g, reqs'[g].second, reqs'[g].third)
    {
      assert ChainAt(free, chain, g, reqs[g].second, reqs[g].third);
    }
    forall i {:trigger free'[i]} | 0 <= i < 8 && !free'[i]
      ensures chain[i] in reqs' && (i == chain[i] || i == reqs'[chain[i]].second || i == reqs'[chain[i]].third)
    {
      assert !free[i];
    }
  }

  /** Writing descriptors of no other request leaves the others formatted. */
  lemma OthersFormatted(free: seq<bool>, chain: seq<nat>, desc: seq<Desc>, ops: seq<Op>, info: seq<Info>, reqs: Reqs,
                        h: nat, s: nat, t: nat, desc': seq<Desc>, ops': seq<Op>, info': seq<Info>, g: nat)
    requires Chains(free, chain, reqs) && AllFormatted(desc, ops, info, reqs) && g in reqs && g != h
    requires h < 8 && s < 8 && t < 8
    requires (free[h] && free[s] && free[t]) || (h in reqs && s == reqs[h].second && t == reqs[h].third)
    requires |desc'| == |ops'| == |info'| == 8
    requires forall i | 0 <= i < 8 && i != h && i != s && i != t :: desc'[i] == desc[i]
    requires forall i | 0 <= i < 8 && i != h :: ops'[i] == ops[i] && info'[i] == info[i]
    ensures Formatted(desc', ops', info', g, reqs[g])
  {
    assert ChainAt(free, chain, g, reqs[g].second, reqs[g].third);
    if h in reqs {
      assert ChainAt(free, chain, h, reqs[h].second, reqs[h].third);
    }
    assert Formatted(desc, ops, info, g, reqs[g]);
  }

  /** A request moves on: who owns it. */
  lemma OwnersMove(reqs: Reqs, busy: set<nat>, executed: set<nat>, nextId: nat, h: nat, r: Req, reqs': Reqs,
                   busy': set<nat>, executed': set<nat>)
    requires Owners(reqs, busy, executed, nextId) && h in reqs
    requires r == reqs[h].(phase := r.phase, ticket := r.ticket) && reqs' == reqs[h := r]
    requires busy' == if r.phase == Done then busy - {r.b} else busy
    requires reqs[h].phase != Done
    requires executed' == if Executed(r.phase) then executed + {r.id} else executed
    requires Executed(reqs[h].phase) ==> Executed(r.phase)
    ensures Owners(reqs', busy', executed', nextId)
    ensures r.id in executed <==> Executed(reqs[h].phase)
  {
    hide Executed;
    assert OwnerOk(reqs[h], busy, executed, nextId);
    forall g | g in reqs'
      ensures OwnerOk(reqs'[g], busy', executed', nextId)
    {
      assert OwnerOk(reqs[g], busy, executed, nextId);
      if g != h {
        assert reqs[g].b != reqs[h].b && reqs[g].id != reqs[h].id;
      }
    }
  }

  lemma OwnersAdd(reqs: Reqs, busy: set<nat>, executed: set<nat>, nextId: nat, h: nat, r: Req, reqs': Reqs)
    requires Owners(reqs, busy, executed, nextId) && h !in reqs && reqs' == reqs[h := r]
    requires r.b != 0 && r.id == nextId && r.phase == Preparing
    requires NotOwned(reqs, r.b)
    ensures Owners(reqs', busy + {r.b}, executed, nextId + 1)
  {
    forall g | g in reqs'
      ensures OwnerOk(reqs'[g], busy + {r.b}, executed, nextId + 1)
    {
      if g != h {
        assert OwnerOk(reqs[g], busy, executed, nextId);
      }
    }
    forall f, g | f in reqs' && g in reqs' && f != g
      ensures reqs'[f].b != reqs'[g].b && reqs'[f].id != reqs'[g].id
    {
      if f != h {
        assert OwnerOk(reqs[f], busy, executed, nextId);
      }
      if g != h {
        assert OwnerOk(reqs[g], busy, executed, nextId);
      }
    }
  }

  lemma OwnersRemove(reqs: Reqs, busy: set<nat>, executed: set<nat>, nextId: nat, h: nat, reqs': Reqs)
    requires Owners(reqs, busy, executed, nextId) && h in reqs && reqs' == reqs - {h}
    ensures Owners(reqs', busy, executed, nextId)
    ensures reqs[h].b !in busy ==> reqs[h].phase == Done && reqs[h].id in executed
  {
    assert OwnerOk(reqs[h], busy, executed, nextId);
    forall g | g in reqs'
      ensures OwnerOk(reqs'[g], busy, executed, nextId)
    {
      assert OwnerOk(reqs[g], busy, executed, nextId);
    }
  }

  lemma Sizes(free: seq<bool>, chain: seq<nat>, desc: seq<Desc>, ops: seq<Op>, info: seq<Info>, reqs: Reqs)
    requires Chains(free, chain, reqs) && AllFormatted(desc, ops, info, reqs)
    ensures |free| == |chain| == |desc| == |ops| == |info| == 8
  {
  }

  /** An allocation that fails half way has touched only free descriptors. */
  lemma StillFormatted(free: seq<bool>, chain: seq<nat>, desc: seq<Desc>, ops: seq<Op>, info: seq<Info>, reqs: Reqs,
                       desc': seq<Desc>)
    requires Chains(free, chain, reqs) && AllFormatted(desc, ops, info, reqs)
    requires |desc'| == 8 && forall i | 0 <= i < 8 && !free[i] :: desc'[i] == desc[i]
    ensures AllFormatted(desc', ops, info, reqs)
  {
    forall h | h in reqs
      ensures Formatted(desc', ops, info, h, reqs[h])
    {
      assert ChainAt(free, chain, h, reqs[h].second, reqs[h].third);
      assert Formatted(desc, ops, info, h, reqs[h]);
    }
  }

  /** A new request, formatted in three descriptors that were free. */
  lemma FormatAdd(free: seq<bool>, chain: seq<nat>, desc: seq<Desc>, ops: seq<Op>, info: seq<Info>, reqs: Reqs,
                  h: nat, r: Req, free': seq<bool>, chain': seq<nat>, desc': seq<Desc>, ops': seq<Op>, info': seq<Info>)
    requires Chains(free, chain, reqs) && AllFormatted(desc, ops, info, reqs)
    requires h < 8 && r.second < 8 && r.third < 8 && h != r.second && h != r.third && r.second != r.third
    requires free[h] && free[r.second] && free[r.third]
    requires free' == free[h := false][r.second := false][r.third := false]
    requires chain' == chain[h := h][r.second := h][r.third := h]
    requires |desc'| == |ops'| == |info'| == 8 && Formatted(desc', ops', info', h, r)
    requires forall i | 0 <= i < 8 && i != h && i != r.second && i != r.third :: desc'[i] == desc[i]
    requires forall i | 0 <= i < 8 && i != h :: ops'[i] == ops[i] && info'[i] == info[i]
    ensures h !in reqs && Chains(free', chain', reqs[h := r]) && AllFormatted(desc', ops', info', reqs[h := r])
  {
    ChainsAdd(free, chain, reqs, h, r.second, r.third, r, free', chain', reqs[h := r]);
    var reqs' := reqs[h := r];
    forall g | g in reqs'
      ensures Formatted(desc', ops', info', g, reqs'[g])
    {
      if g != h {
        OthersFormatted(free, chain, desc, ops, info, reqs, h, r.second, r.third, desc', ops', info', g);
      }
    }
  }

  /** A request leaves; its descriptors are free again. */
  lemma FormatRemove(free: seq<bool>, chain: seq<nat>, desc: seq<Desc>, ops: seq<Op>, info: seq<Info>, reqs: Reqs,
                     h: nat, free': seq<bool>, desc': seq<Desc>, info': seq<Info>)
    requires Chains(free, chain, reqs) && AllFormatted(desc, ops, info, reqs) && h in reqs
    requires ChainAt(free, chain, h, reqs[h].second, reqs[h].third)
    requires free' == free[h := true][reqs[h].second := true][reqs[h].third := true]
    requires |desc'| == |info'| == 8
    requires forall i | 0 <= i < 8 && i != h && i != reqs[h].second && i != reqs[h].third :: desc'[i] == desc[i]
    requires forall i | 0 <= i < 8 && i != h :: info'[i] == info[i]
    ensures Chains(free', chain, reqs - {h}) && AllFormatted(desc', ops, info', reqs - {h})
  {
    ChainsRemove(free, chain, reqs, h, free', reqs - {h});
    var reqs' := reqs - {h};
    forall g | g in reqs'
      ensures Formatted(desc', ops, info', g, reqs'[g])
    {
      OthersFormatted(free, chain, desc, ops, info, reqs, h, reqs[h].second, reqs[h].third, desc', ops, info', g);
    }
  }

  /** A 16-bit index moves on. */
  function Next16(i: nat): (n: nat)
  {
    (i + 1) % 65536
  }

  /** Index i is the count n as 16 bits hold it. */
  ghost predicate Stored16(i: nat, n: nat)
  {
    i == n % 65536
  }

  /** Indices at most two apart are told apart even after they wrap. */
  lemma Compare16(i: nat, lo: nat, j: nat, hi: nat)
    requires lo <= hi <= lo + 2 && Stored16(i, lo) && Stored16(j, hi)
    ensures i == j <==> lo == hi
  {
  }

  /** The slot of an index is that of its count. */
  lemma Slot(i: nat, n: nat)
    requires Stored16(i, n)
    ensures i % 8 == n % 8 && Stored16(Next16(i), n + 1)
  {
  }

  /** A ring, its 16-bit index and the reader's copy of it, with the counts they stand for. */
  ghost predicate Ring(ring: seq<nat>, idx: nat, seen: nat, count: nat, taken: nat, reqs: Reqs, inside: Phase,
                       next: Phase)
  {
    Window(ring, taken, count, reqs, inside, next) && Stored16(idx, count) && Stored16(seen, taken)
  }

  lemma RingSize(ring: seq<nat>, lo: nat, hi: nat, reqs: Reqs, inside: Phase, next: Phase)
    requires Window(ring, lo, hi, reqs, inside, next)
    ensures |ring| == 8 && lo <= hi
  {
  }

  lemma HoldersMove(reqs: Reqs, inDevice: set<nat>, pending: set<nat>, preparing: set<nat>, h: nat, r: Req, reqs': Reqs,
                    inDevice': set<nat>, pending': set<nat>, preparing': set<nat>)
    requires Holders(reqs, inDevice, pending, preparing) && reqs' == reqs[h := r]
    requires inDevice' == if r.phase == InDevice then inDevice + {h} else inDevice - {h}
    requires pending' == if r.phase == Filled then pending + {h} else pending - {h}
    requires preparing' == if r.phase == Preparing then preparing + {h} else preparing - {h}
    ensures Holders(reqs', inDevice', pending', preparing')
  {
  }

  lemma HoldersRemove(reqs: Reqs, inDevice: set<nat>, pending: set<nat>, preparing: set<nat>, h: nat, reqs': Reqs)
    requires Holders(reqs, inDevice, pending, preparing) && reqs' == reqs - {h}
    requires h in reqs && reqs[h].phase == Done
    ensures Holders(reqs', inDevice, pending, preparing)
  {
  }

  /** While no request is being prepared, none has its entry half written. */
  lemma NotPreparing(reqs: Reqs, inDevice: set<nat>, pending: set<nat>, preparing: set<nat>)
    requires Holders(reqs, inDevice, pending, preparing) && preparing == {}
    ensures forall h | h in reqs :: reqs[h].phase != Preparing
  {
  }

  /** Both rings after a request was written into the available ring. */
  lemma PrepareRings(free: seq<bool>, chain: seq<nat>, ring: seq<nat>, lo: nat, hi: nat,
                     uring: seq<nat>, ulo: nat, uhi: nat, reqs: Reqs, h: nat, r: Req, ring': seq<nat>, reqs': Reqs)
    requires Chains(free, chain, reqs) && Window(ring, lo, hi, reqs, Published, Preparing)
    requires Window(uring, ulo, uhi, reqs, Used, Filled)
    requires forall g | g in reqs :: reqs[g].phase != Preparing
    requires h !in reqs && r.phase == Preparing && r.ticket == hi && reqs' == reqs[h := r]
    requires |ring| == 8 && ring' == ring[hi % 8 := h]
    ensures Window(ring', lo, hi, reqs', Published, Preparing) && Window(uring, ulo, uhi, reqs', Used, Filled)
  {
    hide Window;
    hide Chains;
    WindowBound(free, chain, ring, lo, hi, reqs, Published, Preparing);
    WindowWrite(ring, lo, hi, reqs, Published, Preparing, h, r, ring', reqs');
    WindowOther(uring, ulo, uhi, reqs, Used, Filled, h, r, reqs');
  }

  lemma InNoSet(reqs: Reqs, inDevice: set<nat>, pending: set<nat>, preparing: set<nat>, h: nat)
    requires Holders(reqs, inDevice, pending, preparing) && h !in reqs
    ensures inDevice - {h} == inDevice && pending - {h} == pending && preparing - {h} == preparing
  {
  }

  lemma RingFacts(ring: seq<nat>, idx: nat, seen: nat, count: nat, taken: nat, reqs: Reqs, inside: Phase, next: Phase)
    requires Ring(ring, idx, seen, count, taken, reqs, inside, next)
    ensures |ring| == 8 && taken <= count && idx % 8 == count % 8 && seen % 8 == taken % 8
  {
    hide Window;
    RingSize(ring, taken, count, reqs, inside, next);
    Slot(idx, count);
    Slot(seen, taken);
  }

  /** Everything but the rings. */
  ghost predicate Books(free: seq<bool>, chain: seq<nat>, desc: seq<Desc>, ops: seq<Op>, info: seq<Info>, reqs: Reqs,
                        busy: set<nat>, executed: set<nat>, nextId: nat,
                        inDevice: set<nat>, pending: set<nat>, preparing: set<nat>)
  {
    && Chains(free, chain, reqs)
    && AllFormatted(desc, ops, info, reqs)
    && Owners(reqs, busy, executed, nextId)
    && Holders(reqs, inDevice, pending, preparing)
  }

  /** The phases follow each other in one order only. */
  predicate Follows(a: Phase, b: Phase)
  {
    match a
    case Preparing => b == Published
    case Published => b == InDevice
    case InDevice => b == Filled
    case Filled => b == Used
    case Used => b == Done
    case Done => false
  }

  /** A request moves on to its next phase: it is executed when it is filled in and only then. */
  lemma BooksMove(free: seq<bool>, chain: seq<nat>, desc: seq<Desc>, ops: seq<Op>, info: seq<Info>, reqs: Reqs,
                  busy: set<nat>, executed: set<nat>, nextId: nat, inDevice: set<nat>, pending: set<nat>,
                  preparing: set<nat>, h: nat, r: Req, reqs': Reqs, info': seq<Info>)
    requires Books(free, chain, desc, ops, info, reqs, busy, executed, nextId, inDevice, pending, preparing)
    requires h in reqs && r == reqs[h].(phase := r.phase, ticket := r.ticket) && Follows(reqs[h].phase, r.phase)
    requires reqs' == reqs[h := r]
    requires h < |info| && info' == if r.phase == Filled then info[h := Info(r.b, 0)] else info
    ensures Books(free, chain, desc, ops, info', reqs',
                  if r.phase == Done then busy - {r.b} else busy,
                  if r.phase == Filled then executed + {r.id} else executed, nextId,
                  if r.phase == InDevice then inDevice + {h} else inDevice - {h},
                  if r.phase == Filled then pending + {h} else pending - {h}, preparing - {h})
    ensures r.phase == Filled ==> r.id !in executed
  {
    hide Chains;
    hide AllFormatted;
    hide Owners;
    hide Holders;
    FormattedAt(desc, ops, info, reqs, h);
    PhaseChange(free, chain, desc, ops, info, reqs, h, r, info', reqs');
    var busy' := if r.phase == Done then busy - {r.b} else busy;
    var executed' := if r.phase == Filled then executed + {r.id} else executed;
    OwnersKnow(reqs, busy, executed, nextId, h);
    assert executed' == if Executed(r.phase) then executed + {r.id} else executed;
    OwnersMove(reqs, busy, executed, nextId, h, r, reqs', busy', executed');
    HoldersMove(reqs, inDevice, pending, preparing, h, r, reqs',
                if r.phase == InDevice then inDevice + {h} else inDevice - {h},
                if r.phase == Filled then pending + {h} else pending - {h}, preparing - {h});
  }

  lemma FormattedAt(desc: seq<Desc>, ops: seq<Op>, info: seq<Info>, reqs: Reqs, h: nat)
    requires AllFormatted(desc, ops, info, reqs) && h in reqs
    ensures |desc| == |ops| == |info| == 8 && Formatted(desc, ops, info, h, reqs[h]) && h < 8 && info[h].b == reqs[h].b
    ensures Executed(reqs[h].phase) ==> info[h].status == 0
  {
  }

  lemma OwnersKnow(reqs: Reqs, busy: set<nat>, executed: set<nat>, nextId: nat, h: nat)
    requires Owners(reqs, busy, executed, nextId) && h in reqs
    ensures reqs[h].id in executed <==> Executed(reqs[h].phase)
    ensures reqs[h].b in busy <==> reqs[h].phase != Done
  {
    assert OwnerOk(reqs[h], busy, executed, nextId);
  }

  lemma RingPublish(ring: seq<nat>, idx: nat, seen: nat, count: nat, taken: nat, reqs: Reqs, inside: Phase, next: Phase,
                    h: nat, r: Req, reqs': Reqs)
    requires Ring(ring, idx, seen, count, taken, reqs, inside, next) && inside != next
    requires h in reqs && reqs[h].phase == next && r.phase == inside && r.ticket == count && reqs' == reqs[h := r]
    ensures Ring(ring, Next16(idx), seen, count + 1, taken, reqs', inside, next)
  {
    hide Window;
    WindowPublish(ring, taken, count, reqs, inside, next, h, r, reqs');
    Slot(idx, count);
  }

  lemma RingTicket(ring: seq<nat>, idx: nat, seen: nat, count: nat, taken: nat, reqs: Reqs, inside: Phase, next: Phase,
                   h: nat)
    requires Ring(ring, idx, seen, count, taken, reqs, inside, next) && h in reqs && reqs[h].phase == next
    ensures reqs[h].ticket == count
  {
    assert PlaceOk(ring, taken, count, reqs[h], h, inside, next);
  }

  /** The reader's comparison of 16-bit indices tells whether an entry waits, and the slot it reads holds it. */
  lemma RingNonempty(free: seq<bool>, chain: seq<nat>, ring: seq<nat>, idx: nat, seen: nat, count: nat, taken: nat,
                     reqs: Reqs, inside: Phase, next: Phase)
    requires Chains(free, chain, reqs) && Ring(ring, idx, seen, count, taken, reqs, inside, next) && inside != next
    ensures seen != idx <==> taken < count
    ensures |ring| == 8 && ring[seen % 8] == At(ring, taken)
    ensures taken < count ==> InPhase(reqs, At(ring, taken), inside, taken)
  {
    hide Chains;
    hide Window;
    WindowBound(free, chain, ring, taken, count, reqs, inside, next);
    RingSize(ring, taken, count, reqs, inside, next);
    Compare16(seen, taken, idx, count);
    Slot(seen, taken);
    if taken < count {
      WindowHead(ring, taken, count, reqs, inside, next);
    }
  }

  lemma WindowHead(ring: seq<nat>, lo: nat, hi: nat, reqs: Reqs, inside: Phase, next: Phase)
    requires Window(ring, lo, hi, reqs, inside, next) && lo < hi
    ensures InPhase(reqs, At(ring, lo), inside, lo)
  {
  }

  lemma RingTake(ring: seq<nat>, idx: nat, seen: nat, count: nat, taken: nat, reqs: Reqs, inside: Phase, next: Phase,
                 r: Req, reqs': Reqs)
    requires Ring(ring, idx, seen, count, taken, reqs, inside, next) && taken < count && inside != next
    requires r.phase != inside && r.phase != next && reqs' == reqs[At(ring, taken) := r]
    ensures Ring(ring, idx, Next16(seen), count, taken + 1, reqs', inside, next)
  {
    hide Window;
    WindowTake(ring, taken, count, reqs, inside, next, r, reqs');
    Slot(seen, taken);
  }

  lemma RingOther(ring: seq<nat>, idx: nat, seen: nat, count: nat, taken: nat, reqs: Reqs, inside: Phase, next: Phase,
                  h: nat, r: Req, reqs': Reqs)
    requires Ring(ring, idx, seen, count, taken, reqs, inside, next)
    requires h in reqs ==> reqs[h].phase != inside
    requires r.phase != inside && r.phase != next
    requires reqs' == reqs[h := r] || reqs' == reqs - {h}
    ensures Ring(ring, idx, seen, count, taken, reqs', inside, next)
  {
    hide Window;
    WindowOther(ring, taken, count, reqs, inside, next, h, r, reqs');
  }

  /** The device writes an entry of the used ring; its index does not move yet. */
  lemma RingWrite(free: seq<bool>, chain: seq<nat>, ring: seq<nat>, idx: nat, seen: nat, count: nat, taken: nat,
                  reqs: Reqs, inside: Phase, next: Phase, h: nat, r: Req, ring': seq<nat>, reqs': Reqs)
    requires Chains(free, chain, reqs) && Ring(ring, idx, seen, count, taken, reqs, inside, next) && inside != next
    requires forall g | g in reqs :: reqs[g].phase != next
    requires h in reqs && reqs[h].phase != inside
    requires r.phase == next && r.ticket == count && reqs' == reqs[h := r]
    requires |ring| == 8 && ring' == ring[idx % 8 := h]
    ensures Ring(ring', idx, seen, count, taken, reqs', inside, next)
  {
    hide Chains;
    hide Window;
    WindowBound(free, chain, ring, taken, count, reqs, inside, next);
    Slot(idx, count);
    WindowWrite(ring, taken, count, reqs, inside, next, h, r, ring', reqs');
  }

  lemma BooksParts(free: seq<bool>, chain: seq<nat>, desc: seq<Desc>, ops: seq<Op>, info: seq<Info>, reqs: Reqs,
                   busy: set<nat>, executed: set<nat>, nextId: nat,
                   inDevice: set<nat>, pending: set<nat>, preparing: set<nat>)
    requires Books(free, chain, desc, ops, info, reqs, busy, executed, nextId, inDevice, pending, preparing)
    ensures Chains(free, chain, reqs) && AllFormatted(desc, ops, info, reqs)
    ensures Owners(reqs, busy, executed, nextId) && Holders(reqs, inDevice, pending, preparing)
    ensures |free| == |chain| == |desc| == |ops| == |info| == 8
  {
  }

  /** The sets of heads the device keeps. */
  lemma HeldBy(reqs: Reqs, inDevice: set<nat>, pending: set<nat>, preparing: set<nat>, h: nat)
    requires Holders(reqs, inDevice, pending, preparing)
    ensures h in inDevice ==> h in reqs && reqs[h].phase == InDevice
    ensures h in pending ==> h in reqs && reqs[h].phase == Filled
    ensures h in preparing ==> h in reqs && reqs[h].phase == Preparing
    ensures h in reqs ==> (h !in inDevice ==> reqs[h].phase != InDevice) && (h !in pending ==> reqs[h].phase != Filled)
                          && (h !in preparing ==> reqs[h].phase != Preparing)
  {
  }

  lemma NothingPending(reqs: Reqs, inDevice: set<nat>, pending: set<nat>, preparing: set<nat>)
    requires Holders(reqs, inDevice, pending, preparing) && pending == {}
    ensures forall h | h in reqs :: reqs[h].phase != Filled
  {
  }

  /** Without a waiting entry no request is in the ring's phase. */
  lemma RingEmpty(ring: seq<nat>, idx: nat, seen: nat, count: nat, taken: nat, reqs: Reqs, inside: Phase, next: Phase)
    requires Ring(ring, idx, seen, count, taken, reqs, inside, next)
    ensures taken == count ==> forall g | g in reqs :: reqs[g].phase != inside
  {
    if taken == count {
      forall g | g in reqs
        ensures reqs[g].phase != inside
      {
        assert PlaceOk(ring, taken, count, reqs[g], g, inside, next);
      }
    }
  }

  /** Some request has got this far. */
  ghost predicate SomeIn(reqs: Reqs, phase: Phase)
  {
    exists h :: h in reqs && reqs[h].phase == phase
  }

  /** The indices of a ring tell whether it is empty. */
  lemma RingTells(free: seq<bool>, chain: seq<nat>, ring: seq<nat>, idx: nat, seen: nat, count: nat, taken: nat,
                  reqs: Reqs, inside: Phase, next: Phase)
    requires Chains(free, chain, reqs) && Ring(ring, idx, seen, count, taken, reqs, inside, next) && inside != next
    ensures seen != idx <==> SomeIn(reqs, inside)
  {
    RingNonempty(free, chain, ring, idx, seen, count, taken, reqs, inside, next);
    RingFacts(ring, idx, seen, count, taken, reqs, inside, next);
    RingEmpty(ring, idx, seen, count, taken, reqs, inside, next);
    hide Chains;
    hide Ring;
  }

  /** The heads kept aside tell which requests are being prepared or filled in. */
  lemma SetsTell(free: seq<bool>, chain: seq<nat>, desc: seq<Desc>, ops: seq<Op>, info: seq<Info>, reqs: Reqs,
                 busy: set<nat>, executed: set<nat>, nextId: nat,
                 inDevice: set<nat>, pending: set<nat>, preparing: set<nat>)
    requires Books(free, chain, desc, ops, info, reqs, busy, executed, nextId, inDevice, pending, preparing)
    ensures preparing != {} <==> SomeIn(reqs, Preparing)
    ensures pending != {} <==> SomeIn(reqs, Filled)
    ensures Chains(free, chain, reqs)
  {
    hide Chains;
    hide AllFormatted;
    hide Owners;
    if preparing != {} {
      var h :| h in preparing;
    }
    if pending != {} {
      var h :| h in pending;
    }
  }

  /** A request moves on; the sets of heads follow. */
  lemma MoveSets(reqs: Reqs, inDevice: set<nat>, pending: set<nat>, preparing: set<nat>, h: nat)
    requires Holders(reqs, inDevice, pending, preparing) && h in reqs
    ensures reqs[h].phase != InDevice ==> inDevice - {h} == inDevice
    ensures reqs[h].phase != Filled ==> pending - {h} == pending
    ensures reqs[h].phase != Preparing ==> preparing - {h} == preparing
  {
  }

  /** Request h passes from one phase to the next, and nothing else about the requests changes. */
  ghost predicate Moved(reqs: Reqs, reqs': Reqs, h: nat, from: Phase, to: Phase, ticket: nat)
  {
    h in reqs && reqs[h].phase == from && reqs' == reqs[h := reqs[h].(phase := to, ticket := ticket)]
  }

  lemma FetchStep(free: seq<bool>, chain: seq<nat>, desc: seq<Desc>, ops: seq<Op>, info: seq<Info>, reqs: Reqs,
                  busy: set<nat>, executed: set<nat>, nextId: nat, inDevice: set<nat>, pending: set<nat>,
                  preparing: set<nat>,
                  ring: seq<nat>, idx: nat, seen: nat, count: nat, taken: nat,
                  uring: seq<nat>, uidx: nat, useen: nat, ucount: nat, utaken: nat) returns (reqs': Reqs)
    requires Books(free, chain, desc, ops, info, reqs, busy, executed, nextId, inDevice, pending, preparing)
    requires Ring(ring, idx, seen, count, taken, reqs, Published, Preparing)
    requires Ring(uring, uidx, useen, ucount, utaken, reqs, Used, Filled)
    requires seen != idx
    ensures |ring| == 8 && Moved(reqs, reqs', ring[seen % 8], Published, InDevice, taken)
    ensures Books(free, chain, desc, ops, info, reqs', busy, executed, nextId, inDevice + {ring[seen % 8]}, pending,
                  preparing)
    ensures Ring(ring, idx, Next16(seen), count, taken + 1, reqs', Published, Preparing)
    ensures Ring(uring, uidx, useen, ucount, utaken, reqs', Used, Filled)
  {
    hide Books;
    hide Ring;
    hide Holders;
    hide Owners;
    hide AllFormatted;
    hide Chains;
    hide At;
    BooksParts(free, chain, desc, ops, info, reqs, busy, executed, nextId, inDevice, pending, preparing);
    RingNonempty(free, chain, ring, idx, seen, count, taken, reqs, Published, Preparing);
    var h := ring[seen % 8];
    var r := reqs[h].(phase := InDevice);
    reqs' := reqs[h := r];
    FormattedAt(desc, ops, info, reqs, h);
    MoveSets(reqs, inDevice, pending, preparing, h);
    BooksMove(free, chain, desc, ops, info, reqs, busy, executed, nextId, inDevice, pending, preparing, h, r, reqs',
              info);
    RingTake(ring, idx, seen, count, taken, reqs, Published, Preparing, r, reqs');
    RingOther(uring, uidx, useen, ucount, utaken, reqs, Used, Filled, h, r, reqs');
  }

  lemma PublishStep(free: seq<bool>, chain: seq<nat>, desc: seq<Desc>, ops: seq<Op>, info: seq<Info>, reqs: Reqs,
                  busy: set<nat>, executed: set<nat>, nextId: nat, inDevice: set<nat>, pending: set<nat>,
                  preparing: set<nat>,
                  ring: seq<nat>, idx: nat, seen: nat, count: nat, taken: nat,
                  uring: seq<nat>, uidx: nat, useen: nat, ucount: nat, utaken: nat, h: nat) returns (reqs': Reqs)
    requires Books(free, chain, desc, ops, info, reqs, busy, executed, nextId, inDevice, pending, preparing)
    requires Ring(ring, idx, seen, count, taken, reqs, Published, Preparing)
    requires Ring(uring, uidx, useen, ucount, utaken, reqs, Used, Filled)
    requires preparing == {h}
    ensures Moved(reqs, reqs', h, Preparing, Published, count)
    ensures Books(free, chain, desc, ops, info, reqs', busy, executed, nextId, inDevice, pending, {})
    ensures Ring(ring, Next16(idx), seen, count + 1, taken, reqs', Published, Preparing)
    ensures Ring(uring, uidx, useen, ucount, utaken, reqs', Used, Filled)
  {
    hide Books;
    hide Ring;
    hide Holders;
    hide Owners;
    hide AllFormatted;
    hide Chains;
    hide At;
    BooksParts(free, chain, desc, ops, info, reqs, busy, executed, nextId, inDevice, pending, preparing);
    HeldBy(reqs, inDevice, pending, preparing, h);
    RingTicket(ring, idx, seen, count, taken, reqs, Published, Preparing, h);
    var r := reqs[h].(phase := Published);
    reqs' := reqs[h := r];
    FormattedAt(desc, ops, info, reqs, h);
    MoveSets(reqs, inDevice, pending, preparing, h);
    BooksMove(free, chain, desc, ops, info, reqs, busy, executed, nextId, inDevice, pending, preparing, h, r, reqs',
              info);
    assert preparing - {h} == {};
    RingPublish(ring, idx, seen, count, taken, reqs, Published, Preparing, h, r, reqs');
    RingOther(uring, uidx, useen, ucount, utaken, reqs, Used, Filled, h, r, reqs');
  }

  /** The device has carried out request h, set its status and written its entry of the used ring. */
  lemma FillStep(free: seq<bool>, chain: seq<nat>, desc: seq<Desc>, ops: seq<Op>, info: seq<Info>, reqs: Reqs,
                  busy: set<nat>, executed: set<nat>, nextId: nat, inDevice: set<nat>, pending: set<nat>,
                  preparing: set<nat>,
                  ring: seq<nat>, idx: nat, seen: nat, count: nat, taken: nat,
                  uring: seq<nat>, uidx: nat, useen: nat, ucount: nat, utaken: nat, h: nat) returns (reqs': Reqs)
    requires Books(free, chain, desc, ops, info, reqs, busy, executed, nextId, inDevice, pending, preparing)
    requires Ring(ring, idx, seen, count, taken, reqs, Published, Preparing)
    requires Ring(uring, uidx, useen, ucount, utaken, reqs, Used, Filled)
    requires h in inDevice && pending == {}
    ensures |uring| == |info| == 8 && h < 8 && h in reqs && Moved(reqs, reqs', h, InDevice, Filled, ucount)
    ensures reqs[h].id !in executed && info[h].b == reqs[h].b
    ensures Books(free, chain, desc, ops, info[h := Info(info[h].b, 0)], reqs', busy, executed + {reqs[h].id}, nextId,
                  inDevice - {h}, {h}, preparing)
    ensures Ring(ring, idx, seen, count, taken, reqs', Published, Preparing)
    ensures Ring(uring[uidx % 8 := h], uidx, useen, ucount, utaken, reqs', Used, Filled)
  {
    hide Books;
    hide Ring;
    hide Holders;
    hide Owners;
    hide AllFormatted;
    hide Chains;
    hide At;
    BooksParts(free, chain, desc, ops, info, reqs, busy, executed, nextId, inDevice, pending, preparing);
    HeldBy(reqs, inDevice, pending, preparing, h);
    NothingPending(reqs, inDevice, pending, preparing);
    RingFacts(uring, uidx, useen, ucount, utaken, reqs, Used, Filled);
    var r := reqs[h].(phase := Filled, ticket := ucount);
    reqs' := reqs[h := r];
    FormattedAt(desc, ops, info, reqs, h);
    hide Formatted;
    MoveSets(reqs, inDevice, pending, preparing, h);
    BooksMove(free, chain, desc, ops, info, reqs, busy, executed, nextId, inDevice, pending, preparing, h, r, reqs',
              info[h := Info(r.b, 0)]);
    assert pending + {h} == {h};
    RingOther(ring, idx, seen, count, taken, reqs, Published, Preparing, h, r, reqs');
    RingWrite(free, chain, uring, uidx, useen, ucount, utaken, reqs, Used, Filled, h, r, uring[uidx % 8 := h], reqs');
  }

  /** The device announces the request it has finished. */
  lemma AnnounceStep(free: seq<bool>, chain: seq<nat>, desc: seq<Desc>, ops: seq<Op>, info: seq<Info>, reqs: Reqs,
                  busy: set<nat>, executed: set<nat>, nextId: nat, inDevice: set<nat>, pending: set<nat>,
                  preparing: set<nat>,
                  ring: seq<nat>, idx: nat, seen: nat, count: nat, taken: nat,
                  uring: seq<nat>, uidx: nat, useen: nat, ucount: nat, utaken: nat, h: nat) returns (reqs': Reqs)
    requires Books(free, chain, desc, ops, info, reqs, busy, executed, nextId, inDevice, pending, preparing)
    requires Ring(ring, idx, seen, count, taken, reqs, Published, Preparing)
    requires Ring(uring, uidx, useen, ucount, utaken, reqs, Used, Filled)
    requires pending == {h}
    ensures Moved(reqs, reqs', h, Filled, Used, ucount)
    ensures Books(free, chain, desc, ops, info, reqs', busy, executed, nextId, inDevice, {}, preparing)
    ensures Ring(ring, idx, seen, count, taken, reqs', Published, Preparing)
    ensures Ring(uring, Next16(uidx), useen, ucount + 1, utaken, reqs', Used, Filled)
  {
    hide Books;
    hide Ring;
    hide Holders;
    hide Owners;
    hide AllFormatted;
    hide Chains;
    hide At;
    BooksParts(free, chain, desc, ops, info, reqs, busy, executed, nextId, inDevice, pending, preparing);
    HeldBy(reqs, inDevice, pending, preparing, h);
    RingTicket(uring, uidx, useen, ucount, utaken, reqs, Used, Filled, h);
    var r := reqs[h].(phase := Used);
    reqs' := reqs[h := r];
    FormattedAt(desc, ops, info, reqs, h);
    MoveSets(reqs, inDevice, pending, preparing, h);
    BooksMove(free, chain, desc, ops, info, reqs, busy, executed, nextId, inDevice, pending, preparing, h, r, reqs',
              info);
    assert pending - {h} == {};
    RingOther(ring, idx, seen, count, taken, reqs, Published, Preparing, h, r, reqs');
    RingPublish(uring, uidx, useen, ucount, utaken, reqs, Used, Filled, h, r, reqs');
  }

  /** One round of virtio_disk_intr: the status it checks is good and the buffer it releases is the request's. */
  lemma IntrStep(free: seq<bool>, chain: seq<nat>, desc: seq<Desc>, ops: seq<Op>, info: seq<Info>, reqs: Reqs,
                  busy: set<nat>, executed: set<nat>, nextId: nat, inDevice: set<nat>, pending: set<nat>,
                  preparing: set<nat>,
                  ring: seq<nat>, idx: nat, seen: nat, count: nat, taken: nat,
                  uring: seq<nat>, uidx: nat, useen: nat, ucount: nat, utaken: nat) returns (reqs': Reqs)
    requires Books(free, chain, desc, ops, info, reqs, busy, executed, nextId, inDevice, pending, preparing)
    requires Ring(ring, idx, seen, count, taken, reqs, Published, Preparing)
    requires Ring(uring, uidx, useen, ucount, utaken, reqs, Used, Filled)
    requires useen != uidx
    ensures |uring| == |info| == 8 && uring[useen % 8] < 8
    ensures var h := uring[useen % 8];
      Moved(reqs, reqs', h, Used, Done, utaken) && h in reqs && info[h].status == 0 && info[h].b == reqs[h].b
    ensures Books(free, chain, desc, ops, info, reqs', busy - {info[uring[useen % 8]].b}, executed, nextId, inDevice,
                  pending, preparing)
    ensures Ring(ring, idx, seen, count, taken, reqs', Published, Preparing)
    ensures Ring(uring, uidx, Next16(useen), ucount, utaken + 1, reqs', Used, Filled)
  {
    hide Books;
    hide Ring;
    hide Holders;
    hide Owners;
    hide AllFormatted;
    hide Chains;
    hide At;
    BooksParts(free, chain, desc, ops, info, reqs, busy, executed, nextId, inDevice, pending, preparing);
    RingNonempty(free, chain, uring, uidx, useen, ucount, utaken, reqs, Used, Filled);
    var h := uring[useen % 8];
    var r := reqs[h].(phase := Done);
    reqs' := reqs[h := r];
    FormattedAt(desc, ops, info, reqs, h);
    MoveSets(reqs, inDevice, pending, preparing, h);
    BooksMove(free, chain, desc, ops, info, reqs, busy, executed, nextId, inDevice, pending, preparing, h, r, reqs',
              info);
    RingTake(uring, uidx, useen, ucount, utaken, reqs, Used, Filled, r, reqs');
    RingOther(ring, idx, seen, count, taken, reqs, Published, Preparing, h, r, reqs');
  }

  /** A request whose buffer is no longer busy was carried out, and its chain can be followed to be freed. */
  lemma FinishFacts(free: seq<bool>, chain: seq<nat>, desc: seq<Desc>, ops: seq<Op>, info: seq<Info>, reqs: Reqs,
                    busy: set<nat>, executed: set<nat>, nextId: nat, inDevice: set<nat>, pending: set<nat>,
                    preparing: set<nat>, h: nat)
    requires Books(free, chain, desc, ops, info, reqs, busy, executed, nextId, inDevice, pending, preparing)
    requires h in reqs && reqs[h].b !in busy
    ensures reqs[h].phase == Done && reqs[h].id in executed
    ensures |free| == |chain| == |desc| == |info| == 8 && ChainAt(free, chain, h, reqs[h].second, reqs[h].third)
    ensures desc[h].flags % 2 == 1 && desc[h].next == reqs[h].second
    ensures desc[reqs[h].second].flags % 2 == 1 && desc[reqs[h].second].next == reqs[h].third
    ensures desc[reqs[h].third].flags % 2 == 0
    ensures forall g | g in reqs && g != h :: reqs[g].id != reqs[h].id
  {
    hide Books;
    hide Chains;
    hide AllFormatted;
    hide Owners;
    hide Holders;
    BooksParts(free, chain, desc, ops, info, reqs, busy, executed, nextId, inDevice, pending, preparing);
    FormattedAt(desc, ops, info, reqs, h);
    OwnersKnow(reqs, busy, executed, nextId, h);
    DistinctIds(reqs, busy, executed, nextId, h);
    ChainOf(free, chain, reqs, h);
  }

  lemma ChainOf(free: seq<bool>, chain: seq<nat>, reqs: Reqs, h: nat)
    requires Chains(free, chain, reqs) && h in reqs
    ensures ChainAt(free, chain, h, reqs[h].second, reqs[h].third)
  {
  }

  lemma FinishStep(free: seq<bool>, chain: seq<nat>, desc: seq<Desc>, ops: seq<Op>, info: seq<Info>, reqs: Reqs,
                  busy: set<nat>, executed: set<nat>, nextId: nat, inDevice: set<nat>, pending: set<nat>,
                  preparing: set<nat>,
                  ring: seq<nat>, idx: nat, seen: nat, count: nat, taken: nat,
                  uring: seq<nat>, uidx: nat, useen: nat, ucount: nat, utaken: nat,
                  h: nat, free': seq<bool>, desc': seq<Desc>, info': seq<Info>)
    requires Books(free, chain, desc, ops, info, reqs, busy, executed, nextId, inDevice, pending, preparing)
    requires Ring(ring, idx, seen, count, taken, reqs, Published, Preparing)
    requires Ring(uring, uidx, useen, ucount, utaken, reqs, Used, Filled)
    requires h in reqs && reqs[h].b !in busy
    requires |free| == |chain| == 8 && ChainAt(free, chain, h, reqs[h].second, reqs[h].third)
    requires free' == free[h := true][reqs[h].second := true][reqs[h].third := true]
    requires |desc'| == |desc| == 8 && |info'| == |info| == 8
    requires forall i | 0 <= i < 8 && i != h && i != reqs[h].second && i != reqs[h].third :: desc'[i] == desc[i]
    requires forall i | 0 <= i < 8 && i != h :: info'[i] == info[i]
    ensures Books(free', chain, desc', ops, info', reqs - {h}, busy, executed, nextId, inDevice, pending, preparing)
    ensures Ring(ring, idx, seen, count, taken, reqs - {h}, Published, Preparing)
    ensures Ring(uring, uidx, useen, ucount, utaken, reqs - {h}, Used, Filled)
  {
    hide Books;
    hide Chains;
    hide AllFormatted;
    hide Owners;
    hide Holders;
    hide Ring;
    BooksParts(free, chain, desc, ops, info, reqs, busy, executed, nextId, inDevice, pending, preparing);
    OwnersRemove(reqs, busy, executed, nextId, h, reqs - {h});
    HoldersRemove(reqs, inDevice, pending, preparing, h, reqs - {h});
    FormatRemove(free, chain, desc, ops, info, reqs, h, free', desc', info');
    RingOther(ring, idx, seen, count, taken, reqs, Published, Preparing, h, reqs[h], reqs - {h});
    RingOther(uring, uidx, useen, ucount, utaken, reqs, Used, Filled, h, reqs[h], reqs - {h});
    MakeBooks(free', chain, desc', ops, info', reqs - {h}, busy, executed, nextId, inDevice, pending, preparing);
  }

  lemma MakeBooks(free: seq<bool>, chain: seq<nat>, desc: seq<Desc>, ops: seq<Op>, info: seq<Info>, reqs: Reqs,
                  busy: set<nat>, executed: set<nat>, nextId: nat, inDevice: set<nat>, pending: set<nat>,
                  preparing: set<nat>)
    requires Chains(free, chain, reqs) && AllFormatted(desc, ops, info, reqs)
    requires Owners(reqs, busy, executed, nextId) && Holders(reqs, inDevice, pending, preparing)
    ensures Books(free, chain, desc, ops, info, reqs, busy, executed, nextId, inDevice, pending, preparing)
  {
  }

  /** The device reads from the descriptors what the request asks for. */
  lemma Asked(free: seq<bool>, chain: seq<nat>, desc: seq<Desc>, ops: seq<Op>, info: seq<Info>, reqs: Reqs,
              busy: set<nat>, executed: set<nat>, nextId: nat, inDevice: set<nat>, pending: set<nat>,
              preparing: set<nat>, h: nat)
    requires Books(free, chain, desc, ops, info, reqs, busy, executed, nextId, inDevice, pending, preparing)
    requires h in inDevice
    ensures |desc| == |ops| == 8 && h in reqs
    ensures Decode(desc, ops, h) == (reqs[h].write, reqs[h].block, reqs[h].b, h)
  {
    hide Books;
    hide Chains;
    hide AllFormatted;
    hide Owners;
    hide Holders;
    BooksParts(free, chain, desc, ops, info, reqs, busy, executed, nextId, inDevice, pending, preparing);
    HeldBy(reqs, inDevice, pending, preparing, h);
    FormattedAt(desc, ops, info, reqs, h);
    DecodeFormatted(desc, ops, info, h, reqs[h]);
  }

  /** A request r, formatted with head h, is about to be entered; free0 and chain0 are as before it. */
  ghost predicate Entering(free0: seq<bool>, chain0: seq<nat>, free: seq<bool>, chain: seq<nat>, desc: seq<Desc>,
                           ops: seq<Op>, info: seq<Info>, reqs: Reqs, busy: set<nat>, executed: set<nat>, nextId: nat,
                           inDevice: set<nat>, pending: set<nat>, h: nat, r: Req)
  {
    && h !in reqs && NotOwned(reqs, r.b) && r.b != 0 && r.id == nextId && r.phase == Preparing
    && Chains(free0, chain0, reqs)
    && Chains(free, chain, reqs[h := r]) && AllFormatted(desc, ops, info, reqs[h := r])
    && Owners(reqs, busy, executed, nextId) && Holders(reqs, inDevice, pending, {})
  }

  lemma PrepareStep(free0: seq<bool>, chain0: seq<nat>, free: seq<bool>, chain: seq<nat>, desc: seq<Desc>,
                    ops: seq<Op>, info: seq<Info>, reqs: Reqs, busy: set<nat>, executed: set<nat>, nextId: nat,
                    inDevice: set<nat>, pending: set<nat>, h: nat, r: Req,
                    ring: seq<nat>, idx: nat, seen: nat, count: nat, taken: nat,
                    uring: seq<nat>, uidx: nat, useen: nat, ucount: nat, utaken: nat) returns (reqs': Reqs)
    requires Entering(free0, chain0, free, chain, desc, ops, info, reqs, busy, executed, nextId, inDevice, pending, h,
                      r)
    requires Ring(ring, idx, seen, count, taken, reqs, Published, Preparing) && r.ticket == count
    requires Ring(uring, uidx, useen, ucount, utaken, reqs, Used, Filled)
    ensures |ring| == 8 && reqs' == reqs[h := r]
    ensures Books(free, chain, desc, ops, info, reqs', busy + {r.b}, executed, nextId + 1, inDevice, pending, {h})
    ensures Ring(ring[idx % 8 := h], idx, seen, count, taken, reqs', Published, Preparing)
    ensures Ring(uring, uidx, useen, ucount, utaken, reqs', Used, Filled)
  {
    hide Chains;
    hide AllFormatted;
    hide Window;
    hide Owners;
    hide Holders;
    hide NotOwned;
    reqs' := reqs[h := r];
    RingSize(ring, taken, count, reqs, Published, Preparing);
    Slot(idx, count);
    hide Stored16;
    NotPreparing(reqs, inDevice, pending, {});
    PrepareRings(free0, chain0, ring, taken, count, uring, utaken, ucount, reqs, h, r, ring[idx % 8 := h], reqs');
    OwnersAdd(reqs, busy, executed, nextId, h, r, reqs');
    InNoSet(reqs, inDevice, pending, {}, h);
    HoldersMove(reqs, inDevice, pending, {}, h, r, reqs', inDevice, pending, {h});
  }

  lemma InDeviceIs(free: seq<bool>, chain: seq<nat>, desc: seq<Desc>, ops: seq<Op>, info: seq<Info>, reqs: Reqs,
                   busy: set<nat>, executed: set<nat>, nextId: nat,
                   inDevice: set<nat>, pending: set<nat>, preparing: set<nat>, h: nat)
    requires Books(free, chain, desc, ops, info, reqs, busy, executed, nextId, inDevice, pending, preparing)
    requires h in inDevice
    ensures h in reqs && reqs[h].phase == InDevice
  {
    hide Chains;
    hide AllFormatted;
    hide Owners;
  }

  lemma DistinctBuffers(free: seq<bool>, chain: seq<nat>, desc: seq<Desc>, ops: seq<Op>, info: seq<Info>, reqs: Reqs,
                        busy: set<nat>, executed: set<nat>, nextId: nat,
                        inDevice: set<nat>, pending: set<nat>, preparing: set<nat>, h: nat)
    requires Books(free, chain, desc, ops, info, reqs, busy, executed, nextId, inDevice, pending, preparing)
    requires h in reqs
    ensures forall g | g in reqs && g != h :: reqs[g].b != reqs[h].b
  {
    hide Chains;
    hide AllFormatted;
    hide Holders;
  }

  lemma DistinctIds(reqs: Reqs, busy: set<nat>, executed: set<nat>, nextId: nat, h: nat)
    requires Owners(reqs, busy, executed, nextId) && h in reqs
    ensures forall g | g in reqs && g != h :: reqs[g].id != reqs[h].id
  {
  }

  lemma FreshId(reqs: Reqs, busy: set<nat>, executed: set<nat>, nextId: nat)
    requires Owners(reqs, busy, executed, nextId)
    ensures nextId !in executed
  {
  }

  /** Only one request at a time is being prepared. */
  lemma OnePreparing(free: seq<bool>, chain: seq<nat>, desc: seq<Desc>, ops: seq<Op>, info: seq<Info>, reqs: Reqs,
                     busy: set<nat>, executed: set<nat>, nextId: nat, inDevice: set<nat>, pending: set<nat>,
                     preparing: set<nat>, ring: seq<nat>, idx: nat, seen: nat, count: nat, taken: nat, h: nat)
    requires Books(free, chain, desc, ops, info, reqs, busy, executed, nextId, inDevice, pending, preparing)
    requires Ring(ring, idx, seen, count, taken, reqs, Published, Preparing) && h in preparing
    ensures preparing == {h}
  {
    hide Chains;
    hide AllFormatted;
    hide Owners;
    forall g | g in preparing
      ensures g == h
    {
      assert PlaceOk(ring, taken, count, reqs[g], g, Published, Preparing);
      assert PlaceOk(ring, taken, count, reqs[h], h, Published, Preparing);
    }
  }

  /** The device has at most one finished request not yet announced. */
  lemma OnePending(free: seq<bool>, chain: seq<nat>, desc: seq<Desc>, ops: seq<Op>, info: seq<Info>, reqs: Reqs,
                   busy: set<nat>, executed: set<nat>, nextId: nat, inDevice: set<nat>, pending: set<nat>,
                   preparing: set<nat>, ring: seq<nat>, idx: nat, seen: nat, count: nat, taken: nat, h: nat)
    requires Books(free, chain, desc, ops, info, reqs, busy, executed, nextId, inDevice, pending, preparing)
    requires Ring(ring, idx, seen, count, taken, reqs, Used, Filled) && h in pending
    ensures pending == {h}
  {
    hide Chains;
    hide AllFormatted;
    hide Owners;
    forall g | g in pending
      ensures g == h
    {
      assert PlaceOk(ring, taken, count, reqs[g], g, Used, Filled);
      assert PlaceOk(ring, taken, count, reqs[h], h, Used, Filled);
    }
  }

  lemma BooksChains(free: seq<bool>, chain: seq<nat>, desc: seq<Desc>, ops: seq<Op>, info: seq<Info>, reqs: Reqs,
                    busy: set<nat>, executed: set<nat>, nextId: nat, inDevice: set<nat>, pending: set<nat>,
                    preparing: set<nat>)
    requires Books(free, chain, desc, ops, info, reqs, busy, executed, nextId, inDevice, pending, preparing)
    ensures Chains(free, chain, reqs)
  {
  }
}
