/**
 * The virtio block driver and its device as one object whose methods are the
 * steps of either side (kernel/virtio_disk.c).  Any order of the steps keeps
 * Valid(); a driver step runs under vdisk_lock, and preparing and publishing a
 * request are two steps between which only the device moves.
 */
module Virtio {
  import opened VirtioState
  import opened VirtioLog

  /** No three descriptors are free. */
  ghost predicate FewFree(free: seq<bool>)
  {
    forall i, j, k | 0 <= i < j < k < |free| :: !(free[i] && free[j] && free[k])
  }

  class Disk {
    // Shared with the device.
    var desc: seq<Desc>
    var ops: seq<Op>
    var info: seq<Info>
    var availRing: seq<nat>
    var availIdx: nat
    var usedRing: seq<nat>
    var usedIdx: nat
    // The driver's own.
    var free: seq<bool>
    var usedSeen: nat
    var busy: set<nat>
    // The processes inside virtio_disk_rw: their idx[0] and their buffer.
    var callers: map<nat, nat>
    // The head being prepared while vdisk_lock is held.
    var preparing: set<nat>
    var data: map<nat, Block>
    // The device's own.
    var availSeen: nat
    var inDevice: set<nat>
    var pending: set<nat>
    var blocks: map<nat, Block>

    ghost var chain: seq<nat>
    ghost var reqs: Reqs
    ghost var availCount: nat
    ghost var availTaken: nat
    ghost var usedCount: nat
    ghost var usedTaken: nat
    ghost var executed: set<nat>
    ghost var nextId: nat
    ghost var returned: set<nat>
    ghost var initial: map<nat, Block>
    ghost var history: seq<Event>
    ghost var asked: map<nat, Ask>

    ghost predicate Valid()
      reads this
    {
      && Books(free, chain, desc, ops, info, reqs, busy, executed, nextId, inDevice, pending, preparing)
      && Ring(availRing, availIdx, availSeen, availCount, availTaken, reqs, Published, Preparing)
      && Ring(usedRing, usedIdx, usedSeen, usedCount, usedTaken, reqs, Used, Filled)
    }

    /** Every caller has one request, every request whose caller returned was carried out, and the history tells what
        the device did: each request once and as it was asked for, each read with the contents that the writes before
        it left. */
    ghost predicate Served()
      reads this
    {
      && Calls(callers, reqs) && Ledger(reqs, executed, returned)
      && Logbook(initial, history, blocks, data, reqs, executed)
      && Orders(asked, history, reqs, data, nextId)
    }

    constructor (data: map<nat, Block>, blocks: map<nat, Block>)
      ensures Valid() && Served() && reqs == map[] && executed == {} && this.data == data && this.blocks == blocks
      ensures history == [] && initial == blocks && asked == map[]
      ensures forall i | 0 <= i < 8 :: free[i]
    {
      this.data, this.blocks := data, blocks;
      desc := seq(8, _ => Desc(NoAddr, 0, 0, 0));
      ops := seq(8, _ => Op(0, 0));
      info := seq(8, _ => Info(0, 0));
      availRing, usedRing := seq(8, _ => 0), seq(8, _ => 0);
      availIdx, usedIdx, availSeen, usedSeen := 0, 0, 0, 0;
      free := seq(8, _ => true);
      busy, inDevice, pending, callers := {}, {}, {}, map[];
      chain := seq(8, _ => 0);
      reqs, preparing, executed, nextId, returned := map[], {}, {}, 0, {};
      availCount, availTaken, usedCount, usedTaken := 0, 0, 0, 0;
      initial, history, asked := blocks, [], map[];
    }

    /** alloc_desc: the first free descriptor, or -1. */
    method AllocDesc() returns (i: int)
      requires |free| == 8
      modifies `free
      ensures i == -1 ==> free == old(free) && forall k | 0 <= k < 8 :: !free[k]
      ensures i != -1 ==> 0 <= i < 8 && old(free)[i] && free == old(free)[i := false]
      ensures i != -1 ==> forall k | 0 <= k < i :: !old(free)[k]
    {
      i := 0;
      while i < 8
        invariant 0 <= i <= 8 && free == old(free)
        invariant forall k | 0 <= k < i :: !free[k]
      {
        if free[i] {
          free := free[i := false];
          return;
        }
        i := i + 1;
      }
      i := -1;
    }

    /** free_desc */
    method FreeDesc(i: nat) returns (panic: bool)
      requires |free| == |desc| == 8
      modifies `free, `desc
      ensures panic <==> i >= 8 || old(free)[i]
      ensures panic ==> free == old(free) && desc == old(desc)
      ensures !panic ==> free == old(free)[i := true] && desc == old(desc)[i := Desc(NoAddr, 0, 0, 0)]
    {
      if i >= 8 || free[i] {
        return true;
      }
      desc := desc[i := Desc(NoAddr, 0, 0, 0)];
      free := free[i := true];
      return false;
    }

    /** alloc3_desc: three descriptors, or none at all. */
    method Alloc3Desc() returns (ok: bool, idx: seq<nat>)
      requires |free| == |desc| == 8
      modifies `free, `desc
      ensures |idx| == 3 && |free| == |desc| == 8
      ensures ok ==> idx[0] < 8 && idx[1] < 8 && idx[2] < 8 && idx[0] != idx[1] && idx[0] != idx[2] && idx[1] != idx[2]
      ensures ok ==> old(free)[idx[0]] && old(free)[idx[1]] && old(free)[idx[2]] && desc == old(desc)
      ensures ok ==> free == old(free)[idx[0] := false][idx[1] := false][idx[2] := false]
      ensures !ok ==> free == old(free)
      ensures !ok ==> forall i | 0 <= i < 8 && !old(free)[i] :: desc[i] == old(desc)[i]
      ensures ok <==> !FewFree(old(free))
    {
      idx := [0, 0, 0];
      ok := true;
      var i := 0;
      while i < 3
        invariant 0 <= i <= 3 && |idx| == 3 && desc == old(desc) && |free| == 8
        invariant forall m | 0 <= m < i :: idx[m] < 8 && old(free)[idx[m]]
        invariant forall m, n | 0 <= m < n < i :: idx[m] != idx[n]
        invariant free == Without(old(free), idx[..i])
      {
        var d := AllocDesc();
        if d < 0 {
          var j := 0;
          NoneLeft(old(free), idx[..i]);
          while j < i
            invariant 0 <= j <= i && |free| == |desc| == 8
            invariant free == Without(old(free), idx[j..i])
            invariant forall k | 0 <= k < 8 && !old(free)[k] :: desc[k] == old(desc)[k]
          {
            WithoutFirst(old(free), idx[j..i]);
            assert idx[j..i][1..] == idx[j + 1..i] && idx[j..i][0] == idx[j];
            var panic := FreeDesc(idx[j]);
            j := j + 1;
          }
          ok := false;
          return;
        }
        WithoutOne(old(free), idx[..i], d);
        idx := idx[i := d];
        assert idx[..i + 1] == idx[..i] + [d];
        i := i + 1;
      }
      assert idx[..3] == [idx[0], idx[1], idx[2]];
      WithoutThree(old(free), idx[0], idx[1], idx[2]);
      ThreeFree(old(free), idx[0], idx[1], idx[2]);
    }

    /** free_chain: the loop ends after the three descriptors h, s and t. */
    method FreeChain(h: nat, ghost s: nat, ghost t: nat)
      requires |free| == |desc| == 8 && h < 8 && s < 8 && t < 8 && h != s && h != t && s != t
      requires !free[h] && !free[s] && !free[t]
      requires desc[h].flags % 2 == 1 && desc[h].next == s && desc[s].flags % 2 == 1 && desc[s].next == t
      requires desc[t].flags % 2 == 0
      modifies `free, `desc
      ensures free == old(free)[h := true][s := true][t := true]
      ensures |desc| == 8 && forall i | 0 <= i < 8 && i != h && i != s && i != t :: desc[i] == old(desc)[i]
    {
      var i := h;
      ghost var n := 0;
      while true
        invariant 0 <= n <= 2 && |free| == |desc| == 8 && i == (if n == 0 then h else if n == 1 then s else t)
        invariant forall k | 0 <= k < 8 && k != h && k != s && k != t :: desc[k] == old(desc)[k]
        invariant n <= 1 ==> desc[s] == old(desc)[s]
        invariant desc[t] == old(desc)[t] && (n == 0 ==> desc[h] == old(desc)[h])
        invariant free == if n == 0 then old(free) else if n == 1 then old(free)[h := true]
                          else old(free)[h := true][s := true]
        decreases 2 - n
      {
        var flag, nxt := desc[i].flags, desc[i].next;
        var panic := FreeDesc(i);
        if flag % 2 == 1 {
          i := nxt;
        } else {
          break;
        }
        n := n + 1;
      }
    }

    /** Takes three descriptors and formats them for a request. */
    method Format(b: nat, write: bool, block: nat) returns (ok: bool, h: nat, ghost r: Req)
      requires Chains(free, chain, reqs) && AllFormatted(desc, ops, info, reqs)
      modifies `free, `desc, `ops, `info, `chain
      ensures !ok ==> Chains(free, chain, reqs) && AllFormatted(desc, ops, info, reqs)
      ensures ok <==> !FewFree(old(free))
      ensures r == Req(r.second, r.third, b, write, block, nextId, Preparing, availCount)
      ensures ok ==> h !in reqs
      ensures ok ==> Chains(free, chain, reqs[h := r]) && AllFormatted(desc, ops, info, reqs[h := r])
    {
      hide Chains;
      hide AllFormatted;
      hide FewFree;
      h, r := 0, Req(0, 0, b, write, block, nextId, Preparing, availCount);
      Sizes(free, chain, desc, ops, info, reqs);
      ghost var free0, chain0, desc0, ops0, info0 := free, chain, desc, ops, info;
      var idx;
      ok, idx := Alloc3Desc();
      if !ok {
        StillFormatted(free, chain, desc0, ops, info, reqs, desc);
        return;
      }
      h := idx[0];
      ops := ops[h := Op(if write then 1 else 0, 2 * block)];
      desc := desc[h := Desc(OpAt(h), 16, F_NEXT, idx[1])];
      desc := desc[idx[1] := Desc(DataOf(b), 1024, if write then F_NEXT else F_WRITE + F_NEXT, idx[2])];
      info := info[h := Info(b, 0xff)];
      desc := desc[idx[2] := Desc(StatusAt(h), 1, F_WRITE, 0)];
      chain := chain[h := h][idx[1] := h][idx[2] := h];
      r := Req(idx[1], idx[2], b, write, block, nextId, Preparing, availCount);
      FormatAdd(free0, chain0, desc0, ops0, info0, reqs, h, r, free, chain, desc, ops, info);
    }

    /** A formatted request is entered into the available ring, whose index does not move yet. */
    method Enter(b: nat, h: nat, ghost r: Req, ghost free0: seq<bool>, ghost chain0: seq<nat>)
      requires Entering(free0, chain0, free, chain, desc, ops, info, reqs, busy, executed, nextId, inDevice, pending,
                        h, r)
      requires Ring(availRing, availIdx, availSeen, availCount, availTaken, reqs, Published, Preparing)
      requires Ring(usedRing, usedIdx, usedSeen, usedCount, usedTaken, reqs, Used, Filled)
      requires r.b == b && r.ticket == availCount
      modifies `busy, `availRing, `reqs, `preparing, `nextId
      ensures reqs == old(reqs)[h := r] && preparing == {h} && busy == old(busy) + {b} && nextId == old(nextId) + 1
      ensures Valid()
    {
      hide Books;
      hide Ring;
      hide Entering;
      ghost var all := PrepareStep(free0, chain0, free, chain, desc, ops, info, reqs, busy, executed, nextId, inDevice,
                                   pending, h, r, availRing, availIdx, availSeen, availCount, availTaken,
                                   usedRing, usedIdx, usedSeen, usedCount, usedTaken);
      busy := busy + {b};
      availRing := availRing[availIdx % 8 := h];
      nextId := nextId + 1;
      preparing := {h};
      reqs := all;
    }

    /**
     * virtio_disk_rw up to the ring entry.  With no three descriptors free
     * the caller sleeps.
     */
    method Prepare(b: nat, write: bool, block: nat) returns (ok: bool, h: nat, ghost r: Req)
      requires Valid() && preparing == {} && b != 0 && NotOwned(reqs, b)
      modifies `free, `desc, `ops, `info, `chain, `busy, `availRing, `reqs, `preparing, `nextId
      ensures r == Req(r.second, r.third, b, write, block, old(nextId), Preparing, availCount)
      ensures reqs == if ok then old(reqs)[h := r] else old(reqs)
      ensures ok <==> !FewFree(old(free))
      ensures ok ==> h !in old(reqs) && nextId == old(nextId) + 1
      ensures !ok ==> nextId == old(nextId)
      ensures preparing == if ok then {h} else {}
      ensures busy == if ok then old(busy) + {b} else old(busy)
      ensures r.id !in executed
      ensures Valid()
    {
      hide Chains;
      hide AllFormatted;
      hide Owners;
      hide Ring;
      hide Holders;
      hide FewFree;
      hide NotOwned;
      BooksParts(free, chain, desc, ops, info, reqs, busy, executed, nextId, inDevice, pending, preparing);
      FreshId(reqs, busy, executed, nextId);
      ghost var free0, chain0 := free, chain;
      ok, h, r := Format(b, write, block);
      if ok {
        Enter(b, h, r, free0, chain0);
      }
    }

    /** The rest of virtio_disk_rw before it sleeps: the index moves and the device is told. */
    method Publish(h: nat)
      requires Valid() && preparing == {h}
      modifies `availIdx, `reqs, `preparing, `availCount
      ensures Moved(old(reqs), reqs, h, Preparing, Published, old(availCount)) && preparing == {}
      ensures Valid()
    {
      hide Books;
      hide Ring;
      hide Moved;
      ghost var all := PublishStep(free, chain, desc, ops, info, reqs, busy, executed, nextId, inDevice, pending,
                                   preparing,
                                   availRing, availIdx, availSeen, availCount, availTaken,
                                   usedRing, usedIdx, usedSeen, usedCount, usedTaken, h);
      availIdx := Next16(availIdx);
      reqs, preparing, availCount := all, {}, availCount + 1;
    }

    /** The device takes the next request from the available ring, if there is one. */
    method DeviceFetch() returns (some: bool, h: nat)
      requires Valid()
      modifies `availSeen, `inDevice, `reqs, `availTaken
      ensures some <==> old(availSeen) != availIdx
      ensures some ==>
        Moved(old(reqs), reqs, h, Published, InDevice, old(availTaken)) && inDevice == old(inDevice) + {h}
      ensures !some ==> reqs == old(reqs) && inDevice == old(inDevice)
      ensures Valid()
    {
      hide Books;
      hide Ring;
      hide Moved;
      some, h := availSeen != availIdx, 0;
      if some {
        ghost var all := FetchStep(free, chain, desc, ops, info, reqs, busy, executed, nextId, inDevice, pending,
                                   preparing,
                                   availRing, availIdx, availSeen, availCount, availTaken,
                                   usedRing, usedIdx, usedSeen, usedCount, usedTaken);
        h := availRing[availSeen % 8];
        availSeen := Next16(availSeen);
        inDevice := inDevice + {h};
        availTaken := availTaken + 1;
        reqs := all;
      }
    }

    /** The device follows the chain of head h and moves the data. */
    method Serve(h: nat)
      requires |desc| == |ops| == 8
      modifies `data, `blocks
      ensures var command := Decode(desc, ops, h);
        Transferred(old(data), old(blocks), data, blocks, command.2, command.1, command.0)
    {
      var command := Decode(desc, ops, h);
      data, blocks := Transfer(data, blocks, command.2, command.1, command.0);
    }

    /** It then sets the status and writes the used ring. */
    method Report(h: nat)
      requires Valid() && h in inDevice && pending == {}
      modifies `info, `usedRing, `inDevice, `pending, `reqs, `executed
      ensures h in old(reqs) && Moved(old(reqs), reqs, h, InDevice, Filled, usedCount)
      ensures old(reqs)[h].id !in old(executed) && executed == old(executed) + {old(reqs)[h].id}
      ensures Valid()
    {
      hide Books;
      hide Ring;
      hide Moved;
      hide Decode;
      ghost var all := FillStep(free, chain, desc, ops, info, reqs, busy, executed, nextId, inDevice, pending,
                                preparing,
                                availRing, availIdx, availSeen, availCount, availTaken,
                                usedRing, usedIdx, usedSeen, usedCount, usedTaken, h);
      ghost var done := executed + {reqs[h].id};
      info := info[h := Info(info[h].b, 0)];
      usedRing := usedRing[usedIdx % 8 := h];
      inDevice := inDevice - {h};
      pending := {h};
      executed := done;
      reqs := all;
    }

    /** A request is carried out: what the device does is what was asked for, and it does it once. */
    method DeviceFinish(h: nat)
      requires Valid() && h in inDevice && pending == {}
      modifies `data, `blocks, `info, `usedRing, `inDevice, `pending, `reqs, `executed
      ensures h in old(reqs) && Moved(old(reqs), reqs, h, InDevice, Filled, usedCount)
      ensures old(reqs)[h].id !in old(executed) && executed == old(executed) + {old(reqs)[h].id}
      ensures Transferred(old(data), old(blocks), data, blocks, old(reqs)[h].b, old(reqs)[h].block, old(reqs)[h].write)
      ensures Valid()
    {
      hide Books;
      hide Ring;
      hide Moved;
      hide Decode;
      hide Transferred;
      Asked(free, chain, desc, ops, info, reqs, busy, executed, nextId, inDevice, pending, preparing, h);
      Serve(h);
      Report(h);
    }

    /** The device moves the index of the used ring. */
    method DeviceAnnounce(h: nat)
      requires Valid() && pending == {h}
      modifies `usedIdx, `pending, `reqs, `usedCount
      ensures Moved(old(reqs), reqs, h, Filled, Used, old(usedCount)) && pending == {}
      ensures Valid()
    {
      hide Books;
      hide Ring;
      hide Moved;
      ghost var all := AnnounceStep(free, chain, desc, ops, info, reqs, busy, executed, nextId, inDevice, pending,
                                    preparing,
                                    availRing, availIdx, availSeen, availCount, availTaken,
                                    usedRing, usedIdx, usedSeen, usedCount, usedTaken, h);
      usedIdx := Next16(usedIdx);
      pending := {};
      reqs, usedCount := all, usedCount + 1;
    }

    /** One round of the loop of virtio_disk_intr: panic never happens. */
    method IntrOne() returns (some: bool, panic: bool, h: nat)
      requires Valid()
      modifies `usedSeen, `busy, `reqs, `usedTaken
      ensures !panic && (some <==> old(usedSeen) != usedIdx)
      ensures some ==>
        h in old(reqs) && Moved(old(reqs), reqs, h, Used, Done, old(usedTaken)) && busy == old(busy) - {old(reqs)[h].b}
      ensures !some ==> reqs == old(reqs) && busy == old(busy) && usedSeen == usedIdx
      ensures usedTaken == if some then old(usedTaken) + 1 else old(usedTaken)
      ensures Valid()
    {
      hide Books;
      hide Ring;
      hide Moved;
      some, panic, h := usedSeen != usedIdx, false, 0;
      if some {
        ghost var all := IntrStep(free, chain, desc, ops, info, reqs, busy, executed, nextId, inDevice, pending,
                                  preparing,
                                  availRing, availIdx, availSeen, availCount, availTaken,
                                  usedRing, usedIdx, usedSeen, usedCount, usedTaken);
        h := usedRing[usedSeen % 8];
        panic := info[h].status != 0;
        busy := busy - {info[h].b};
        usedSeen := Next16(usedSeen);
        reqs, usedTaken := all, usedTaken + 1;
      }
    }

    /** virtio_disk_intr with the device at rest: it leaves no request finished and unannounced to its caller. */
    method Intr()
      requires Valid()
      modifies `usedSeen, `busy, `reqs, `usedTaken
      ensures Valid() && usedSeen == usedIdx
      ensures forall h | h in reqs :: reqs[h].phase != Used
    {
      hide Books;
      hide Ring;
      hide Moved;
      var some := true;
      while some
        invariant Valid()
        invariant !some ==> usedSeen == usedIdx
        decreases usedCount - usedTaken, some
      {
        ghost var taken := usedTaken;
        var panic, h;
        some, panic, h := IntrOne();
        RingFacts(usedRing, usedIdx, usedSeen, usedCount, usedTaken, reqs, Used, Filled);
      }
      BooksChains(free, chain, desc, ops, info, reqs, busy, executed, nextId, inDevice, pending, preparing);
      hide Chains;
      RingNonempty(free, chain, usedRing, usedIdx, usedSeen, usedCount, usedTaken, reqs, Used, Filled);
      RingFacts(usedRing, usedIdx, usedSeen, usedCount, usedTaken, reqs, Used, Filled);
      RingEmpty(usedRing, usedIdx, usedSeen, usedCount, usedTaken, reqs, Used, Filled);
    }

    /** The end of virtio_disk_rw, once the buffer is no longer busy: the request was carried out. */
    method Finish(h: nat)
      requires Valid() && h in reqs && reqs[h].b !in busy
      modifies `info, `free, `desc, `reqs
      ensures old(reqs)[h].phase == Done && old(reqs)[h].id in executed
      ensures forall g | g in old(reqs) && g != h :: old(reqs)[g].id != old(reqs)[h].id
      ensures reqs == old(reqs) - {h}
      ensures Valid()
    {
      hide Books;
      hide Ring;
      FinishFacts(free, chain, desc, ops, info, reqs, busy, executed, nextId, inDevice, pending, preparing, h);
      ghost var free0, desc0, info0 := free, desc, info;
      info := info[h := Info(0, info[h].status)];
      FreeChain(h, reqs[h].second, reqs[h].third);
      FinishStep(free0, chain, desc0, ops, info0, reqs, busy, executed, nextId, inDevice, pending, preparing,
                 availRing, availIdx, availSeen, availCount, availTaken,
                 usedRing, usedIdx, usedSeen, usedCount, usedTaken, h, free, desc, info);
      reqs := reqs - {h};
    }

    /** A caller with a buffer of its own prepares a request, if three descriptors are free. */
    method DoRequest(b: nat, write: bool, block: nat)
      requires Valid() && Served() && preparing == {} && b != 0 && b !in callers.Values
      modifies `free, `desc, `ops, `info, `chain, `busy, `availRing, `reqs, `preparing, `nextId, `callers, `asked
      ensures Valid() && Served()
      ensures if FewFree(old(free)) then reqs == old(reqs) && asked == old(asked) && nextId == old(nextId)
              else Accepted(old(reqs), old(asked), old(nextId), reqs, asked, nextId, Ask(b, write, block, Get(data, b)))
    {
      hide Books;
      hide Ring;
      hide Calls;
      hide Ledger;
      hide Logbook;
      hide Orders;
      hide FewFree;
      hide Accepted;
      NobodyCalls(callers, reqs, b);
      hide NotOwned;
      ghost var reqs0 := reqs;
      var ok, h;
      ghost var r;
      ok, h, r := Prepare(b, write, block);
      if ok {
        CallServed(reqs0, callers, executed, returned, initial, history, blocks, data, asked, nextId - 1, h, r);
        callers := callers[h := b];
        asked := asked[nextId - 1 := Ask(b, write, block, Get(data, b))];
      }
    }

    method DoNotify(h: nat)
      requires Valid() && Served() && h in preparing
      modifies `availIdx, `reqs, `preparing, `availCount
      ensures Valid() && Served() && preparing == {}
      ensures OneMoves(old(reqs), reqs, Preparing, Published)
    {
      hide Books;
      hide Ring;
      hide Calls;
      hide Ledger;
      hide Logbook;
      hide Orders;
      hide Moved;
      hide OneMoves;
      ghost var reqs0, ticket := reqs, availCount;
      OnePreparing(free, chain, desc, ops, info, reqs, busy, executed, nextId, inDevice, pending, preparing,
                   availRing, availIdx, availSeen, availCount, availTaken, h);
      Publish(h);
      TheMove(reqs0, reqs, h, Preparing, Published, ticket);
      MovedOn(reqs0, reqs, callers, executed, returned, h, Preparing, Published, ticket);
      OrdersMove(asked, history, reqs0, data, nextId, h, Preparing, Published, ticket, reqs);
      LogbookMove(initial, history, blocks, data, reqs0, executed, h, Preparing, Published, ticket, reqs);
    }

    method DoFetch()
      requires Valid() && Served()
      modifies `availSeen, `inDevice, `reqs, `availTaken
      ensures Valid() && Served()
      ensures if old(availSeen) != availIdx then OneMoves(old(reqs), reqs, Published, InDevice) else reqs == old(reqs)
    {
      hide Books;
      hide Ring;
      hide Calls;
      hide Ledger;
      hide Logbook;
      hide Orders;
      hide Moved;
      hide OneMoves;
      ghost var reqs0, ticket := reqs, availTaken;
      var some, h := DeviceFetch();
      if some {
        TheMove(reqs0, reqs, h, Published, InDevice, ticket);
        MovedOn(reqs0, reqs, callers, executed, returned, h, Published, InDevice, ticket);
        OrdersMove(asked, history, reqs0, data, nextId, h, Published, InDevice, ticket, reqs);
        LogbookMove(initial, history, blocks, data, reqs0, executed, h, Published, InDevice, ticket, reqs);
      }
    }

    /** The device carries out a request it has fetched: the history gains its event. */
    method DoExecute(h: nat)
      requires Valid() && Served() && h in inDevice && pending == {}
      modifies `data, `blocks, `info, `usedRing, `inDevice, `pending, `reqs, `executed, `history
      ensures Valid() && Served() && old(executed) <= executed
      ensures h in old(reqs) && history == old(history) + [EventOf(old(reqs)[h], data)]
    {
      hide Books;
      hide Ring;
      hide Calls;
      hide Ledger;
      hide Logbook;
      hide Orders;
      hide Moved;
      hide Transferred;
      ghost var reqs0, executed0, data0, blocks0 := reqs, executed, data, blocks;
      InDeviceIs(free, chain, desc, ops, info, reqs, busy, executed, nextId, inDevice, pending, preparing, h);
      DistinctBuffers(free, chain, desc, ops, info, reqs, busy, executed, nextId, inDevice, pending, preparing, h);
      DeviceFinish(h);
      MovedOn(reqs0, reqs, callers, executed0, returned, h, InDevice, Filled, usedCount);
      MoreExecuted(reqs, executed0, executed, returned);
      ghost var e := LogbookExecute(initial, history, blocks0, data0, reqs0, executed0, h, usedCount, blocks, data,
                                    reqs);
      OrdersExecute(asked, history, blocks0, data0, reqs0, nextId, h, usedCount, blocks, data, reqs);
      history := history + [e];
    }

    method DoAnnounce(h: nat)
      requires Valid() && Served() && h in pending
      modifies `usedIdx, `pending, `reqs, `usedCount
      ensures Valid() && Served() && pending == {}
      ensures OneMoves(old(reqs), reqs, Filled, Used)
    {
      hide Books;
      hide Ring;
      hide Calls;
      hide Ledger;
      hide Logbook;
      hide Orders;
      hide Moved;
      hide OneMoves;
      ghost var reqs0, ticket := reqs, usedCount;
      OnePending(free, chain, desc, ops, info, reqs, busy, executed, nextId, inDevice, pending, preparing,
                 usedRing, usedIdx, usedSeen, usedCount, usedTaken, h);
      DeviceAnnounce(h);
      TheMove(reqs0, reqs, h, Filled, Used, ticket);
      MovedOn(reqs0, reqs, callers, executed, returned, h, Filled, Used, ticket);
      OrdersMove(asked, history, reqs0, data, nextId, h, Filled, Used, ticket, reqs);
      LogbookMove(initial, history, blocks, data, reqs0, executed, h, Filled, Used, ticket, reqs);
    }

    method DoInterrupt()
      requires Valid() && Served()
      modifies `usedSeen, `busy, `reqs, `usedTaken
      ensures Valid() && Served()
      ensures if old(usedSeen) != usedIdx then OneMoves(old(reqs), reqs, Used, Done) else reqs == old(reqs)
    {
      hide Books;
      hide Ring;
      hide Calls;
      hide Ledger;
      hide Logbook;
      hide Orders;
      hide Moved;
      hide OneMoves;
      ghost var reqs0, ticket := reqs, usedTaken;
      var some, panic, h := IntrOne();
      if some {
        TheMove(reqs0, reqs, h, Used, Done, ticket);
        MovedOn(reqs0, reqs, callers, executed, returned, h, Used, Done, ticket);
        OrdersMove(asked, history, reqs0, data, nextId, h, Used, Done, ticket, reqs);
        LogbookMove(initial, history, blocks, data, reqs0, executed, h, Used, Done, ticket, reqs);
      }
    }

    /** A caller whose buffer is no longer busy returns: its request is in the history, once, and its buffer holds what
        the device moved, for a read the block as it was then. */
    method DoReturn(h: nat) returns (ghost k: nat)
      requires Valid() && Served() && h in callers && callers[h] !in busy
      modifies `info, `free, `desc, `reqs, `callers, `returned
      ensures Valid() && Served()
      ensures h in old(reqs) && old(reqs)[h].id in executed && returned == old(returned) + {old(reqs)[h].id}
      ensures Answered(initial, history, data, asked, old(reqs)[h].id, k) && callers == old(callers) - {h}
      ensures asked[old(reqs)[h].id].b == old(callers)[h]
    {
      hide Books;
      hide Ring;
      CallOf(callers, reqs, h);
      hide Calls;
      hide Ledger;
      hide Logbook;
      hide Orders;
      hide Answered;
      ghost var reqs0 := reqs;
      Finish(h);
      k := ReturnServed(reqs0, callers, executed, returned, initial, history, blocks, data, asked, nextId, h);
      callers := callers - {h};
      returned := returned + {reqs0[h].id};
    }

    /** A process changes a buffer that it has not handed to the driver. */
    method DoStore(b: nat, contents: Block)
      requires Valid() && Served() && b !in callers.Values
      modifies `data
      ensures Valid() && Served() && data == old(data)[b := contents]
    {
      hide Books;
      hide Ring;
      NobodyCalls(callers, reqs, b);
      hide Calls;
      hide Ledger;
      hide Logbook;
      hide Orders;
      hide NotOwned;
      LogbookStore(initial, history, blocks, data, reqs, executed, b, contents);
      OrdersStore(asked, history, reqs, data, nextId, b, contents);
      data := data[b := contents];
    }

    /** Heads and indices tell which steps have something to do. */
    lemma Tells()
      requires Valid()
      ensures preparing != {} <==> SomeIn(reqs, Preparing)
      ensures pending != {} <==> SomeIn(reqs, Filled)
      ensures availSeen != availIdx <==> SomeIn(reqs, Published)
      ensures usedSeen != usedIdx <==> SomeIn(reqs, Used)
    {
      hide Books;
      hide Ring;
      hide SomeIn;
      hide Chains;
      SetsTell(free, chain, desc, ops, info, reqs, busy, executed, nextId, inDevice, pending, preparing);
      RingTells(free, chain, availRing, availIdx, availSeen, availCount, availTaken, reqs, Published, Preparing);
      RingTells(free, chain, usedRing, usedIdx, usedSeen, usedCount, usedTaken, reqs, Used, Filled);
    }

    /** A step of a process that uses the disk, if it is possible. */
    method DoCaller(step: Step)
      requires Valid() && Served() && (step.Store? || step.Request? || step.Notify?)
      modifies this
      ensures Valid() && Served() && initial == old(initial)
      ensures executed == old(executed) && returned == old(returned) && history == old(history)
      ensures Buffered(step, old(callers), old(data), data)
      ensures Advances(step, old(reqs), reqs)
      ensures step.Request? && old(Accepts(step.b)) ==>
        Accepted(old(reqs), old(asked), old(nextId), reqs, asked, nextId, AskOf(step, old(data)))
      ensures !(step.Request? && old(Accepts(step.b))) ==> asked == old(asked) && nextId == old(nextId)
    {
      hide Books;
      hide Ring;
      hide SomeIn;
      hide OneMoves;
      hide Calls;
      hide Ledger;
      hide Logbook;
      hide Orders;
      hide FewFree;
      hide Accepted;
      Tells();
      if step.Store? {
        if step.b !in callers.Values {
          DoStore(step.b, step.contents);
        }
      } else if step.Request? {
        if preparing == {} && step.b != 0 && step.b !in callers.Values {
          DoRequest(step.b, step.write, step.block);
        }
      } else if preparing != {} {
        var h :| h in preparing;
        DoNotify(h);
      }
    }

    /** The interrupt, or the return of a caller. */
    method DoFinish(step: Step)
      requires Valid() && Served() && (step.Interrupt? || step.Return?)
      modifies this
      ensures Valid() && Served() && initial == old(initial)
      ensures executed == old(executed) && old(returned) <= returned && history == old(history)
      ensures data == old(data) && asked == old(asked) && nextId == old(nextId)
      ensures Advances(step, old(reqs), reqs)
      ensures step.Return? && old(preparing == {} && step.h in callers && callers[step.h] !in busy) ==>
        && step.h in old(reqs) && callers == old(callers) - {step.h}
        && returned == old(returned) + {old(reqs)[step.h].id}
        && HasAnswer(initial, history, data, asked, old(reqs)[step.h].id)
    {
      hide Books;
      hide Ring;
      hide SomeIn;
      hide OneMoves;
      hide Calls;
      hide Ledger;
      hide Logbook;
      hide Orders;
      hide Answered;
      Tells();
      if step.Interrupt? {
        if preparing == {} {
          DoInterrupt();
        }
      } else if preparing == {} && step.h in callers && callers[step.h] !in busy {
        ghost var k := DoReturn(step.h);
      }
    }

    /** A step of the device, if it is possible. */
    method DoDevice(step: Step)
      requires Valid() && Served() && (step.Fetch? || step.Execute? || step.Announce?)
      modifies this
      ensures Valid() && Served() && initial == old(initial)
      ensures old(executed) <= executed && returned == old(returned) && old(history) <= history
      ensures Buffered(step, old(callers), old(data), data)
      ensures asked == old(asked) && nextId == old(nextId)
      ensures Advances(step, old(reqs), reqs)
      ensures if step.Execute? && old(step.h in inDevice && pending == {})
              then step.h in old(reqs) && history == old(history) + [EventOf(old(reqs)[step.h], data)]
              else history == old(history)
    {
      hide Books;
      hide Ring;
      hide SomeIn;
      hide OneMoves;
      hide Calls;
      hide Ledger;
      hide Logbook;
      hide Orders;
      Tells();
      if step.Fetch? {
        DoFetch();
      } else if step.Execute? {
        if step.h in inDevice && pending == {} {
          DoExecute(step.h);
        }
      } else if pending != {} {
        var h :| h in pending;
        DoAnnounce(h);
      }
    }

    /** A call with buffer b would get its descriptors now. */
    ghost predicate Accepts(b: nat)
      reads this
    {
      preparing == {} && b != 0 && b !in callers.Values && !FewFree(free)
    }

    /** Carries out one step if it is possible.  A call that gets its descriptors is entered as it was made, and one
        that returns finds done what it asked for. */
    method Do(step: Step)
      requires Valid() && Served()
      modifies this
      ensures Valid() && Served() && initial == old(initial)
      ensures old(executed) <= executed && old(returned) <= returned && old(history) <= history
      ensures Buffered(step, old(callers), old(data), data)
      ensures Advances(step, old(reqs), reqs)
      ensures step.Request? && old(Accepts(step.b)) ==>
        Accepted(old(reqs), old(asked), old(nextId), reqs, asked, nextId, AskOf(step, old(data)))
      ensures !(step.Request? && old(Accepts(step.b))) ==> asked == old(asked) && nextId == old(nextId)
      ensures if step.Execute? && old(step.h in inDevice && pending == {})
              then step.h in old(reqs) && history == old(history) + [EventOf(old(reqs)[step.h], data)]
              else history == old(history)
      ensures step.Return? && old(preparing == {} && step.h in callers && callers[step.h] !in busy) ==>
        && step.h in old(reqs) && callers == old(callers) - {step.h}
        && returned == old(returned) + {old(reqs)[step.h].id}
        && HasAnswer(initial, history, data, asked, old(reqs)[step.h].id)
    {
      hide Books;
      hide Ring;
      hide Calls;
      hide Ledger;
      hide Logbook;
      hide Orders;
      hide Answered;
      hide FewFree;
      hide Accepted;
      if step.Fetch? || step.Execute? || step.Announce? {
        DoDevice(step);
      } else if step.Interrupt? || step.Return? {
        DoFinish(step);
      } else {
        DoCaller(step);
      }
    }

    ghost function Look(): View
      reads this
    {
      View(data, callers, preparing, free, asked, nextId)
    }

    /** Whatever order the steps of driver and device come in, the protocol holds: the requests carried out are in the
        history once each, as the calls in the list of steps asked for, and the disk holds what its writes left.
        `trace` shows what callers can see before each step and at the end. */
    method Run(steps: seq<Step>) returns (ghost trace: seq<View>)
      requires Valid() && Served()
      modifies this
      ensures Valid() && Served() && initial == old(initial) && old(history) <= history
      ensures OnceEach(history) && ReadsWrites(initial, history) && blocks == Apply(initial, history)
      ensures forall id | id in returned :: HasEvent(history, id)
      ensures forall k | 0 <= k < |history| :: Carries(asked, history[k])
      ensures |trace| == |steps| + 1 && trace[0] == old(Look()) && trace[|steps|] == Look()
      ensures forall n | 0 <= n < |steps| :: Taken(steps[n], trace[n], trace[n + 1])
      ensures Called(steps, trace)
    {
      hide Books;
      hide Ring;
      hide Calls;
      hide Apply;
      hide BuffersHold;
      hide ReadsWrites;
      hide Awaits;
      hide Carries;
      hide Called;
      hide Taken;
      trace := [Look()];
      NoneCalled(trace[0]);
      assert steps[..0] == [];
      for i := 0 to |steps|
        invariant Valid() && Served() && initial == old(initial) && old(history) <= history
        invariant |trace| == i + 1 && trace[0] == old(Look()) && trace[i] == Look()
        invariant forall n | 0 <= n < i :: Taken(steps[n], trace[n], trace[n + 1])
        invariant Called(steps[..i], trace)
      {
        DoTaken(steps[i]);
        assert steps[..i + 1] == steps[..i] + [steps[i]];
        MoreCalled(steps[..i], trace, steps[i], Look());
        trace := trace + [Look()];
      }
      assert steps[..|steps|] == steps;
    }

    /** A step as its callers see it. */
    method DoTaken(step: Step)
      requires Valid() && Served()
      modifies this
      ensures Valid() && Served() && initial == old(initial) && old(history) <= history
      ensures Taken(step, old(Look()), Look())
    {
      hide Books;
      hide Ring;
      hide Calls;
      hide Ledger;
      hide Logbook;
      hide Awaits;
      hide Carries;
      hide FewFree;
      hide HasAnswer;
      Do(step);
    }
  }

  lemma CallServed(reqs: Reqs, callers: map<nat, nat>, executed: set<nat>, returned: set<nat>,
                   initial: map<nat, Block>, history: seq<Event>, blocks: map<nat, Block>, data: map<nat, Block>,
                   asked: map<nat, Ask>, id: nat, h: nat, r: Req)
    requires Calls(callers, reqs) && Ledger(reqs, executed, returned) && r.id !in executed
    requires Logbook(initial, history, blocks, data, reqs, executed) && Orders(asked, history, reqs, data, id)
    requires h !in reqs && r.id == id && r.phase == Preparing
    ensures var a := Ask(r.b, r.write, r.block, Get(data, r.b));
      && Calls(callers[h := r.b], reqs[h := r]) && Ledger(reqs[h := r], executed, returned)
      && Logbook(initial, history, blocks, data, reqs[h := r], executed)
      && Orders(asked[id := a], history, reqs[h := r], data, id + 1)
      && Accepted(reqs, asked, id, reqs[h := r], asked[id := a], id + 1, a)
  {
    NewCall(reqs, callers, executed, returned, h, r);
    LogbookAdd(initial, history, blocks, data, reqs, executed, h, r);
    OrdersAdd(asked, history, reqs, data, id, h, r);
    hide Calls;
    hide Ledger;
    hide Logbook;
    hide Orders;
    assert NewRequest(reqs, reqs[h := r], Ask(r.b, r.write, r.block, Get(data, r.b)), id, h);
  }

  lemma ReturnServed(reqs: Reqs, callers: map<nat, nat>, executed: set<nat>, returned: set<nat>,
                     initial: map<nat, Block>, history: seq<Event>, blocks: map<nat, Block>, data: map<nat, Block>,
                     asked: map<nat, Ask>, nextId: nat, h: nat) returns (k: nat)
    requires Calls(callers, reqs) && Ledger(reqs, executed, returned) && h in reqs && Executed(reqs[h].phase)
    requires Logbook(initial, history, blocks, data, reqs, executed) && Orders(asked, history, reqs, data, nextId)
    requires reqs[h].id in executed && forall g | g in reqs && g != h :: reqs[g].id != reqs[h].id
    ensures Answered(initial, history, data, asked, reqs[h].id, k) && asked[reqs[h].id].b == reqs[h].b
    ensures Calls(callers - {h}, reqs - {h}) && Ledger(reqs - {h}, executed, returned + {reqs[h].id})
    ensures Logbook(initial, history, blocks, data, reqs - {h}, executed)
    ensures Orders(asked, history, reqs - {h}, data, nextId)
  {
    k := LogbookReturn(initial, history, blocks, data, reqs, executed, h, asked, nextId);
    OrdersDrop(asked, history, reqs, data, nextId, h);
    CallOver(reqs, callers, executed, returned, h);
    LogbookAdd(initial, history, blocks, data, reqs, executed, h, reqs[h].(phase := Preparing));
    hide Calls;
    hide Ledger;
    hide Logbook;
    hide Orders;
    hide Answered;
  }

  /** What the history says of a request once the data has moved. */
  function EventOf(r: Req, data: map<nat, Block>): (e: Event)
  {
    Event(r.id, r.b, r.block, r.write, Get(data, r.b))
  }

  ghost predicate OneMoves(reqs: Reqs, reqs': Reqs, from: Phase, to: Phase)
  {
    exists h, ticket :: Moved(reqs, reqs', h, from, to, ticket)
  }

  lemma TheMove(reqs: Reqs, reqs': Reqs, h: nat, from: Phase, to: Phase, ticket: nat)
    requires Moved(reqs, reqs', h, from, to, ticket)
    ensures OneMoves(reqs, reqs', from, to)
  {
  }

  /** A step moves one request on whenever there is one for it to move. */
  ghost predicate Advances(step: Step, reqs: Reqs, reqs': Reqs)
  {
    match step
    case Notify => if SomeIn(reqs, Preparing) then OneMoves(reqs, reqs', Preparing, Published) else reqs' == reqs
    case Fetch => if SomeIn(reqs, Published) then OneMoves(reqs, reqs', Published, InDevice) else reqs' == reqs
    case Announce => if SomeIn(reqs, Filled) then OneMoves(reqs, reqs', Filled, Used) else reqs' == reqs
    case Interrupt =>
      if SomeIn(reqs, Used) && !SomeIn(reqs, Preparing) then OneMoves(reqs, reqs', Used, Done) else reqs' == reqs
    case Store(_, _) => reqs' == reqs
    case _ => true
  }

  /** What the callers of the driver can see. */
  datatype View = View(data: map<nat, Block>, callers: map<nat, nat>, preparing: set<nat>, free: seq<bool>,
                       asked: map<nat, Ask>, nextId: nat)

  /** The step is a call that gets its descriptors. */
  ghost predicate IsCall(step: Step, v: View)
  {
    step.Request? && v.preparing == {} && step.b != 0 && step.b !in v.callers.Values && !FewFree(v.free)
  }

  /** A call is entered as it was made, and nothing else is; only a store and the device change buffers. */
  ghost predicate Taken(step: Step, v: View, v': View)
  {
    && Buffered(step, v.callers, v.data, v'.data)
    && (if IsCall(step, v) then v'.asked == v.asked[v.nextId := AskOf(step, v.data)] && v'.nextId == v.nextId + 1
        else v'.asked == v.asked && v'.nextId == v.nextId)
    && (forall id | id in v'.asked :: id < v'.nextId)
  }

  /** What a step does to the buffers, but for the device's own part. */
  ghost predicate Buffered(step: Step, callers: map<nat, nat>, data: map<nat, Block>, data': map<nat, Block>)
  {
    match step
    case Store(b, contents) => data' == if b in callers.Values then data else data[b := contents]
    case Execute(_) => true
    case _ => data' == data
  }

  /** Each call of the run is what its serial number now stands for, and every number given out in the run is that of
      one call. */
  ghost predicate Called(steps: seq<Step>, trace: seq<View>)
  {
    && |trace| == |steps| + 1
    && (forall n | 0 <= n < |steps| && IsCall(steps[n], trace[n]) :: CallIs(steps, trace, n, trace[n].nextId))
    && (forall id | id in trace[|steps|].asked && id !in trace[0].asked ::
          exists n :: 0 <= n < |steps| && CallIs(steps, trace, n, id))
    && (forall n | 0 <= n <= |steps| :: trace[n].nextId <= trace[|steps|].nextId)
  }

  ghost predicate CallIs(steps: seq<Step>, trace: seq<View>, n: nat, id: nat)
    requires n < |steps| < |trace|
  {
    && IsCall(steps[n], trace[n]) && id == trace[n].nextId < trace[|steps|].nextId
    && id in trace[|steps|].asked && trace[|steps|].asked[id] == AskOf(steps[n], trace[n].data)
  }

  lemma NoneCalled(v: View)
    ensures Called([], [v])
  {
  }

  lemma MoreCalled(steps: seq<Step>, trace: seq<View>, step: Step, v: View)
    requires Called(steps, trace) && Taken(step, trace[|steps|], v)
    ensures Called(steps + [step], trace + [v])
  {
    hide IsCall;
    hide AskOf;
    hide Buffered;
    var steps', trace' := steps + [step], trace + [v];
    var last := trace[|steps|];
    forall n | 0 <= n < |steps'| && IsCall(steps'[n], trace'[n])
      ensures CallIs(steps', trace', n, trace'[n].nextId)
    {
      if n < |steps| {
        assert CallIs(steps, trace, n, trace[n].nextId);
      }
    }
    forall id | id in v.asked && id !in trace'[0].asked
      ensures exists n :: 0 <= n < |steps'| && CallIs(steps', trace', n, id)
    {
      if id in last.asked && (IsCall(step, last) ==> id != last.nextId) {
        var n :| 0 <= n < |steps| && CallIs(steps, trace, n, id);
        assert CallIs(steps', trace', n, id);
      } else {
        assert CallIs(steps', trace', |steps|, id);
      }
    }
  }

  /** What a call asks for, its buffer as it is. */
  function AskOf(step: Step, data: map<nat, Block>): (a: Ask)
    requires step.Request?
  {
    Ask(step.b, step.write, step.block, Get(data, step.b))
  }

  /** Head h now has a request for just what was asked. */
  ghost predicate NewRequest(reqs: Reqs, reqs': Reqs, a: Ask, id: nat, h: nat)
  {
    && h !in reqs && h in reqs' && reqs' == reqs[h := reqs'[h]]
    && reqs'[h].b == a.b && reqs'[h].write == a.write && reqs'[h].block == a.block && reqs'[h].id == id
    && reqs'[h].phase == Preparing
  }

  /** A call has been entered under the next serial number. */
  ghost predicate Accepted(reqs: Reqs, asked: map<nat, Ask>, nextId: nat, reqs': Reqs, asked': map<nat, Ask>,
                           nextId': nat, a: Ask)
  {
    nextId' == nextId + 1 && asked' == asked[nextId := a] && exists h :: NewRequest(reqs, reqs', a, nextId, h)
  }

  ghost predicate Calls(callers: map<nat, nat>, reqs: Reqs)
  {
    callers.Keys == reqs.Keys && forall h | h in reqs :: callers[h] == reqs[h].b
  }

  ghost predicate Ledger(reqs: Reqs, executed: set<nat>, returned: set<nat>)
  {
    returned <= executed && forall h | h in reqs :: reqs[h].id !in returned
  }

  lemma NobodyCalls(callers: map<nat, nat>, reqs: Reqs, b: nat)
    requires Calls(callers, reqs) && b !in callers.Values
    ensures NotOwned(reqs, b)
  {
    forall h | h in reqs
      ensures reqs[h].b != b
    {
      assert callers[h] in callers.Values;
    }
  }

  lemma CallOf(callers: map<nat, nat>, reqs: Reqs, h: nat)
    requires Calls(callers, reqs) && h in callers
    ensures h in reqs && callers[h] == reqs[h].b
  {
  }

  lemma NewCall(reqs: Reqs, callers: map<nat, nat>, executed: set<nat>, returned: set<nat>, h: nat, r: Req)
    requires Calls(callers, reqs) && Ledger(reqs, executed, returned) && r.id !in executed
    ensures Calls(callers[h := r.b], reqs[h := r]) && Ledger(reqs[h := r], executed, returned)
  {
  }

  lemma CallOver(reqs: Reqs, callers: map<nat, nat>, executed: set<nat>, returned: set<nat>, h: nat)
    requires Calls(callers, reqs) && Ledger(reqs, executed, returned) && h in reqs && reqs[h].id in executed
    requires forall g | g in reqs && g != h :: reqs[g].id != reqs[h].id
    ensures Calls(callers - {h}, reqs - {h}) && Ledger(reqs - {h}, executed, returned + {reqs[h].id})
  {
  }

  lemma MovedOn(reqs: Reqs, reqs': Reqs, callers: map<nat, nat>, executed: set<nat>, returned: set<nat>, h: nat,
                from: Phase, to: Phase, ticket: nat)
    requires Moved(reqs, reqs', h, from, to, ticket) && Calls(callers, reqs) && Ledger(reqs, executed, returned)
    ensures Calls(callers, reqs') && Ledger(reqs', executed, returned)
  {
  }

  lemma MoreExecuted(reqs: Reqs, executed: set<nat>, executed': set<nat>, returned: set<nat>)
    requires Ledger(reqs, executed, returned) && executed <= executed'
    ensures Ledger(reqs, executed', returned)
  {
  }

  /** What driver and device may do next. */
  datatype Step =
    | Store(b: nat, contents: Block)
    | Request(b: nat, write: bool, block: nat)
    | Notify
    | Fetch
    | Execute(h: nat)
    | Announce
    | Interrupt
    | Return(h: nat)

  method Transfer(data: map<nat, Block>, blocks: map<nat, Block>, b: nat, block: nat, write: bool)
    returns (data': map<nat, Block>, blocks': map<nat, Block>)
    ensures Transferred(data, blocks, data', blocks', b, block, write)
  {
    data', blocks' := data, blocks;
    if write {
      blocks' := blocks[block := Get(data, b)];
    } else {
      data' := data[b := Get(blocks, block)];
    }
  }

  /** The free flags after the descriptors in idx were taken. */
  ghost function Without(free: seq<bool>, idx: seq<nat>): (f: seq<bool>)
    ensures |f| == |free|
  {
    seq(|free|, i requires 0 <= i < |free| => free[i] && i !in idx)
  }

  lemma WithoutOne(free: seq<bool>, idx: seq<nat>, d: nat)
    requires d < |free|
    ensures Without(free, idx)[d := false] == Without(free, idx + [d])
  {
  }

  lemma WithoutFirst(free: seq<bool>, idx: seq<nat>)
    requires idx != [] && idx[0] < |free| && free[idx[0]]
    requires forall m, n | 0 <= m < n < |idx| :: idx[m] != idx[n]
    ensures !Without(free, idx)[idx[0]] && Without(free, idx)[idx[0] := true] == Without(free, idx[1..])
  {
    assert idx == [idx[0]] + idx[1..];
  }

  lemma WithoutThree(free: seq<bool>, a: nat, b: nat, c: nat)
    requires a < |free| && b < |free| && c < |free|
    ensures Without(free, [a, b, c]) == free[a := false][b := false][c := false]
  {
  }

  lemma ThreeFree(free: seq<bool>, a: nat, b: nat, c: nat)
    requires a < |free| && b < |free| && c < |free| && a != b && a != c && b != c && free[a] && free[b] && free[c]
    ensures !FewFree(free)
  {
    var i := if a < b && a < c then a else if b < c then b else c;
    var k := if a > b && a > c then a else if b > c then b else c;
    var j := a + b + c - i - k;
    assert i < j < k && free[i] && free[j] && free[k];
  }

  lemma NoneLeft(free: seq<bool>, idx: seq<nat>)
    requires |free| == 8 && |idx| <= 2
    requires forall k | 0 <= k < 8 :: !Without(free, idx)[k]
    ensures FewFree(free)
  {
    forall i, j, k | 0 <= i < j < k < 8
      ensures !(free[i] && free[j] && free[k])
    {
      if free[i] && free[j] && free[k] {
        assert i in idx && j in idx && k in idx by {
          assert !Without(free, idx)[i] && !Without(free, idx)[j] && !Without(free, idx)[k];
        }
      }
    }
  }
}
