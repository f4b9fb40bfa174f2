/**
 * What the device did, in order: each request that it carried out, once, and
 * the block that moved.  Reads see the writes before them, and a buffer holds
 * what its request moved until its caller returns.
 */
module VirtioLog {
  import opened VirtioState

  /** A request carried out: its serial number, what it asked for and the contents that moved. */
  datatype Event = Event(id: nat, b: nat, block: nat, write: bool, moved: Block)

  /** The contents of a buffer or of a block of the disk. */
  function Get(m: map<nat, Block>, k: nat): (c: Block)
  {
    if k in m then m[k] else []
  }

  /** The data of a request moved the right way between its buffer and its block. */
  ghost predicate Transferred(data: map<nat, Block>, blocks: map<nat, Block>, data': map<nat, Block>, blocks': map<nat,
                              Block>,
                              b: nat, block: nat, write: bool)
  {
    if write then data' == data && blocks' == blocks[block := Get(data, b)]
    else blocks' == blocks && data' == data[b := Get(blocks, block)]
  }

  /** The disk after the events. */
  ghost function Apply(disk: map<nat, Block>, history: seq<Event>): (d: map<nat, Block>)
    decreases |history|
  {
    if history == [] then disk
    else
      var e := history[|history| - 1];
      var d := Apply(disk, history[..|history| - 1]);
      if e.write then d[e.block := e.moved] else d
  }

  /** Each read moved what the writes before it left on the disk. */
  ghost predicate ReadsWrites(disk: map<nat, Block>, history: seq<Event>)
  {
    forall k | 0 <= k < |history| && !history[k].write ::
      history[k].moved == Get(Apply(disk, history[..k]), history[k].block)
  }

  ghost predicate OnceEach(history: seq<Event>)
  {
    forall i, j | 0 <= i < j < |history| :: history[i].id != history[j].id
  }

  /** The events are those of the executed requests. */
  ghost predicate Recorded(history: seq<Event>, executed: set<nat>)
  {
    && (forall k | 0 <= k < |history| :: history[k].id in executed)
    && (forall i | i in executed :: HasEvent(history, i))
  }

  ghost predicate HasEvent(history: seq<Event>, i: nat)
  {
    exists k :: 0 <= k < |history| && history[k].id == i
  }

  /** The event of a request, whose buffer still holds what moved. */
  ghost predicate Stands(history: seq<Event>, r: Req, data: map<nat, Block>)
  {
    Event(r.id, r.b, r.block, r.write, Get(data, r.b)) in history
  }

  ghost predicate BuffersHold(history: seq<Event>, reqs: Reqs, data: map<nat, Block>)
  {
    forall h | h in reqs && Executed(reqs[h].phase) :: Stands(history, reqs[h], data)
  }

  ghost predicate Logbook(disk: map<nat, Block>, history: seq<Event>, blocks: map<nat, Block>, data: map<nat, Block>,
                          reqs: Reqs, executed: set<nat>)
  {
    && blocks == Apply(disk, history) && ReadsWrites(disk, history)
    && OnceEach(history) && Recorded(history, executed) && BuffersHold(history, reqs, data)
  }

  lemma ApplyMore(disk: map<nat, Block>, history: seq<Event>, e: Event)
    ensures var d := Apply(disk, history);
      Apply(disk, history + [e]) == if e.write then d[e.block := e.moved] else d
  {
    assert (history + [e])[..|history|] == history;
  }

  lemma ReadsMore(disk: map<nat, Block>, history: seq<Event>, e: Event)
    requires ReadsWrites(disk, history) && (!e.write ==> e.moved == Get(Apply(disk, history), e.block))
    ensures ReadsWrites(disk, history + [e])
  {
    hide Apply;
    var more := history + [e];
    forall k | 0 <= k < |more| && !more[k].write
      ensures more[k].moved == Get(Apply(disk, more[..k]), more[k].block)
    {
      assert more[..k] == history[..k];
      assert history[..|history|] == history;
    }
  }

  lemma RecordedMore(history: seq<Event>, executed: set<nat>, e: Event)
    requires OnceEach(history) && Recorded(history, executed) && e.id !in executed
    ensures OnceEach(history + [e]) && Recorded(history + [e], executed + {e.id})
  {
    forall i | i in executed + {e.id}
      ensures HasEvent(history + [e], i)
    {
      if i == e.id {
        assert (history + [e])[|history|].id == i;
      } else {
        assert HasEvent(history, i);
        var k :| 0 <= k < |history| && history[k].id == i;
        assert (history + [e])[k].id == i;
      }
    }
  }

  /** The device carries out request h. */
  lemma LogbookExecute(disk: map<nat, Block>, history: seq<Event>, blocks: map<nat, Block>, data: map<nat, Block>,
                       reqs: Reqs, executed: set<nat>, h: nat, ticket: nat,
                       blocks': map<nat, Block>, data': map<nat, Block>, reqs': Reqs) returns (e: Event)
    requires Logbook(disk, history, blocks, data, reqs, executed) && Moved(reqs, reqs', h, InDevice, Filled, ticket)
    requires h in reqs && reqs[h].id !in executed
    requires forall g | g in reqs && g != h :: reqs[g].b != reqs[h].b
    requires Transferred(data, blocks, data', blocks', reqs[h].b, reqs[h].block, reqs[h].write)
    ensures e == Event(reqs[h].id, reqs[h].b, reqs[h].block, reqs[h].write, Get(data', reqs[h].b))
    ensures Logbook(disk, history + [e], blocks', data', reqs', executed + {reqs[h].id})
  {
    hide Apply;
    e := Event(reqs[h].id, reqs[h].b, reqs[h].block, reqs[h].write, Get(data', reqs[h].b));
    ApplyMore(disk, history, e);
    ReadsMore(disk, history, e);
    RecordedMore(history, executed, e);
    forall g | g in reqs' && Executed(reqs'[g].phase)
      ensures Stands(history + [e], reqs'[g], data')
    {
      if g != h {
        assert Stands(history, reqs[g], data);
        assert Get(data', reqs[g].b) == Get(data, reqs[g].b);
      } else {
        assert e == (history + [e])[|history|];
      }
    }
    hide ReadsWrites;
    hide OnceEach;
    hide Recorded;
  }

  /** A request moves on in any other way. */
  lemma LogbookMove(disk: map<nat, Block>, history: seq<Event>, blocks: map<nat, Block>, data: map<nat, Block>,
                    reqs: Reqs, executed: set<nat>, h: nat, from: Phase, to: Phase, ticket: nat, reqs': Reqs)
    requires Logbook(disk, history, blocks, data, reqs, executed) && Moved(reqs, reqs', h, from, to, ticket)
    requires Executed(to) ==> Executed(from)
    ensures Logbook(disk, history, blocks, data, reqs', executed)
  {
    hide Apply;
    hide ReadsWrites;
    hide OnceEach;
    hide Recorded;
    forall g | g in reqs' && Executed(reqs'[g].phase)
      ensures Stands(history, reqs'[g], data)
    {
      assert Stands(history, reqs[g], data);
    }
  }

  /** A new request has not been carried out; one that is over needs its buffer no more. */
  lemma LogbookAdd(disk: map<nat, Block>, history: seq<Event>, blocks: map<nat, Block>, data: map<nat, Block>,
                   reqs: Reqs, executed: set<nat>, h: nat, r: Req)
    requires Logbook(disk, history, blocks, data, reqs, executed) && !Executed(r.phase)
    ensures Logbook(disk, history, blocks, data, reqs[h := r], executed)
    ensures Logbook(disk, history, blocks, data, reqs - {h}, executed)
  {
    hide Apply;
    hide ReadsWrites;
    hide OnceEach;
    hide Recorded;
    hide Stands;
  }

  /** A process changes a buffer that is part of no request. */
  lemma LogbookStore(disk: map<nat, Block>, history: seq<Event>, blocks: map<nat, Block>, data: map<nat, Block>,
                     reqs: Reqs, executed: set<nat>, b: nat, contents: Block)
    requires Logbook(disk, history, blocks, data, reqs, executed) && NotOwned(reqs, b)
    ensures Logbook(disk, history, blocks, data[b := contents], reqs, executed)
  {
    hide Apply;
    hide ReadsWrites;
    hide OnceEach;
    hide Recorded;
    forall g | g in reqs && Executed(reqs[g].phase)
      ensures Stands(history, reqs[g], data[b := contents])
    {
      assert Stands(history, reqs[g], data);
    }
  }

  // ---- what the callers asked for ----

  /** A call of virtio_disk_rw: its arguments, and the contents of the buffer as it was handed over. */
  datatype Ask = Ask(b: nat, write: bool, block: nat, contents: Block)

  /** The request is the one that was asked for, and its buffer is untouched until the device gets to it. */
  ghost predicate Awaits(asked: map<nat, Ask>, r: Req, data: map<nat, Block>)
  {
    && r.id in asked && asked[r.id].b == r.b && asked[r.id].write == r.write && asked[r.id].block == r.block
    && (!Executed(r.phase) ==> Get(data, r.b) == asked[r.id].contents)
  }

  /** The event did what was asked for; a write moved the buffer as it was handed over. */
  ghost predicate Carries(asked: map<nat, Ask>, e: Event)
  {
    && e.id in asked && asked[e.id].b == e.b && asked[e.id].write == e.write && asked[e.id].block == e.block
    && (e.write ==> e.moved == asked[e.id].contents)
  }

  ghost predicate Orders(asked: map<nat, Ask>, history: seq<Event>, reqs: Reqs, data: map<nat, Block>, nextId: nat)
  {
    && (forall id | id in asked :: id < nextId)
    && (forall h | h in reqs :: Awaits(asked, reqs[h], data))
    && (forall k | 0 <= k < |history| :: Carries(asked, history[k]))
  }

  lemma OrdersMove(asked: map<nat, Ask>, history: seq<Event>, reqs: Reqs, data: map<nat, Block>, nextId: nat, h: nat,
                   from: Phase, to: Phase, ticket: nat, reqs': Reqs)
    requires Orders(asked, history, reqs, data, nextId) && Moved(reqs, reqs', h, from, to, ticket)
    requires Executed(from) ==> Executed(to)
    ensures Orders(asked, history, reqs', data, nextId)
  {
    hide Carries;
    forall g | g in reqs'
      ensures Awaits(asked, reqs'[g], data)
    {
      assert Awaits(asked, reqs[g], data);
    }
  }

  lemma OrdersExecute(asked: map<nat, Ask>, history: seq<Event>, blocks: map<nat, Block>, data: map<nat, Block>,
                      reqs: Reqs, nextId: nat, h: nat, ticket: nat,
                      blocks': map<nat, Block>, data': map<nat, Block>, reqs': Reqs)
    requires Orders(asked, history, reqs, data, nextId) && Moved(reqs, reqs', h, InDevice, Filled, ticket) && h in reqs
    requires forall g | g in reqs && g != h :: reqs[g].b != reqs[h].b
    requires Transferred(data, blocks, data', blocks', reqs[h].b, reqs[h].block, reqs[h].write)
    ensures var e := Event(reqs[h].id, reqs[h].b, reqs[h].block, reqs[h].write, Get(data', reqs[h].b));
      Orders(asked, history + [e], reqs', data', nextId)
  {
    var e := Event(reqs[h].id, reqs[h].b, reqs[h].block, reqs[h].write, Get(data', reqs[h].b));
    assert Awaits(asked, reqs[h], data);
    assert Carries(asked, e);
    hide Carries;
    forall g | g in reqs'
      ensures Awaits(asked, reqs'[g], data')
    {
      assert Awaits(asked, reqs[g], data);
      if g != h {
        assert Get(data', reqs[g].b) == Get(data, reqs[g].b);
      }
    }
  }

  /** A new call, under the next serial number. */
  lemma OrdersAdd(asked: map<nat, Ask>, history: seq<Event>, reqs: Reqs, data: map<nat, Block>, nextId: nat, h: nat,
                  r: Req)
    requires Orders(asked, history, reqs, data, nextId) && r.id == nextId && !Executed(r.phase)
    ensures Orders(asked[nextId := Ask(r.b, r.write, r.block, Get(data, r.b))], history, reqs[h := r], data, nextId + 1)
  {
    var asked', reqs' := asked[nextId := Ask(r.b, r.write, r.block, Get(data, r.b))], reqs[h := r];
    forall g | g in reqs'
      ensures Awaits(asked', reqs'[g], data)
    {
      if g != h {
        assert Awaits(asked, reqs[g], data);
      }
    }
    forall k | 0 <= k < |history|
      ensures Carries(asked', history[k])
    {
      assert Carries(asked, history[k]);
    }
  }

  lemma OrdersDrop(asked: map<nat, Ask>, history: seq<Event>, reqs: Reqs, data: map<nat, Block>, nextId: nat, h: nat)
    requires Orders(asked, history, reqs, data, nextId)
    ensures Orders(asked, history, reqs - {h}, data, nextId)
  {
    hide Carries;
    hide Awaits;
  }

  lemma OrdersStore(asked: map<nat, Ask>, history: seq<Event>, reqs: Reqs, data: map<nat, Block>, nextId: nat, b: nat,
                    contents: Block)
    requires Orders(asked, history, reqs, data, nextId) && NotOwned(reqs, b)
    ensures Orders(asked, history, reqs, data[b := contents], nextId)
  {
    hide Carries;
    forall g | g in reqs
      ensures Awaits(asked, reqs[g], data[b := contents])
    {
      assert Awaits(asked, reqs[g], data);
    }
  }

  /** Event k is that of request `id`, which no other event repeats, and did what was asked for; the buffer holds what
      it moved, for a read the block as the writes before left it and for a write what was handed over. */
  ghost predicate Answered(disk: map<nat, Block>, history: seq<Event>, data: map<nat, Block>, asked: map<nat, Ask>,
                           id: nat, k: nat)
  {
    && k < |history| && history[k].id == id && Carries(asked, history[k])
    && (forall j | 0 <= j < |history| && j != k :: history[j].id != id)
    && Get(data, history[k].b) == history[k].moved
    && (!history[k].write ==> history[k].moved == Get(Apply(disk, history[..k]), history[k].block))
  }

  ghost predicate HasAnswer(disk: map<nat, Block>, history: seq<Event>, data: map<nat, Block>, asked: map<nat, Ask>,
                            id: nat)
  {
    exists k: nat :: Answered(disk, history, data, asked, id, k)
  }

  /** What a caller that returns finds. */
  lemma LogbookReturn(disk: map<nat, Block>, history: seq<Event>, blocks: map<nat, Block>, data: map<nat, Block>,
                      reqs: Reqs, executed: set<nat>, h: nat, asked: map<nat, Ask>, nextId: nat) returns (k: nat)
    requires Logbook(disk, history, blocks, data, reqs, executed) && h in reqs && Executed(reqs[h].phase)
    requires Orders(asked, history, reqs, data, nextId)
    ensures Answered(disk, history, data, asked, reqs[h].id, k) && asked[reqs[h].id].b == reqs[h].b
  {
    hide Apply;
    assert Stands(history, reqs[h], data);
    k :| 0 <= k < |history| && history[k] == Event(reqs[h].id, reqs[h].b, reqs[h].block, reqs[h].write,
                                                   Get(data, reqs[h].b));
    assert Carries(asked, history[k]);
  }
}
