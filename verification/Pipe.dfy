/**
 * A pipe: a ring of 512 bytes whose two 32-bit counters wrap
 * (kernel/pipe.c).  A method is what a reader or writer does between taking
 * and releasing the pipe's lock, so readers and writers may alternate in any
 * order.
 */
module Pipe {
  const PIPESIZE: nat := 512

  /** The ring holds the bytes numbered taken on of all that were written. */
  ghost predicate Holds(data: seq<nat>, written: seq<nat>, taken: nat)
  {
    && |data| == 512
    && taken <= |written| <= taken + 512
    && (forall k {:trigger written[k]} | taken <= k < |written| :: data[k % 512] == written[k])
  }

  /** A counter moves on. */
  function Next32(i: nat): (n: nat)
  {
    (i + 1) % 0x1_0000_0000
  }

  /** Is the ring full?  The sum is a 32-bit one. */
  predicate Full(nread: nat, nwrite: nat)
  {
    nwrite == (nread + 512) % 0x1_0000_0000
  }

  /** Counter i is the number n as 32 bits hold it. */
  ghost predicate Stored32(i: nat, n: nat)
  {
    i == n % 0x1_0000_0000
  }

  /** Counters at most 512 apart are told apart even after they wrap. */
  lemma Compare32(i: nat, r: nat, j: nat, w: nat)
    requires r <= w <= r + 512 && Stored32(i, r) && Stored32(j, w)
    ensures i == j <==> r == w
  {
  }

  lemma FullAt(i: nat, r: nat, j: nat, w: nat)
    requires r <= w <= r + 512 && Stored32(i, r) && Stored32(j, w)
    ensures Full(i, j) <==> w == r + 512
  {
    var k := w - r;
    assert w % 0x1_0000_0000 == (r % 0x1_0000_0000 + k) % 0x1_0000_0000;
  }

  /** The slot of a counter is that of its number. */
  lemma Slot(i: nat, n: nat)
    requires Stored32(i, n)
    ensures i % 512 == n % 512 && Stored32(Next32(i), n + 1)
  {
  }

  lemma Put(data: seq<nat>, written: seq<nat>, taken: nat, b: nat)
    requires Holds(data, written, taken) && |written| < taken + 512
    ensures Holds(data[|written| % 512 := b], written + [b], taken)
  {
    var data', all := data[|written| % 512 := b], written + [b];
    forall k {:trigger all[k]} | taken <= k < |all|
      ensures data'[k % 512] == all[k]
    {
      if k < |written| {
        Apart(k, |written|);
        assert all[k] == written[k];
      }
    }
  }

  lemma Apart(k: nat, w: nat)
    requires k < w < k + 512
    ensures k % 512 != w % 512
  {
  }

  /** The n bytes of the ring from the one numbered r on. */
  ghost function Ring(data: seq<nat>, r: nat, n: nat): (bytes: seq<nat>)
    requires |data| == 512
    ensures |bytes| == n
  {
    seq(n, k requires 0 <= k < n => data[(r + k) % 512])
  }

  lemma RingIs(data: seq<nat>, written: seq<nat>, taken: nat)
    requires Holds(data, written, taken)
    ensures Ring(data, taken, |written| - taken) == written[taken..]
  {
    var ring := Ring(data, taken, |written| - taken);
    forall k | 0 <= k < |ring|
      ensures ring[k] == written[taken..][k]
    {
      assert data[(taken + k) % 512] == written[taken + k];
    }
  }

  function Least(a: nat, b: nat, c: nat): (m: nat)
  {
    if a <= b && a <= c then a else if b <= c then b else c
  }

  /** How a call ends, or that it sleeps. */
  datatype Outcome = Returned(n: int) | Asleep

  /** The pipe as its users see it: all that was written, how much of it was taken, and which ends are open. */
  datatype View = View(written: seq<nat>, taken: nat, readopen: bool, writeopen: bool)

  /** A write adds the bytes up to j: it fails if nobody reads, sleeps on a full ring, and otherwise writes all that
      copyin can read. */
  ghost predicate WriteEnds(v: View, v': View, src: seq<nat>, n: nat, i: nat, killed: bool, out: Outcome, j: nat)
  {
    && i <= j <= |src| && v' == v.(written := v.written + src[i..j])
    && if i < n && (!v.readopen || killed) then out == Returned(-1) && j == i
       else if j < n && |v'.written| == v.taken + 512 then out == Asleep
       else out == Returned(j) && j == |src|
  }

  /** A read takes the next bytes in order: it waits on an empty pipe open for writing, and otherwise gets as many as
      it asked for, as there are and as it has room for; one more is lost if there is no room for it. */
  ghost predicate ReadEnds(v: View, v': View, n: nat, room: nat, killed: bool, out: Outcome, got: seq<nat>,
                           lost: seq<nat>)
  {
    && v.taken <= v'.taken <= |v.written| && v' == v.(taken := v'.taken)
    && got + lost == v.written[v.taken..v'.taken]
    && if v.taken == |v.written| && v.writeopen then v' == v && out == if killed then Returned(-1) else Asleep
       else
         && out == Returned(|got|) && |got| == Least(n, room, |v.written| - v.taken)
         && |lost| == if room < n && room < |v.written| - v.taken then 1 else 0
  }

  /** How a turn ended. */
  datatype End = Wrote(out: Outcome, j: nat) | Took(out: Outcome, got: seq<nat>, lost: seq<nat>) | Closed | Nothing

  /** What a turn does. */
  ghost predicate Turned(turn: Turn, v: View, v': View, end: End)
  {
    match turn
    case Writer(src, n, i, killed) =>
      if |src| <= n && i <= |src| then end.Wrote? && WriteEnds(v, v', src, n, i, killed, end.out, end.j)
      else end == Nothing && v' == v
    case Reader(n, room, killed) =>
      end.Took? && ReadEnds(v, v', n, room, killed, end.out, end.got, end.lost)
    case Closer(writable) =>
      end == Closed && v' == if writable then v.(writeopen := false) else v.(readopen := false)
  }

  class Pipe {
    var data: seq<nat>
    var nread: nat
    var nwrite: nat
    var readopen: bool
    var writeopen: bool
    ghost var written: seq<nat>
    ghost var taken: nat

    ghost predicate Valid()
      reads this
    {
      Holds(data, written, taken) && Stored32(nread, taken) && Stored32(nwrite, |written|)
    }

    ghost function Look(): View
      reads this
    {
      View(written, taken, readopen, writeopen)
    }

    /** The bytes in the ring, from the read counter to the write counter. */
    ghost function Buffered(): seq<nat>
      reads this
      requires |data| == 512 && taken <= |written|
    {
      Ring(data, taken, |written| - taken)
    }

    constructor ()
      ensures Valid() && readopen && writeopen && written == [] && taken == 0
    {
      data, nread, nwrite := seq(512, _ => 0), 0, 0;
      readopen, writeopen := true, true;
      written, taken := [], 0;
    }

    /**
     * pipewrite from its i-th byte on; src holds the bytes that copyin can
     * read, so it fails at the first one that src lacks.
     */
    method Write(src: seq<nat>, n: nat, i: nat, killed: bool) returns (out: Outcome, j: nat)
      requires Valid() && |src| <= n && i <= |src|
      modifies `data, `nwrite, `written
      ensures Valid() && WriteEnds(old(Look()), Look(), src, n, i, killed, out, j)
    {
      hide Holds;
      hide Stored32;
      hide Full;
      hide Next32;
      j := i;
      while j < n
        invariant i <= j <= |src| && Valid() && written == old(written) + src[i..j]
        invariant j > i ==> readopen && !killed
        decreases n - j
      {
        Facts(data, written, taken);
        FullAt(nread, taken, nwrite, |written|);
        if !readopen || killed {
          return Returned(-1), j;
        }
        if Full(nread, nwrite) {
          return Asleep, j;
        }
        if j == |src| {
          break;
        }
        Put(data, written, taken, src[j]);
        Slot(nwrite, |written|);
        data := data[nwrite % PIPESIZE := src[j]];
        nwrite := Next32(nwrite);
        written := written + [src[j]];
        assert src[i..j + 1] == src[i..j] + [src[j]];
        j := j + 1;
      }
      Facts(data, written, taken);
      out := Returned(j);
    }

    /**
     * piperead: it waits while the pipe is empty and open for writing.  room
     * is the number of bytes that copyout can store; a byte taken from the
     * ring when it fails is lost.
     */
    method Read(n: nat, room: nat, killed: bool) returns (out: Outcome, got: seq<nat>, lost: seq<nat>)
      requires Valid()
      modifies `nread, `taken
      ensures Valid() && ReadEnds(old(Look()), Look(), n, room, killed, out, got, lost)
    {
      hide Holds;
      hide Stored32;
      hide Next32;
      got, lost := [], [];
      Facts(data, written, taken);
      Compare32(nread, taken, nwrite, |written|);
      if nread == nwrite && writeopen {
        return if killed then Returned(-1) else Asleep, [], [];
      }
      var i := 0;
      while i < n
        invariant 0 <= i <= n && i <= room && Valid() && taken == old(taken) + i <= |written| && |got| == i
        invariant got == written[old(taken)..taken] && lost == []
      {
        Facts(data, written, taken);
        Compare32(nread, taken, nwrite, |written|);
        if nread == nwrite {
          break;
        }
        Slot(nread, taken);
        Get(data, written, taken);
        var ch := data[nread % PIPESIZE];
        nread := Next32(nread);
        taken := taken + 1;
        if i == room {
          lost := [ch];
          break;
        }
        got := got + [ch];
        i := i + 1;
      }
      out := Returned(i);
    }

    /** pipeclose: the pipe is freed once both ends are closed. */
    method Close(writable: bool) returns (freed: bool)
      requires Valid()
      modifies `readopen, `writeopen
      ensures Valid() && freed == (!readopen && !writeopen)
      ensures writable ==> !writeopen && readopen == old(readopen)
      ensures !writable ==> !readopen && writeopen == old(writeopen)
    {
      if writable {
        writeopen := false;
      } else {
        readopen := false;
      }
      freed := !readopen && !writeopen;
    }

    /**
     * Any readers and writers, in any order: the bytes taken from the ring,
     * followed by those still in it, are the bytes sent, and at most 512 wait.
     */
    method Run(turns: seq<Turn>) returns (sent: seq<nat>, consumed: seq<nat>, ghost trace: seq<View>,
                                          ghost ends: seq<End>)
      requires Valid() && written == [] && taken == 0
      modifies this
      ensures Valid() && |data| == 512 && taken <= |written|
      ensures |trace| == |turns| + 1 && |ends| == |turns| && trace[0] == old(Look()) && trace[|turns|] == Look()
      ensures forall k | 0 <= k < |turns| :: Turned(turns[k], trace[k], trace[k + 1], ends[k])
      ensures sent == trace[|turns|].written && consumed == sent[..trace[|turns|].taken]
      ensures consumed + Buffered() == sent && |Buffered()| <= 512
    {
      hide Holds;
      hide Stored32;
      hide Least;
      sent, consumed, trace, ends := [], [], [Look()], [];
      for t := 0 to |turns|
        invariant Valid() && taken <= |written| && sent == written && consumed == written[..taken]
        invariant |trace| == t + 1 && |ends| == t && trace[0] == old(Look()) && trace[t] == Look()
        invariant forall k | 0 <= k < t :: Turned(turns[k], trace[k], trace[k + 1], ends[k])
      {
        ghost var end := Nothing;
        match turns[t] {
          case Writer(src, n, i, killed) =>
            if |src| <= n && i <= |src| {
              var out, j := Write(src, n, i, killed);
              Facts(data, written, taken);
              sent := sent + src[i..j];
              end := Wrote(out, j);
            }
          case Reader(n, room, killed) =>
            ghost var before := taken;
            var out, got, lost := Read(n, room, killed);
            consumed := consumed + got + lost;
            assert written[..before] + written[before..taken] == written[..taken];
            assert consumed == written[..before] + (got + lost);
            end := Took(out, got, lost);
          case Closer(writable) =>
            var freed := Close(writable);
            end := Closed;
        }
        trace, ends := trace + [Look()], ends + [end];
      }
      Facts(data, written, taken);
      RingIs(data, written, taken);
    }
  }

  /** What a process does with the pipe. */
  datatype Turn =
    | Writer(src: seq<nat>, n: nat, i: nat, killed: bool)
    | Reader(n: nat, room: nat, killed: bool)
    | Closer(writable: bool)

  lemma Get(data: seq<nat>, written: seq<nat>, taken: nat)
    requires Holds(data, written, taken) && taken < |written|
    ensures |data| == 512 && data[taken % 512] == written[taken] && Holds(data, written, taken + 1)
  {
  }

  lemma Facts(data: seq<nat>, written: seq<nat>, taken: nat)
    requires Holds(data, written, taken)
    ensures |data| == 512 && taken <= |written| <= taken + 512
  {
  }
}
