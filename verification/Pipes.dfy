/** Pipes: a ring buffer with free-running 32-bit counters, shared by readers and writers that may
    interleave wherever one of them sleeps. Each method is a stretch of code between taking the pipe's
    lock, or waking up with it, and sleeping or letting it go. */
module Pipes {
  import opened Blocks
  import opened Wrappers

  const PIPESIZE: nat := 512

  /** How a stretch ends: the call returns, it returns -1, or it sleeps and goes on later. */
  datatype Outcome = Done | Failed | Sleeps

  class Pipe {
    const data: array<byte>
    var nread: nat
    var nwrite: nat
    var readopen: bool
    var writeopen: bool
    /** All bytes ever stored, and all bytes ever delivered. */
    ghost var stored: seq<byte>
    ghost var delivered: seq<byte>

    ghost predicate Valid()
      reads this, data
    {
      && data.Length == PIPESIZE
      && delivered <= stored && |stored| - |delivered| <= PIPESIZE
      && nwrite == |stored| % WORD && nread == |delivered| % WORD
      && (forall k :: |delivered| <= k < |stored| ==> data[k % PIPESIZE] == stored[k])
    }

    constructor ()
      ensures Valid() && fresh(data) && readopen && writeopen && stored == [] && delivered == []
    {
      data := new byte[PIPESIZE];
      nread, nwrite, readopen, writeopen := 0, 0, true, true;
      stored, delivered := [], [];
    }

    /** pipewrite from byte i on: stores bytes until all are stored or the pipe is full. */
    method Write(addr: seq<byte>, i: nat, killed: bool) returns (j: nat, outcome: Outcome)
      requires Valid() && i <= |addr|
      modifies this`nwrite, this`stored, data
      ensures Valid() && i <= j <= |addr|
      ensures stored == old(stored) + addr[i..j]
      ensures outcome.Done? <==> j == |addr|
      ensures !outcome.Done? ==> |stored| - |delivered| == PIPESIZE && (outcome.Failed? <==> !readopen || killed)
      ensures j - i <= PIPESIZE - (|old(stored)| - |delivered|)
    {
      j := i;
      while j < |addr|
        invariant Valid() && i <= j <= |addr| && stored == old(stored) + addr[i..j]
      {
        CountersTell(|stored|, |delivered|);
        if nwrite == (nread + PIPESIZE) % WORD {
          outcome := if !readopen || killed then Failed else Sleeps;
          return;
        }
        SameSlot(|stored|);
        assert forall k :: |delivered| <= k < |stored| ==> k % PIPESIZE != |stored| % PIPESIZE by {
          SlotsApart(|delivered|, |stored|);
        }
        data[nwrite % PIPESIZE] := addr[j];
        nwrite := (nwrite + 1) % WORD;
        stored := stored + [addr[j]];
        j := j + 1;
      }
      outcome := Done;
    }

    /** piperead: sleeps on an empty pipe that may still be written, or else takes up to n bytes, all
        there are if fewer. */
    method Read(n: nat, killed: bool) returns (bytes: seq<byte>, outcome: Outcome)
      requires Valid()
      modifies this`nread, this`delivered
      ensures Valid() && delivered == old(delivered) + bytes
      ensures outcome.Done? <==> old(delivered) != stored || !writeopen
      ensures outcome.Failed? ==> killed
      ensures outcome.Sleeps? ==> !killed
      ensures |bytes| == if outcome.Done? then Least(n, |stored| - |old(delivered)|) else 0
    {
      bytes := [];
      CountersTell(|stored|, |delivered|);
      if nread == nwrite && writeopen {
        return [], if killed then Failed else Sleeps;
      }
      var i := 0;
      while i < n
        invariant Valid() && 0 <= i <= n && |bytes| == i && delivered == old(delivered) + bytes
      {
        CountersTell(|stored|, |delivered|);
        if nread == nwrite {
          break;
        }
        SameSlot(|delivered|);
        bytes := bytes + [data[nread % PIPESIZE]];
        delivered := delivered + [data[nread % PIPESIZE]];
        nread := (nread + 1) % WORD;
        i := i + 1;
      }
      outcome := Done;
    }

    /** pipeclose: one end goes; the pipe itself goes when both are gone. */
    method Close(writable: bool) returns (gone: bool)
      requires Valid()
      modifies this`readopen, this`writeopen
      ensures Valid()
      ensures writeopen == (old(writeopen) && !writable) && readopen == (old(readopen) && writable)
      ensures gone <==> !readopen && !writeopen
    {
      if writable {
        writeopen := false;
      } else {
        readopen := false;
      }
      gone := !readopen && !writeopen;
    }
  }

  /** The counters, though they wrap around, tell how many bytes are in the pipe. */
  lemma CountersTell(w: nat, r: nat)
    requires r <= w <= r + PIPESIZE
    ensures r % WORD == w % WORD <==> w == r
    ensures w % WORD == (r % WORD + PIPESIZE) % WORD <==> w == r + PIPESIZE
  {
    var a, b := r / WORD, r % WORD;
    assert r == a * WORD + b;
    if b + (w - r) < WORD {
      assert w == a * WORD + (b + (w - r));
    } else {
      assert w == (a + 1) * WORD + (b + (w - r) - WORD);
    }
  }

  /** Wrapping around does not change the slot: the buffer's size divides the counters' range. */
  lemma SameSlot(k: nat)
    ensures k % WORD % PIPESIZE == k % PIPESIZE
    ensures (k % WORD + 1) % WORD == (k + 1) % WORD
  {
    assert k == k / WORD * WORD + k % WORD;
  }

  /** Bytes that are in the pipe together are in different slots. */
  lemma SlotsApart(lo: nat, hi: nat)
    requires lo <= hi < lo + PIPESIZE
    ensures forall k :: lo <= k < hi ==> k % PIPESIZE != hi % PIPESIZE
  {
  }

  // ---- Runs --------------------------------------------------------------------

  /** One stretch of some process's call. */
  datatype Stretch =
    | Writing(addr: seq<byte>, from: nat, killed: bool)
    | Reading(n: nat, killed: bool)
    | Closing(writable: bool)

  predicate WellFormed(op: Stretch) {
    op.Writing? ==> op.from <= |op.addr|
  }

  /** The pieces, in order. */
  function Joined(pieces: seq<seq<byte>>): seq<byte> {
    if pieces == [] then [] else Joined(pieces[..|pieces| - 1]) + pieces[|pieces| - 1]
  }

  lemma JoinedSnoc(pieces: seq<seq<byte>>, piece: seq<byte>)
    ensures Joined(pieces + [piece]) == Joined(pieces) + piece
  {
    assert (pieces + [piece])[..|pieces|] == pieces;
  }

  /** What a writing stretch may have stored: the next bytes of its call. */
  predicate Stores(op: Stretch, piece: seq<byte>) {
    match op
    case Writing(addr, from, _) => from <= |addr| && piece <= addr[from..]
    case _ => piece == []
  }

  /** Any interleaving of stretches on a new pipe: what the readers get, put together, is a prefix of
      what the writers store, put together, and never more than a pipe's worth behind. */
  method Run(ops: seq<Stretch>) returns (puts: seq<seq<byte>>, gets: seq<seq<byte>>)
    requires forall i :: 0 <= i < |ops| ==> WellFormed(ops[i])
    ensures |puts| == |gets| == |ops|
    ensures forall i :: 0 <= i < |ops| ==> Stores(ops[i], puts[i])
    ensures Joined(gets) <= Joined(puts) && |Joined(puts)| - |Joined(gets)| <= PIPESIZE
  {
    var p := new Pipe();
    puts, gets := [], [];
    for i := 0 to |ops|
      invariant p.Valid() && fresh(p) && fresh(p.data) && |puts| == |gets| == i
      invariant p.stored == Joined(puts) && p.delivered == Joined(gets)
      invariant forall j :: 0 <= j < i ==> Stores(ops[j], puts[j])
    {
      var put, got := [], [];
      match ops[i] {
        case Writing(addr, from, killed) =>
          assert WellFormed(ops[i]);
          var j, _ := p.Write(addr, from, killed);
          put := addr[from..j];
          assert put <= addr[from..];
        case Reading(n, killed) =>
          var bytes, _ := p.Read(n, killed);
          got := bytes;
        case Closing(writable) =>
          var _ := p.Close(writable);
      }
      JoinedSnoc(puts, put);
      JoinedSnoc(gets, got);
      puts, gets := puts + [put], gets + [got];
    }
  }
}
