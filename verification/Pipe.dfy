/** Pipes (kernel/pipe.c): a ring of PIPESIZE bytes with 32-bit counters that wrap around.

A method is what pipewrite or piperead does between two sleeps, under the pipe's lock, so any order of
calls is a run of writers and readers. */
module Pipe {
  import opened ByteString

  const PIPESIZE: nat := 512
  const WRAP: nat := 0x1_0000_0000

  /** The ring holds the bytes accepted but not yet delivered, and the counters count both modulo 2^32. */
  ghost predicate Holds(data: seq<byte>, nread: nat, nwrite: nat, accepted: seq<byte>, delivered: nat) {
    && |data| == PIPESIZE && delivered <= |accepted| <= delivered + PIPESIZE
    && nread == delivered % WRAP && nwrite == |accepted| % WRAP
    && forall k {:trigger accepted[k]} :: delivered <= k < |accepted| ==> data[k % PIPESIZE] == accepted[k]
  }

  /** Full and empty are told apart by the counters alone, also after they have wrapped. */
  lemma Counters(data: seq<byte>, nread: nat, nwrite: nat, accepted: seq<byte>, delivered: nat)
    requires Holds(data, nread, nwrite, accepted, delivered)
    ensures nread == nwrite <==> delivered == |accepted|
    ensures nwrite == (nread + PIPESIZE) % WRAP <==> |accepted| == delivered + PIPESIZE
  {
    var d := |accepted| - delivered;
    assert nwrite == (nread + d) % WRAP;
  }

  /** The wrapped counter still names the right place in the ring. */
  lemma Place(x: nat)
    ensures x % WRAP % PIPESIZE == x % PIPESIZE
  {
    var q := x / WRAP;
    assert x == q * WRAP + x % WRAP;
  }

  lemma OtherPlace(k: nat, n: nat)
    requires k < n < k + PIPESIZE
    ensures k % PIPESIZE != n % PIPESIZE
  {
  }

  lemma PutOne(data: seq<byte>, nread: nat, nwrite: nat, accepted: seq<byte>, delivered: nat, ch: byte)
    requires Holds(data, nread, nwrite, accepted, delivered) && |accepted| < delivered + PIPESIZE
    ensures Holds(data[nwrite % PIPESIZE := ch], nread, (nwrite + 1) % WRAP, accepted + [ch], delivered)
  {
    Place(|accepted|);
    var data', accepted' := data[nwrite % PIPESIZE := ch], accepted + [ch];
    forall k {:trigger accepted'[k]} | delivered <= k < |accepted'| ensures data'[k % PIPESIZE] == accepted'[k] {
      if k < |accepted| {
        assert accepted'[k] == accepted[k];
        OtherPlace(k, |accepted|);
      }
    }
  }

  lemma GetOne(data: seq<byte>, nread: nat, nwrite: nat, accepted: seq<byte>, delivered: nat)
    requires Holds(data, nread, nwrite, accepted, delivered) && delivered < |accepted|
    ensures data[nread % PIPESIZE] == accepted[delivered]
            && Holds(data, (nread + 1) % WRAP, nwrite, accepted, delivered + 1)
  {
    Place(delivered);
  }

  datatype Outcome = Finished | MustSleep | Broken | BadAddress

  class Pipe {
    const data: array<byte>
    var nread: nat
    var nwrite: nat
    var readopen: bool
    var writeopen: bool
    ghost var accepted: seq<byte>
    ghost var delivered: nat

    ghost predicate Valid()
      reads this, data
    {
      Holds(data[..], nread, nwrite, accepted, delivered)
    }

    constructor ()
      ensures Valid() && fresh(data) && accepted == [] && delivered == 0 && readopen && writeopen
    {
      data := new byte[PIPESIZE](i => 0);
      nread, nwrite, readopen, writeopen, accepted, delivered := 0, 0, true, true, [], 0;
    }

    /** pipewrite from byte i on, until it is done or must sleep.  `good` bytes of src are readable. */
    method Write(src: seq<byte>, i0: nat, killed: bool, good: nat) returns (i: nat, o: Outcome)
      requires Valid() && i0 <= |src|
      modifies this`nwrite, this`accepted, data
      ensures Valid() && i0 <= i <= |src| && accepted == old(accepted) + src[i0..i]
      ensures o == Finished <==> i == |src|
      ensures o == MustSleep ==> |accepted| == delivered + PIPESIZE
      ensures o == Broken ==> i == i0 && (!readopen || killed)
      ensures o == BadAddress ==> i >= good
    {
      i := i0;
      assert src[i0..i] == [];
      while i < |src|
        invariant i0 <= i <= |src| && Valid() && accepted == old(accepted) + src[i0..i]
        invariant i > i0 ==> readopen && !killed
      {
        if !readopen || killed {
          return i, Broken;
        }
        Counters(data[..], nread, nwrite, accepted, delivered);
        if nwrite == (nread + PIPESIZE) % WRAP {
          return i, MustSleep;
        }
        if i >= good {
          return i, BadAddress;
        }
        PutOne(data[..], nread, nwrite, accepted, delivered, src[i]);
        Copied(old(accepted), src, i0, i);
        data[nwrite % PIPESIZE] := src[i];
        nwrite := (nwrite + 1) % WRAP;
        accepted := accepted + [src[i]];
        i := i + 1;
      }
      o := Finished;
    }

    /** piperead: sleep while there is nothing to read and a writer is left; otherwise take what there is,
        n bytes at most. */
    method Read(n: nat) returns (dst: seq<byte>, sleep: bool)
      requires Valid()
      modifies this`nread, this`delivered
      ensures Valid() && sleep == (old(delivered) == |accepted| && writeopen)
      ensures |dst| == (if |accepted| - old(delivered) < n then |accepted| - old(delivered) else n)
      ensures delivered == old(delivered) + |dst| && dst == accepted[old(delivered)..delivered]
    {
      Counters(data[..], nread, nwrite, accepted, delivered);
      dst, sleep := [], nread == nwrite && writeopen;
      if sleep { return; }
      while |dst| < n
        invariant |dst| <= n && Valid() && delivered == old(delivered) + |dst|
                  && dst == accepted[old(delivered)..delivered]
        decreases n - |dst|
      {
        Counters(data[..], nread, nwrite, accepted, delivered);
        if nread == nwrite { break; }
        GetOne(data[..], nread, nwrite, accepted, delivered);
        var ch := data[nread % PIPESIZE];
        nread := (nread + 1) % WRAP;
        dst, delivered := dst + [ch], delivered + 1;
      }
    }
  }

  lemma Copied(a: seq<byte>, src: seq<byte>, i0: nat, i: nat)
    requires i0 <= i < |src|
    ensures a + src[i0..i] + [src[i]] == a + src[i0..i + 1]
  {
  }

  // ---- Runs -----------------------------------------------------------------------------------------

  datatype Event = Put(src: seq<byte>, killed: bool, good: nat) | Get(n: nat) | CloseRead | CloseWrite

  /** Over any run the bytes delivered are, in order, a prefix of the bytes accepted, and what is
      in between fits into the ring. */
  method Run(events: seq<Event>) returns (p: Pipe, got: seq<byte>)
    ensures fresh(p) && p.Valid() && |got| == p.delivered <= |p.accepted| <= |got| + PIPESIZE
            && got == p.accepted[..|got|]
  {
    p := new Pipe();
    got := [];
    var i := 0;
    while i < |events|
      invariant fresh(p) && fresh(p.data) && i <= |events| && p.Valid() && |got| == p.delivered <= |p.accepted|
                && got == p.accepted[..|got|]
    {
      match events[i] {
        case Put(src, killed, good) =>
          var k, o := p.Write(src, 0, killed, good);
        case Get(n) =>
          ghost var d := p.delivered;
          var dst, sleep := p.Read(n);
          assert p.accepted[..d] + p.accepted[d..p.delivered] == p.accepted[..p.delivered];
          got := got + dst;
        case CloseRead => p.readopen := false;
        case CloseWrite => p.writeopen := false;
      }
      i := i + 1;
    }
  }
}
