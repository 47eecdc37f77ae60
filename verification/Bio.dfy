/** The buffer cache of kernel/bio.c: NBUF buffers on a circular doubly linked list ordered by
recency, and the promise that what bread returns is the block's latest contents.

A pointer to a struct buf is its index in bcache.buf; the list head is the index HEAD. */
module Bio {
  import opened Blocks

  const NBUF: nat := 30
  const HEAD: nat := NBUF

  /** struct buf without its list links.  `pins` says how many of the references are log pins. */
  datatype Buf = Buf(valid: bool, dev: nat, blockno: nat, refcnt: nat, locked: bool, pins: nat, data: Block)

  // ---- The list ---------------------------------------------------------------------

  function After(i: nat, n: nat): (j: nat)
    requires i < n
    ensures j < n
  {
    if i + 1 == n then 0 else i + 1
  }

  function Before(i: nat, n: nat): (j: nat)
    requires i < n
    ensures j < n
  {
    if i == 0 then n - 1 else i - 1
  }

  /** `ring` lists distinct nodes. */
  ghost predicate IsRing(ring: seq<nat>) {
    && |ring| > 0
    && (forall i :: 0 <= i < |ring| ==> ring[i] <= NBUF)
    && (forall i, j :: 0 <= i < j < |ring| ==> ring[i] != ring[j])
  }

  /** next and prev lead around `ring`, forwards and backwards. */
  ghost predicate Linked(ring: seq<nat>, next: seq<nat>, prev: seq<nat>) {
    && IsRing(ring)
    && |next| == NBUF + 1 && |prev| == NBUF + 1
    && (forall i :: 0 <= i < |ring| ==> LinkAt(ring, next, prev, i))
  }

  ghost predicate LinkAt(ring: seq<nat>, next: seq<nat>, prev: seq<nat>, i: nat)
    requires IsRing(ring) && |next| == NBUF + 1 && |prev| == NBUF + 1 && i < |ring|
  {
    next[ring[i]] == ring[After(i, |ring|)] && prev[ring[i]] == ring[Before(i, |ring|)]
  }

  lemma PushFrontLinked(ring: seq<nat>, next: seq<nat>, prev: seq<nat>, b: nat)
    requires Linked(ring, next, prev) && ring[0] == HEAD && b < NBUF && b !in ring
    ensures next[HEAD] <= NBUF
    ensures var first := next[HEAD];
            Linked([HEAD, b] + ring[1..], next[b := first][HEAD := b], prev[b := HEAD][first := b])
  {
    var n := |ring|;
    var first := next[HEAD];
    assert LinkAt(ring, next, prev, 0);
    var ring', next', prev' := [HEAD, b] + ring[1..], next[b := first][HEAD := b], prev[b := HEAD][first := b];
    assert forall i :: 2 <= i < n + 1 ==> ring'[i] == ring[i - 1];
    assert IsRing(ring');
    forall i | 0 <= i < n + 1 ensures LinkAt(ring', next', prev', i) {
      if i >= 2 {
        assert LinkAt(ring, next, prev, i - 1);
      }
    }
  }

  lemma RemoveLinked(ring: seq<nat>, next: seq<nat>, prev: seq<nat>, k: nat)
    requires Linked(ring, next, prev) && 0 < k < |ring|
    ensures next[ring[k]] <= NBUF && prev[ring[k]] <= NBUF
    ensures var b := ring[k];
            Linked(ring[..k] + ring[k + 1..], next[prev[b] := next[b]], prev[next[b] := prev[b]])
  {
    var n := |ring|;
    var b := ring[k];
    assert LinkAt(ring, next, prev, k);
    var ring', next', prev' := ring[..k] + ring[k + 1..], next[prev[b] := next[b]], prev[next[b] := prev[b]];
    assert forall i :: 0 <= i < n - 1 ==> ring'[i] == ring[if i < k then i else i + 1];
    assert IsRing(ring');
    forall i | 0 <= i < n - 1 ensures LinkAt(ring', next', prev', i) {
      assert LinkAt(ring, next, prev, if i < k then i else i + 1);
    }
  }

  /** Every node, the head first and each buffer once: a permutation of the cache. */
  ghost predicate IsPermutation(ring: seq<nat>) {
    && IsRing(ring)
    && |ring| == NBUF + 1
    && ring[0] == HEAD
    && forall b: nat :: b <= NBUF ==> b in ring
  }

  /** The list after its k-th element has moved to the front. */
  ghost function MoveToFront(ring: seq<nat>, k: nat): (r: seq<nat>)
    requires 0 < k < |ring|
  {
    [ring[0], ring[k]] + ring[1..k] + ring[k + 1..]
  }

  lemma MoveToFrontPermutes(ring: seq<nat>, k: nat)
    requires IsPermutation(ring) && 0 < k < |ring|
    ensures IsPermutation(MoveToFront(ring, k))
  {
    var r := MoveToFront(ring, k);
    forall i | 0 <= i < |r|
      ensures r[i] == if i == 0 then ring[0] else if i == 1 then ring[k] else if i <= k then ring[i - 1] else ring[i]
    {}
    forall b: nat | b <= NBUF ensures b in r {
      assert b in ring;
      var i :| 0 <= i < |ring| && ring[i] == b;
      assert r[if i == 0 then 0 else if i == k then 1 else if i < k then i + 1 else i] == b;
    }
  }

  // ---- The cached contents ------------------------------------------------------------

  /** b is the valid cached copy of block a. */
  ghost predicate Holds(dev: nat, b: Buf, a: nat) {
    b.dev == dev && b.blockno == a && b.valid
  }

  ghost predicate BufOk(dev: nat, b: Buf, view: seq<Block>, disk: seq<Block>)
    requires |view| == |disk|
  {
    && (b.dev == 0 || b.dev == dev)
    && (b.dev == 0 ==> !b.valid && b.refcnt == 0)
    && (b.dev == dev ==> b.blockno < |disk|)
    && b.refcnt >= b.pins + (if b.locked then 1 else 0)
    && (b.valid ==> b.data == view[b.blockno])
    && (b.valid && b.pins == 0 && !b.locked ==> b.data == disk[b.blockno])
  }

  /** At most one cached copy of each block; that copy holds the block's latest contents `view`;
      and a block whose contents differ from the disk has a copy that is pinned or locked, so
      that no recycling can lose it. */
  ghost predicate Coherent(dev: nat, buf: seq<Buf>, view: seq<Block>, disk: seq<Block>) {
    && dev != 0 && |buf| == NBUF && |view| == |disk|
    && (forall i :: 0 <= i < NBUF ==> BufOk(dev, buf[i], view, disk))
    && Unique(dev, buf)
    && (forall a {:trigger DirtyIsHeld(dev, buf, view, disk, a)} ::
        0 <= a < |disk| ==> DirtyIsHeld(dev, buf, view, disk, a))
  }

  /** No two buffers cache the same block. */
  ghost predicate Unique(dev: nat, buf: seq<Buf>) {
    forall i, j {:trigger Different(dev, buf[i], buf[j])} :: 0 <= i < j < |buf| ==> Different(dev, buf[i], buf[j])
  }

  /** Two buffers do not cache the same block. */
  ghost predicate Different(dev: nat, b: Buf, c: Buf) {
    b.dev == dev && c.dev == dev ==> b.blockno != c.blockno
  }

  ghost predicate DirtyIsHeld(dev: nat, buf: seq<Buf>, view: seq<Block>, disk: seq<Block>, a: nat)
    requires |buf| == NBUF && |view| == |disk| && a < |disk|
  {
    view[a] != disk[a] ==> exists i :: 0 <= i < NBUF && Holds(dev, buf[i], a)
  }

  /** The cache holds block a in buffer i. */
  ghost predicate Caches(dev: nat, buf: seq<Buf>, i: nat, a: nat) {
    i < |buf| && buf[i].dev == dev && buf[i].blockno == a
  }

  /** b is the unreferenced buffer that comes last on the list. */
  ghost predicate LeastRecentlyUsedFree(ring: seq<nat>, buf: seq<Buf>, b: nat)
    requires IsPermutation(ring) && |buf| == NBUF
  {
    exists k :: 0 < k < |ring| && ring[k] == b && buf[b].refcnt == 0
      && forall j :: k < j < |ring| ==> buf[ring[j]].refcnt > 0
  }

  lemma LockKeepsCoherent(dev: nat, buf: seq<Buf>, view: seq<Block>, disk: seq<Block>, b: nat)
    requires Coherent(dev, buf, view, disk) && b < NBUF && buf[b].dev == dev && !buf[b].locked
    ensures Coherent(dev, buf[b := buf[b].(refcnt := buf[b].refcnt + 1, locked := true)], view, disk)
  {
    assert BufOk(dev, buf[b], view, disk);
    UpdateKeepsCoherent(dev, buf, view, disk, b, buf[b].(refcnt := buf[b].refcnt + 1, locked := true));
  }

  lemma RecycleKeepsCoherent(dev: nat, buf: seq<Buf>, view: seq<Block>, disk: seq<Block>, b: nat, blockno: nat)
    requires Coherent(dev, buf, view, disk) && b < NBUF && buf[b].refcnt == 0 && blockno < |disk|
    requires forall i: nat :: !Caches(dev, buf, i, blockno)
    ensures Coherent(dev, buf[b := buf[b].(dev := dev, blockno := blockno, valid := false, refcnt := 1,
                                           locked := true)],
                     view, disk)
  {
    assert BufOk(dev, buf[b], view, disk);
    var x := buf[b].(dev := dev, blockno := blockno, valid := false, refcnt := 1, locked := true);
    var buf' := buf[b := x];
    forall i | 0 <= i < NBUF && i != b ensures Other(dev, buf, i, x) {
      assert !Caches(dev, buf, i, blockno);
    }
    ReplaceKeepsApart(dev, buf, buf', b, x);
    forall a | 0 <= a < |disk| ensures DirtyIsHeld(dev, buf', view, disk, a) {
      assert DirtyIsHeld(dev, buf, view, disk, a);
      if view[a] != disk[a] {
        var i :| 0 <= i < NBUF && Holds(dev, buf[i], a);
        assert Holds(dev, buf'[i], a);
      }
    }
  }

  /** Buffer i does not cache the same block as x. */
  ghost predicate Other(dev: nat, buf: seq<Buf>, i: nat, x: Buf)
    requires i < |buf|
  {
    Different(dev, buf[i], x)
  }

  /** Replacing buffer b by a copy x of a block that no other buffer caches. */
  lemma ReplaceKeepsApart(dev: nat, buf: seq<Buf>, buf': seq<Buf>, b: nat, x: Buf)
    requires |buf| == NBUF && b < NBUF && buf' == buf[b := x]
    requires Unique(dev, buf)
    requires forall i :: 0 <= i < NBUF && i != b ==> Other(dev, buf, i, x)
    ensures Unique(dev, buf')
  {
    forall i, j | 0 <= i < j < NBUF ensures Different(dev, buf'[i], buf'[j]) {
      assert Different(dev, buf[i], buf[j]);
      assert i != b ==> Other(dev, buf, i, x);
      assert j != b ==> Other(dev, buf, j, x);
    }
  }

  /** Coherence survives an update of one buffer that stays the copy of the same block. */
  lemma UpdateKeepsCoherent(dev: nat, buf: seq<Buf>, view: seq<Block>, disk: seq<Block>, b: nat, x: Buf)
    requires Coherent(dev, buf, view, disk) && b < NBUF
    requires x.dev == buf[b].dev && x.blockno == buf[b].blockno && (buf[b].valid ==> x.valid)
    requires BufOk(dev, x, view, disk)
    ensures Coherent(dev, buf[b := x], view, disk)
  {
    var buf' := buf[b := x];
    forall i | 0 <= i < NBUF && i != b ensures Other(dev, buf, i, x) {
      assert if i < b then Different(dev, buf[i], buf[b]) else Different(dev, buf[b], buf[i]);
    }
    ReplaceKeepsApart(dev, buf, buf', b, x);
    forall a | 0 <= a < |disk| ensures DirtyIsHeld(dev, buf', view, disk, a) {
      assert DirtyIsHeld(dev, buf, view, disk, a);
      if view[a] != disk[a] {
        var i :| 0 <= i < NBUF && Holds(dev, buf[i], a);
        assert Holds(dev, buf'[i], a);
      }
    }
  }

  lemma ReadKeepsCoherent(dev: nat, buf: seq<Buf>, view: seq<Block>, disk: seq<Block>, b: nat)
    requires Coherent(dev, buf, view, disk) && b < NBUF && buf[b].dev == dev && !buf[b].valid && buf[b].locked
    ensures buf[b].blockno < |disk|
    ensures disk[buf[b].blockno] == view[buf[b].blockno]
    ensures Coherent(dev, buf[b := buf[b].(data := disk[buf[b].blockno], valid := true)], view, disk)
  {
    var a := buf[b].blockno;
    assert BufOk(dev, buf[b], view, disk) && DirtyIsHeld(dev, buf, view, disk, a);
    forall i | 0 <= i < NBUF ensures !Holds(dev, buf[i], a) {
      assert if i < b then Different(dev, buf[i], buf[b]) else i == b || Different(dev, buf[b], buf[i]);
    }
    UpdateKeepsCoherent(dev, buf, view, disk, b, buf[b].(data := disk[a], valid := true));
  }

  lemma EditKeepsCoherent(dev: nat, buf: seq<Buf>, view: seq<Block>, disk: seq<Block>, b: nat, data: Block)
    requires Coherent(dev, buf, view, disk) && b < NBUF && buf[b].locked && buf[b].valid
    ensures buf[b].blockno < |view|
    ensures Coherent(dev, buf[b := buf[b].(data := data)], view[buf[b].blockno := data], disk)
  {
    assert BufOk(dev, buf[b], view, disk);
    var a0 := buf[b].blockno;
    var buf', view' := buf[b := buf[b].(data := data)], view[a0 := data];
    forall i | 0 <= i < NBUF ensures BufOk(dev, buf'[i], view', disk) {
      assert BufOk(dev, buf[i], view, disk);
      assert if i < b then Different(dev, buf[i], buf[b]) else i == b || Different(dev, buf[b], buf[i]);
    }
    forall i, j | 0 <= i < j < NBUF ensures Different(dev, buf'[i], buf'[j]) {
      assert Different(dev, buf[i], buf[j]);
    }
    forall a | 0 <= a < |disk| ensures DirtyIsHeld(dev, buf', view', disk, a) {
      assert DirtyIsHeld(dev, buf, view, disk, a);
      if a == a0 {
        assert Holds(dev, buf'[b], a);
      } else if view[a] != disk[a] {
        var i :| 0 <= i < NBUF && Holds(dev, buf[i], a);
        assert Holds(dev, buf'[i], a);
      }
    }
  }

  lemma WriteKeepsCoherent(dev: nat, buf: seq<Buf>, view: seq<Block>, disk: seq<Block>, b: nat)
    requires Coherent(dev, buf, view, disk) && b < NBUF && buf[b].locked && buf[b].valid
    ensures buf[b].blockno < |disk|
    ensures Coherent(dev, buf, view, disk[buf[b].blockno := buf[b].data])
  {
    assert BufOk(dev, buf[b], view, disk);
    var disk' := disk[buf[b].blockno := buf[b].data];
    forall i | 0 <= i < NBUF ensures BufOk(dev, buf[i], view, disk') {
      assert BufOk(dev, buf[i], view, disk);
    }
    forall a | 0 <= a < |disk| ensures DirtyIsHeld(dev, buf, view, disk', a) {
      assert DirtyIsHeld(dev, buf, view, disk, a);
    }
  }

  lemma ReleaseKeepsCoherent(dev: nat, buf: seq<Buf>, view: seq<Block>, disk: seq<Block>, b: nat)
    requires Coherent(dev, buf, view, disk) && b < NBUF && buf[b].locked
    requires buf[b].valid ==> buf[b].blockno < |disk|
    requires buf[b].valid && buf[b].pins == 0 ==> buf[b].data == disk[buf[b].blockno]
    ensures buf[b].refcnt > 0
    ensures Coherent(dev, buf[b := buf[b].(locked := false, refcnt := buf[b].refcnt - 1)], view, disk)
  {
    assert BufOk(dev, buf[b], view, disk);
    UpdateKeepsCoherent(dev, buf, view, disk, b, buf[b].(locked := false, refcnt := buf[b].refcnt - 1));
  }

  lemma PinKeepsCoherent(dev: nat, buf: seq<Buf>, view: seq<Block>, disk: seq<Block>, b: nat, delta: int)
    requires Coherent(dev, buf, view, disk) && b < NBUF && buf[b].dev == dev
    requires delta == 1 || (delta == -1 && buf[b].locked && buf[b].pins > 0)
    ensures buf[b].refcnt + delta >= 0 && buf[b].pins + delta >= 0
    ensures Coherent(dev, buf[b := buf[b].(refcnt := buf[b].refcnt + delta, pins := buf[b].pins + delta)], view, disk)
  {
    assert BufOk(dev, buf[b], view, disk);
    UpdateKeepsCoherent(dev, buf, view, disk, b, buf[b].(refcnt := buf[b].refcnt + delta, pins := buf[b].pins + delta));
  }

  class Bcache {
    const dev: nat
    var buf: seq<Buf>
    var next: seq<nat>
    var prev: seq<nat>
    var disk: seq<Block>
    ghost var ring: seq<nat>      // HEAD, then the buffers from most to least recently used
    ghost var view: seq<Block>    // each block's latest contents
    ghost var writes: seq<Write>  // every disk write so far, in order
    ghost const boot: seq<Block>  // the disk before them

    ghost predicate Valid()
      reads this
    {
      && IsPermutation(ring)
      && Linked(ring, next, prev)
      && Coherent(dev, buf, view, disk)
      && InRange(writes, |boot|) && disk == Apply(boot, writes)
    }

    /** binit, on a machine that has just started. */
    constructor (dev: nat, disk: seq<Block>)
      requires dev != 0
      ensures Valid()
      ensures this.dev == dev && this.disk == disk && view == disk && writes == []
      ensures forall i :: 0 <= i < NBUF ==> buf[i].dev == 0 && buf[i].refcnt == 0 && !buf[i].locked && buf[i].pins == 0
    {
      this.dev, this.disk, this.view, this.boot, this.writes := dev, disk, disk, disk, [];
      buf := seq(NBUF, i => Buf(false, 0, 0, 0, false, 0, seq(WORDS, j => 0)));
      next, prev := seq(NBUF + 1, i => HEAD), seq(NBUF + 1, i => HEAD);
      ring := [HEAD];
      new;
      assert LinkAt(ring, next, prev, 0);
      var b := 0;
      while b < NBUF
        invariant b <= NBUF && |ring| == b + 1 && ring[0] == HEAD
        invariant Linked(ring, next, prev)
        invariant forall x: nat :: x in ring <==> x == HEAD || x < b
        modifies this`next, this`prev, this`ring
      {
        PushFrontLinked(ring, next, prev, b);
        next, prev := next[b := next[HEAD]], prev[b := HEAD][next[HEAD] := b];
        next := next[HEAD := b];
        assert forall x: nat :: x in ring <==> x == ring[0] || x in ring[1..];
        ring := [HEAD, b] + ring[1..];
        b := b + 1;
      }
    }

    /** bget: the buffer for a block, locked and referenced, or no buffer at all (the panic
        "bget: no buffers").  The caller must not already hold the block's buffer. */
    method Bget(blockno: nat) returns (b: nat, ok: bool)
      requires Valid() && blockno < |disk|
      requires forall i: nat :: Caches(dev, buf, i, blockno) ==> !buf[i].locked
      modifies this`buf
      ensures Valid()
      ensures ok <==> exists i :: 0 <= i < NBUF && (Caches(dev, old(buf), i, blockno) || old(buf)[i].refcnt == 0)
      ensures !ok ==> buf == old(buf)
      ensures ok ==> b < NBUF && buf == old(buf)[b := buf[b]]
      ensures ok && Caches(dev, old(buf), b, blockno) ==>
                buf[b] == old(buf)[b].(refcnt := old(buf)[b].refcnt + 1, locked := true)
      ensures ok && !Caches(dev, old(buf), b, blockno) ==>
                && (forall i: nat :: !Caches(dev, old(buf), i, blockno))
                && buf[b] == old(buf)[b].(dev := dev, blockno := blockno, valid := false, refcnt := 1, locked := true)
                && LeastRecentlyUsedFree(ring, old(buf), b)
    {
      b := next[HEAD];
      assert LinkAt(ring, next, prev, 0);
      ghost var k := 1;
      while b != HEAD
        invariant 1 <= k <= |ring|
        invariant b == if k == |ring| then HEAD else ring[k]
        invariant forall j :: 1 <= j < k ==> !Caches(dev, buf, ring[j], blockno)
        decreases |ring| - k
      {
        if buf[b].dev == dev && buf[b].blockno == blockno {
          buf := buf[b := buf[b].(refcnt := buf[b].refcnt + 1, locked := true)];
          LockKeepsCoherent(dev, old(buf), view, disk, b);
          ok := true;
          assert Caches(dev, old(buf), b, blockno);
          return;
        }
        assert LinkAt(ring, next, prev, k);
        b := next[b];
        k := k + 1;
      }
      forall i: nat ensures !Caches(dev, buf, i, blockno) {
        if i < NBUF {
          assert i in ring;
        }
      }
      b := prev[HEAD];
      k := |ring| - 1;
      while b != HEAD
        invariant 0 <= k < |ring|
        invariant b == ring[k]
        invariant forall j :: k < j < |ring| ==> buf[ring[j]].refcnt > 0
        decreases k
      {
        if buf[b].refcnt == 0 {
          buf := buf[b := buf[b].(dev := dev, blockno := blockno, valid := false, refcnt := 1, locked := true)];
          RecycleKeepsCoherent(dev, old(buf), view, disk, b, blockno);
          ok := true;
          return;
        }
        assert LinkAt(ring, next, prev, k);
        b := prev[b];
        k := k - 1;
      }
      ok := false;
      forall i | 0 <= i < NBUF ensures buf[i].refcnt > 0 {
        assert i in ring;
      }
    }

    /** bread: a locked buffer that holds the block's latest contents. */
    method Bread(blockno: nat) returns (b: nat, ok: bool)
      requires Valid() && blockno < |disk|
      requires forall i: nat :: Caches(dev, buf, i, blockno) ==> !buf[i].locked
      modifies this`buf
      ensures Valid()
      ensures ok <==> exists i :: 0 <= i < NBUF && (Caches(dev, old(buf), i, blockno) || old(buf)[i].refcnt == 0)
      ensures !ok ==> buf == old(buf)
      ensures ok ==> b < NBUF && buf == old(buf)[b := buf[b]]
      ensures ok ==> buf[b].valid && buf[b].locked && buf[b].dev == dev && buf[b].blockno == blockno
      ensures ok ==> buf[b].data == view[blockno]
      ensures ok ==> if Caches(dev, old(buf), b, blockno)
                     then buf[b].refcnt == old(buf)[b].refcnt + 1 && buf[b].pins == old(buf)[b].pins
                     else (forall i: nat :: !Caches(dev, old(buf), i, blockno))
                          && old(buf)[b].refcnt == 0 && buf[b].refcnt == 1 && buf[b].pins == 0
    {
      b, ok := Bget(blockno);
      if ok && !buf[b].valid {
        ReadKeepsCoherent(dev, buf, view, disk, b);
        buf := buf[b := buf[b].(data := disk[blockno], valid := true)];
      }
    }

    /** The holder of a buffer replaces its data (memmove or memset into b->data). */
    method SetData(b: nat, data: Block)
      requires Valid() && b < NBUF && buf[b].locked && buf[b].valid
      modifies this`buf, this`view
      ensures Valid()
      ensures view == old(view)[old(buf)[b].blockno := data]
      ensures buf == old(buf)[b := old(buf)[b].(data := data)]
    {
      EditKeepsCoherent(dev, buf, view, disk, b, data);
      view := view[buf[b].blockno := data];
      buf := buf[b := buf[b].(data := data)];
    }

    /** bwrite: one whole-block disk write of the buffer's contents. */
    method Bwrite(b: nat)
      requires Valid() && b < NBUF && buf[b].locked && buf[b].valid
      modifies this`disk, this`writes
      ensures Valid()
      ensures disk == old(disk)[buf[b].blockno := buf[b].data]
      ensures writes == old(writes) + [Write(buf[b].blockno, buf[b].data)]
    {
      WriteKeepsCoherent(dev, buf, view, disk, b);
      ApplySnoc(boot, writes, Write(buf[b].blockno, buf[b].data));
      disk := disk[buf[b].blockno := buf[b].data];
      writes := writes + [Write(buf[b].blockno, buf[b].data)];
    }

    /** brelse: unlock and drop a reference; the last one moves the buffer to the front of the
        list.  A buffer that differs from the disk must have been pinned. */
    method Brelse(b: nat)
      requires Valid() && b < NBUF && buf[b].locked
      requires buf[b].valid && buf[b].pins == 0 ==> buf[b].data == disk[buf[b].blockno]
      modifies this`buf, this`next, this`prev, this`ring
      ensures Valid()
      ensures buf == old(buf)[b := old(buf)[b].(locked := false, refcnt := old(buf)[b].refcnt - 1)]
      ensures if buf[b].refcnt > 0 then ring == old(ring)
              else exists k :: 0 < k < |old(ring)| && old(ring)[k] == b && ring == MoveToFront(old(ring), k)
    {
      ReleaseKeepsCoherent(dev, buf, view, disk, b);
      buf := buf[b := buf[b].(locked := false, refcnt := buf[b].refcnt - 1)];
      if buf[b].refcnt == 0 {
        assert b in ring;
        ghost var k :| 0 < k < |ring| && ring[k] == b;
        Touch(b, k);
      }
    }

    /** The list surgery of brelse: unlink b and link it in right after the head. */
    method Touch(b: nat, ghost k: nat)
      requires IsPermutation(ring) && Linked(ring, next, prev) && 0 < k < |ring| && ring[k] == b
      modifies this`next, this`prev, this`ring
      ensures IsPermutation(ring) && Linked(ring, next, prev)
      ensures ring == MoveToFront(old(ring), k)
    {
      assert LinkAt(ring, next, prev, k);
      RemoveLinked(ring, next, prev, k);
      ghost var rest := ring[..k] + ring[k + 1..];
      var before, behind := prev[b], next[b];
      prev := prev[behind := before];
      next := next[before := behind];
      PushFrontLinked(rest, next, prev, b);
      var first := next[HEAD];
      next := next[b := first];
      prev := prev[b := HEAD][first := b];
      next := next[HEAD := b];
      MoveToFrontPermutes(ring, k);
      assert [HEAD, b] + rest[1..] == MoveToFront(ring, k);
      ring := MoveToFront(ring, k);
    }

    /** bpin: a reference that outlives the lock. */
    method Bpin(b: nat)
      requires Valid() && b < NBUF && buf[b].dev == dev
      modifies this`buf
      ensures Valid()
      ensures buf == old(buf)[b := old(buf)[b].(refcnt := old(buf)[b].refcnt + 1, pins := old(buf)[b].pins + 1)]
    {
      PinKeepsCoherent(dev, buf, view, disk, b, 1);
      buf := buf[b := buf[b].(refcnt := buf[b].refcnt + 1, pins := buf[b].pins + 1)];
    }

    /** bunpin: drop a pin, by a caller that holds the buffer. */
    method Bunpin(b: nat)
      requires Valid() && b < NBUF && buf[b].pins > 0 && buf[b].locked && buf[b].dev == dev
      modifies this`buf
      ensures Valid()
      ensures buf == old(buf)[b := old(buf)[b].(refcnt := old(buf)[b].refcnt - 1, pins := old(buf)[b].pins - 1)]
    {
      PinKeepsCoherent(dev, buf, view, disk, b, -1);
      buf := buf[b := buf[b].(refcnt := buf[b].refcnt - 1, pins := buf[b].pins - 1)];
    }
  }
}
