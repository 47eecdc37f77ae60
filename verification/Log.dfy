/** kernel/log.c on top of the buffer cache: the code that performs the disk writes of LogSpec. */
module Log {
  import opened Blocks
  import opened LogSpec
  import opened Bio

  /** Exactly the buffers of the listed blocks are pinned, once each, and every listed block is
      cached: its latest contents cannot be recycled. */
  ghost predicate Pinned(dev: nat, buf: seq<Buf>, listed: set<int>) {
    && |buf| == NBUF
    && (forall b :: 0 <= b < NBUF ==> buf[b].pins == if buf[b].dev == dev && buf[b].blockno in listed then 1 else 0)
    && (forall a :: a in listed ==> a >= 0 && Cached(dev, buf, a))
  }

  ghost function Elems(list: seq<int>): set<int> {
    set a | a in list
  }

  ghost predicate Cached(dev: nat, buf: seq<Buf>, a: nat)
    requires |buf| == NBUF
  {
    exists b :: 0 <= b < NBUF && Holds(dev, buf[b], a)
  }

  /** Nobody holds a buffer, except the ones in `held` and buffers of the blocks `others`, which readers
      outside any operation may hold. */
  ghost predicate Unlocked(buf: seq<Buf>, held: set<nat>, others: set<nat>) {
    forall b :: 0 <= b < |buf| && buf[b].locked ==> b in held || buf[b].blockno in others
  }

  /** The readers of `others` have not changed what they read. */
  ghost predicate Reading(buf: seq<Buf>, disk: seq<Block>, others: set<nat>) {
    forall b :: 0 <= b < |buf| && buf[b].locked && buf[b].blockno in others ==> ReadOnly(buf[b], disk)
  }

  ghost predicate ReadOnly(b: Buf, disk: seq<Block>) {
    b.valid ==> b.blockno < |disk| && b.data == disk[b.blockno]
  }

  /** Nobody but readers of `others` holds a buffer, and the listed blocks are pinned. */
  ghost predicate Idle(dev: nat, buf: seq<Buf>, disk: seq<Block>, listed: set<int>, others: set<nat>) {
    Unlocked(buf, {}, others) && Reading(buf, disk, others) && Pinned(dev, buf, listed)
  }

  /** The log has no business with the blocks `others`. */
  ghost predicate ClearOf(L: Layout, lh: seq<int>, others: set<nat>) {
    forall a :: a in others ==> L.Home(a) && a !in lh
  }

  /** The blocks whose buffers are held. */
  ghost function Busy(buf: seq<Buf>): (s: set<nat>) {
    set b | 0 <= b < |buf| && buf[b].locked :: buf[b].blockno
  }

  /** A buffer was taken with bread, edited and released again. */
  lemma ReleaseKeepsIdle(dev: nat, was: seq<Buf>, buf: seq<Buf>, b: nat, disk0: seq<Block>, disk: seq<Block>,
                         listed: set<int>, others: set<nat>)
    requires Idle(dev, was, disk0, listed, others) && b < NBUF && |buf| == NBUF && buf == was[b := buf[b]]
             && !buf[b].locked
    requires buf[b].dev == dev && buf[b].valid
    requires if Caches(dev, was, b, buf[b].blockno) then buf[b].pins == was[b].pins
             else (forall i: nat :: !Caches(dev, was, i, buf[b].blockno)) && was[b].pins == 0 && buf[b].pins == 0
    requires |disk| == |disk0| && forall a :: a in others && a < |disk| ==> disk[a] == disk0[a]
    ensures Idle(dev, buf, disk, listed, others)
  {
    BreadKeepsPinned(dev, was, buf, b, buf[b].blockno, listed);
  }

  /** A fresh or re-referenced buffer for block a leaves the pins as they were. */
  lemma BreadKeepsPinned(dev: nat, was: seq<Buf>, buf: seq<Buf>, b: nat, a: nat, listed: set<int>)
    requires Pinned(dev, was, listed) && b < NBUF && |buf| == NBUF && buf == was[b := buf[b]]
    requires buf[b].dev == dev && buf[b].blockno == a && buf[b].valid
    requires if Caches(dev, was, b, a) then buf[b].pins == was[b].pins
             else (forall i: nat :: !Caches(dev, was, i, a)) && was[b].pins == 0 && buf[b].pins == 0
    ensures Pinned(dev, buf, listed)
  {
    forall x | x in listed ensures Cached(dev, buf, x) {
      assert Cached(dev, was, x);
      var c :| 0 <= c < NBUF && Holds(dev, was[c], x);
      assert Holds(dev, buf[c], x);
    }
    if !Caches(dev, was, b, a) && a in listed {
      assert Cached(dev, was, a);
      var c :| 0 <= c < NBUF && Holds(dev, was[c], a);
      assert Caches(dev, was, c, a);
    }
  }

  /** The same with the buffers that are held. */
  lemma BreadKeeps(dev: nat, was: seq<Buf>, buf: seq<Buf>, b: nat, a: nat, disk: seq<Block>, listed: set<int>,
                   held: set<nat>, others: set<nat>)
    requires Pinned(dev, was, listed) && Unlocked(was, held, others) && Reading(was, disk, others)
    requires b < NBUF && |buf| == NBUF && buf == was[b := buf[b]] && a !in others
    requires buf[b].dev == dev && buf[b].blockno == a && buf[b].valid
    requires if Caches(dev, was, b, a) then buf[b].pins == was[b].pins
             else (forall i: nat :: !Caches(dev, was, i, a)) && was[b].pins == 0 && buf[b].pins == 0
    ensures Pinned(dev, buf, listed) && Unlocked(buf, held + {b}, others) && Reading(buf, disk, others)
  {
    BreadKeepsPinned(dev, was, buf, b, a, listed);
  }

  /** A block that is not one of `others`, and of which no buffer is held, can be locked. */
  lemma CanLock(dev: nat, buf: seq<Buf>, held: set<nat>, others: set<nat>, a: nat)
    requires Unlocked(buf, held, others) && a !in others && forall b :: b in held && b < |buf| ==> buf[b].blockno != a
    ensures forall i: nat :: Caches(dev, buf, i, a) ==> !buf[i].locked
  {
  }

  /** With no buffer held but for reading, every block outside the list is the same in the cache and on disk. */
  lemma UnpinnedIsClean(dev: nat, buf: seq<Buf>, view: seq<Block>, disk: seq<Block>, listed: set<int>, others: set<nat>)
    requires Coherent(dev, buf, view, disk) && Idle(dev, buf, disk, listed, others)
    ensures forall a :: 0 <= a < |disk| && a !in listed ==> view[a] == disk[a]
  {
    forall a | 0 <= a < |disk| && a !in listed ensures view[a] == disk[a] {
      assert DirtyIsHeld(dev, buf, view, disk, a);
    }
  }

  /** What bread returns: a locked buffer with the latest contents of block a. */
  ghost predicate ReadIn(dev: nat, b: Buf, a: nat, view: seq<Block>) {
    b.locked && b.valid && b.dev == dev && b.blockno == a && b.refcnt > 0 && a < |view| && b.data == view[a]
  }

  ghost function Stored(b: Buf, data: Block, unpin: bool): (r: Buf)
    requires unpin ==> b.refcnt > 1 && b.pins > 0
  {
    if unpin then b.(data := data, refcnt := b.refcnt - 1, pins := b.pins - 1) else b.(data := data)
  }

  /** The buffers after a transfer: dst has the data of src, both are released, and dst has lost
      its pin if `unpin`. */
  ghost function Transferred(buf: seq<Buf>, src: nat, dst: nat, unpin: bool): (r: seq<Buf>)
    requires |buf| == NBUF && src < NBUF && dst < NBUF && src != dst
    requires buf[src].refcnt > 0 && buf[dst].refcnt > 0
    requires unpin ==> buf[dst].refcnt > 1 && buf[dst].pins > 0
  {
    ReleasedBoth(buf[dst := Stored(buf[dst], buf[src].data, unpin)], src, dst)
  }

  ghost function ReleasedBoth(buf: seq<Buf>, src: nat, dst: nat): (r: seq<Buf>)
    requires |buf| == NBUF && src < NBUF && dst < NBUF && src != dst
    requires buf[src].refcnt > 0 && buf[dst].refcnt > 0
  {
    buf[src := buf[src].(locked := false, refcnt := buf[src].refcnt - 1)]
       [dst := buf[dst].(locked := false, refcnt := buf[dst].refcnt - 1)]
  }

  lemma TransferKeepsPinned(dev: nat, buf: seq<Buf>, src: nat, dst: nat, unpin: bool, listed: set<int>)
    requires Pinned(dev, buf, listed)
    requires src < NBUF && dst < NBUF && src != dst && buf[src].refcnt > 0 && buf[dst].refcnt > 0
    requires unpin ==> buf[dst].refcnt > 1 && buf[dst].dev == dev && buf[dst].blockno in listed
    requires Unique(dev, buf)
    ensures Pinned(dev, Transferred(buf, src, dst, unpin), if unpin then listed - {buf[dst].blockno} else listed)
  {
    var buf' := Transferred(buf, src, dst, unpin);
    forall b | 0 <= b < NBUF && b != dst ensures Different(dev, buf[b], buf[dst]) {
      assert if b < dst then Different(dev, buf[b], buf[dst]) else Different(dev, buf[dst], buf[b]);
    }
    forall a | a in listed ensures Cached(dev, buf', a) {
      assert Cached(dev, buf, a);
      var b :| 0 <= b < NBUF && Holds(dev, buf[b], a);
      assert Holds(dev, buf'[b], a);
    }
  }

  lemma TransferKeepsReading(buf: seq<Buf>, src: nat, dst: nat, unpin: bool, disk: seq<Block>, others: set<nat>,
                             data: Block)
    requires |buf| == NBUF && src < NBUF && dst < NBUF && src != dst && buf[src].refcnt > 0 && buf[dst].refcnt > 0
    requires unpin ==> buf[dst].refcnt > 1 && buf[dst].pins > 0
    requires Unlocked(buf, {src, dst}, others) && Reading(buf, disk, others) && buf[dst].blockno !in others
             && buf[dst].blockno < |disk|
    ensures Unlocked(Transferred(buf, src, dst, unpin), {}, others)
    ensures Reading(Transferred(buf, src, dst, unpin), disk[buf[dst].blockno := data], others)
  {
  }

  /** Slots 0..tail of `now` hold the listed blocks of `view`; everything outside the slots is as in `view`. */
  ghost predicate SlotsDone(L: Layout, lh: seq<int>, view: seq<Block>, now: seq<Block>, tail: nat)
    requires ListOk(L, |view|, lh) && L.Ok(|view|) && tail <= |lh|
  {
    && |now| == |view|
    && (forall i :: 0 <= i < tail ==> now[L.Slot(i)] == view[lh[i]])
    && (forall a :: 0 <= a < |view| && (L.Home(a) || a == L.start) ==> now[a] == view[a])
  }

  lemma SlotsNext(L: Layout, lh: seq<int>, view: seq<Block>, now: seq<Block>, tail: nat)
    requires ListOk(L, |view|, lh) && L.Ok(|view|) && tail < |lh|
    requires SlotsDone(L, lh, view, now, tail)
    ensures now[lh[tail]] == view[lh[tail]]
    ensures SlotsDone(L, lh, view, now[L.Slot(tail) := view[lh[tail]]], tail + 1)
  {
  }

  /** `now` differs from `view` in home blocks only. */
  ghost predicate HomesOnly(L: Layout, view: seq<Block>, now: seq<Block>) {
    |now| == |view| && forall a :: 0 <= a < |view| && !L.Home(a) ==> now[a] == view[a]
  }

  /** What copying slot `tail` home does to the blocks still listed, to the plan and to the contents. */
  lemma HomesNext(L: Layout, lh: seq<int>, view: seq<Block>, now: seq<Block>, writes: seq<Write>, tail: nat)
    requires L.Ok(|view|) && ListOk(L, |view|, lh) && tail < |lh| && HomesOnly(L, view, now)
    ensures Elems(lh[tail..]) - {lh[tail]} == Elems(lh[tail + 1..])
    ensures lh[tail] in Elems(lh[tail..]) && L.Slot(tail) !in Elems(lh[tail..])
    ensures writes + HomeWrites(L, lh, view)[..tail + 1]
            == writes + HomeWrites(L, lh, view)[..tail] + [Write(lh[tail], now[L.Slot(tail)])]
    ensures HomesOnly(L, view, now[lh[tail] := now[L.Slot(tail)]])
  {
    assert lh[tail..] == [lh[tail]] + lh[tail + 1..];
    ListedAreHomes(L, lh[tail..], tail, |view|);
    var plan := HomeWrites(L, lh, view);
    assert plan[..tail + 1] == plan[..tail] + [plan[tail]];
  }

  lemma ListedAreHomes(L: Layout, lh: seq<int>, i: nat, blocks: nat)
    requires L.Ok(blocks)
    requires forall k :: 0 <= k < |lh| ==> L.Home(lh[k])
    ensures L.start !in Elems(lh)
    ensures i < L.size - 1 ==> L.Slot(i) !in Elems(lh)
  {
  }

  /** The slots of `now` hold the listed blocks of `view`. */
  ghost predicate SlotsKept(L: Layout, lh: seq<int>, view: seq<Block>, now: seq<Block>)
    requires ListOk(L, |view|, lh) && L.Ok(|view|)
  {
    |now| == |view| && forall i :: 0 <= i < |lh| ==> now[L.Slot(i)] == view[lh[i]]
  }

  lemma SlotsAreKept(L: Layout, lh: seq<int>, view: seq<Block>, now: seq<Block>, hd: Block)
    requires ListOk(L, |view|, lh) && L.Ok(|view|) && SlotsDone(L, lh, view, now, |lh|)
    ensures SlotsKept(L, lh, view, now[L.start := hd])
  {
  }

  lemma AbsorbKeepsList(L: Layout, blocks: nat, lh: seq<int>, a: nat)
    requires ListOk(L, blocks, lh) && L.Home(a) && a < blocks && !TooBig(L, lh)
    ensures ListOk(L, blocks, Absorb(lh, a))
  {
  }

  lemma OneMore(block: seq<int>, n: nat, x: int)
    requires n < |block|
    ensures block[n := x][..n + 1] == block[..n] + [x]
  {
  }

  lemma PinListed(dev: nat, buf: seq<Buf>, b: nat, lh: seq<int>, blockno: nat)
    requires Pinned(dev, buf, Elems(lh)) && b < NBUF && Holds(dev, buf[b], blockno) && blockno !in lh
    requires Unique(dev, buf)
    ensures Pinned(dev, buf[b := buf[b].(refcnt := buf[b].refcnt + 1, pins := buf[b].pins + 1)], Elems(lh + [blockno]))
  {
    var buf' := buf[b := buf[b].(refcnt := buf[b].refcnt + 1, pins := buf[b].pins + 1)];
    assert Elems(lh + [blockno]) == Elems(lh) + {blockno};
    forall c | 0 <= c < NBUF && c != b ensures Different(dev, buf[c], buf[b]) {
      assert if c < b then Different(dev, buf[c], buf[b]) else Different(dev, buf[b], buf[c]);
    }
    forall a | a in Elems(lh + [blockno]) ensures a >= 0 && Cached(dev, buf', a) {
      if a == blockno {
        assert Holds(dev, buf'[b], a);
      } else {
        assert Cached(dev, buf, a);
        var c :| 0 <= c < NBUF && Holds(dev, buf[c], a);
        assert Holds(dev, buf'[c], a);
      }
    }
  }

  lemma QuietIsIdle(L: Layout, dev: nat, buf: seq<Buf>, disk: seq<Block>, lh: seq<int>)
    requires Pinned(dev, buf, Elems(lh))
    requires forall b :: 0 <= b < |buf| && buf[b].locked ==>
                           L.Home(buf[b].blockno) && buf[b].blockno !in lh && ReadOnly(buf[b], disk)
    ensures Idle(dev, buf, disk, Elems(lh), Busy(buf)) && ClearOf(L, lh, Busy(buf))
  {
  }

  /** Nothing is listed, and buffers are held for reading at most: the cache holds what is on disk. */
  lemma AllClean(L: Layout, dev: nat, buf: seq<Buf>, view: seq<Block>, disk: seq<Block>)
    requires Coherent(dev, buf, view, disk) && Pinned(dev, buf, Elems([]))
    requires forall b :: 0 <= b < |buf| && buf[b].locked ==> L.Home(buf[b].blockno) && ReadOnly(buf[b], disk)
    ensures view == disk
  {
    QuietIsIdle(L, dev, buf, disk, []);
    UnpinnedIsClean(dev, buf, view, disk, Elems([]), Busy(buf));
  }

  /** Nothing is listed any more: cache and disk agree, and whoever held a buffer for reading still does. */
  lemma Settled(L: Layout, dev: nat, buf: seq<Buf>, view: seq<Block>, disk: seq<Block>, lh: seq<int>, others: set<nat>)
    requires Coherent(dev, buf, view, disk) && Idle(dev, buf, disk, {}, others) && ClearOf(L, lh, others)
    ensures view == disk
    ensures forall b :: 0 <= b < |buf| && buf[b].locked ==> L.Home(buf[b].blockno) && ReadOnly(buf[b], disk)
  {
    UnpinnedIsClean(dev, buf, view, disk, {}, others);
  }

  /** What has been written so far, when the first part of a plan is done and the second is under way. */
  lemma InPlan(w: seq<Write>, a: seq<Write>, b: seq<Write>, now: seq<Write>)
    requires w + a <= now <= w + a + b
    ensures w <= now <= w + (a + b)
    ensures now == w + a + b ==> now == w + (a + b)
  {
    assert w + a + b == w + (a + b);
  }

  lemma PartOfStage(w: seq<Write>, slots: seq<Write>, last: Write, now: seq<Write>)
    requires now <= w + slots
    ensures now <= w + (slots + [last]) && w + (slots + [last]) == w + slots + [last]
  {
    assert w + slots + [last] == w + (slots + [last]);
  }

  /** The first two stages of the plan. */
  lemma CommitStages(L: Layout, hd: Block, lh: seq<int>, view: seq<Block>)
    requires ListOk(L, |view|, lh) && L.Ok(|view|) && lh != []
    ensures SlotWrites(L, lh, view) + [Write(L.start, PutHead(hd, lh))] <= CommitWrites(L, hd, lh, view)
  {
  }

  /** Every disk that the writes after the first `from` pass through recovers to one of `outcomes`. */
  ghost predicate EveryDiskRecovers(L: Layout, boot: seq<Block>, writes: seq<Write>, from: nat,
                                    outcomes: set<map<nat, Block>>)
  {
    && InRange(writes, |boot|)
    && forall k :: from <= k <= |writes| ==> RecoversAmong(L, Apply(boot, writes[..k]), outcomes)
  }

  ghost predicate RecoversAmong(L: Layout, d: seq<Block>, outcomes: set<map<nat, Block>>) {
    DiskOk(L, d) && Durable(L, d) in outcomes
  }

  lemma CommitOutcome(L: Layout, disk: seq<Block>, lh: seq<int>, view: seq<Block>, boot: seq<Block>, writes: seq<Write>,
                      now: seq<Write>)
    requires DiskOk(L, disk) && LogEmpty(L, disk) && |view| == |disk| && ListOk(L, |disk|, lh)
    requires forall a :: 0 <= a < |disk| && L.Home(a) && a !in lh ==> view[a] == disk[a]
    requires InRange(writes, |boot|) && disk == Apply(boot, writes)
    requires writes <= now <= writes + CommitWrites(L, disk[L.start], lh, view)
    ensures EveryDiskRecovers(L, boot, now, |writes|, {HomeBlocks(L, disk), HomeBlocks(L, view)})
  {
    var plan := CommitWrites(L, disk[L.start], lh, view);
    forall k | |writes| <= k <= |now|
      ensures RecoversAmong(L, Apply(boot, now[..k]), {HomeBlocks(L, disk), HomeBlocks(L, view)})
    {
      var j := k - |writes|;
      assert now[..k] == writes + plan[..j];
      ApplyConcat(boot, writes, plan[..j]);
      CommitCrash(L, disk, lh, view, j);
    }
  }

  lemma CommitFinished(L: Layout, disk: seq<Block>, lh: seq<int>, view: seq<Block>, boot: seq<Block>,
                       writes: seq<Write>)
    requires DiskOk(L, disk) && LogEmpty(L, disk) && |view| == |disk| && ListOk(L, |disk|, lh)
    requires forall a :: 0 <= a < |disk| && L.Home(a) && a !in lh ==> view[a] == disk[a]
    requires InRange(writes, |boot|) && disk == Apply(boot, writes)
    ensures InRange(writes + CommitWrites(L, disk[L.start], lh, view), |boot|)
    ensures var after := Apply(boot, writes + CommitWrites(L, disk[L.start], lh, view));
            |after| == |disk| && DiskOk(L, after) && LogEmpty(L, after) && HomeBlocks(L, after) == HomeBlocks(L, view)
  {
    var plan := CommitWrites(L, disk[L.start], lh, view);
    ApplyConcat(boot, writes, plan);
    assert plan[..|plan|] == plan;
    CommitCrash(L, disk, lh, view, |plan|);
  }

  lemma RecoveryOutcome(L: Layout, disk: seq<Block>, boot: seq<Block>, writes: seq<Write>, now: seq<Write>)
    requires DiskOk(L, disk) && InRange(writes, |boot|) && disk == Apply(boot, writes)
    requires writes <= now <= writes + RecoverWrites(L, disk)
    ensures EveryDiskRecovers(L, boot, now, |writes|, {Durable(L, disk)})
  {
    var plan := RecoverWrites(L, disk);
    forall k | |writes| <= k <= |now| ensures RecoversAmong(L, Apply(boot, now[..k]), {Durable(L, disk)}) {
      var j := k - |writes|;
      assert now[..k] == writes + plan[..j];
      ApplyConcat(boot, writes, plan[..j]);
      RecoveryCrash(L, disk, j);
    }
  }

  lemma RecoveryFinished(L: Layout, disk: seq<Block>, boot: seq<Block>, writes: seq<Write>)
    requires DiskOk(L, disk) && InRange(writes, |boot|) && disk == Apply(boot, writes)
    ensures InRange(writes + RecoverWrites(L, disk), |boot|)
    ensures var after := Apply(boot, writes + RecoverWrites(L, disk));
            |after| == |disk| && DiskOk(L, after) && LogEmpty(L, after) && HomeBlocks(L, after) == Durable(L, disk)
  {
    ApplyConcat(boot, writes, RecoverWrites(L, disk));
    RecoveredContents(L, disk);
    RecoveryIdempotent(L, disk);
  }

  class Log {
    const bc: Bcache
    const L: Layout
    var n: nat            // lh.n
    var block: seq<int>   // lh.block
    var outstanding: nat
    var committing: bool

    ghost function List(): (list: seq<int>)
      reads this
      requires n <= |block|
    {
      block[..n]
    }

    ghost predicate Valid()
      reads this, bc
    {
      && bc.Valid() && L.Ok(|bc.disk|)
      && |block| == LOGSIZE && n <= LOGSIZE
      && ListOk(L, |bc.disk|, List())
      && Pinned(bc.dev, bc.buf, Elems(List()))
      && DiskOk(L, bc.disk) && LogEmpty(L, bc.disk)
    }

    /** initlog, up to the call of recover_from_log. */
    constructor (bc: Bcache, L: Layout)
      ensures this.bc == bc && this.L == L
      ensures n == 0 && |block| == LOGSIZE && outstanding == 0 && !committing
    {
      this.bc, this.L := bc, L;
      n, block, outstanding, committing := 0, seq(LOGSIZE, i => 0), 0, false;
    }

    /** Copy buffer src's data into buffer dst, write dst to the disk and release both. */
    method Transfer(src: nat, dst: nat, unpin: bool)
      requires bc.Valid() && src < NBUF && dst < NBUF && src != dst
      requires bc.buf[src].locked && bc.buf[src].valid && bc.buf[src].dev == bc.dev
      requires bc.buf[dst].locked && bc.buf[dst].valid && bc.buf[dst].dev == bc.dev
      requires bc.buf[src].blockno != bc.buf[dst].blockno
      requires bc.buf[src].refcnt > 0 && bc.buf[dst].refcnt > 0
      requires bc.buf[src].pins == 0 ==> bc.buf[src].data == bc.disk[bc.buf[src].blockno]
      requires unpin ==> bc.buf[dst].pins > 0 && bc.buf[dst].refcnt > 1
      modifies bc
      ensures bc.Valid()
      ensures bc.buf == Transferred(old(bc.buf), src, dst, unpin)
      ensures bc.view == old(bc.view)[old(bc.buf)[dst].blockno := old(bc.buf)[src].data]
      ensures bc.disk == old(bc.disk)[old(bc.buf)[dst].blockno := old(bc.buf)[src].data]
      ensures bc.writes == old(bc.writes) + [Write(old(bc.buf)[dst].blockno, old(bc.buf)[src].data)]
    {
      Store(dst, bc.buf[src].data, unpin);
      ReleaseBoth(src, dst);
    }

    /** bread of two different blocks. */
    method BreadBoth(a1: nat, a2: nat, ghost listed: set<int>, ghost others: set<nat>)
      returns (b1: nat, b2: nat, ok: bool)
      requires bc.Valid() && Idle(bc.dev, bc.buf, bc.disk, listed, others) && a1 < |bc.disk| && a2 < |bc.disk|
               && a1 != a2
      requires a1 !in others && a2 !in others
      modifies bc`buf
      ensures bc.Valid()
      ensures ok ==> b1 < NBUF && b2 < NBUF && b1 != b2
      ensures ok ==> Pinned(bc.dev, bc.buf, listed) && Unlocked(bc.buf, {b1, b2}, others)
                     && Reading(bc.buf, bc.disk, others)
      ensures ok ==> ReadIn(bc.dev, bc.buf[b1], a1, bc.view) && ReadIn(bc.dev, bc.buf[b2], a2, bc.view)
    {
      b2 := 0;
      CanLock(bc.dev, bc.buf, {}, others, a1);
      b1, ok := bc.Bread(a1);
      if !ok { return; }
      BreadKeeps(bc.dev, old(bc.buf), bc.buf, b1, a1, bc.disk, listed, {}, others);
      b2, ok := BreadSecond(b1, a2, listed, others);
    }

    method BreadSecond(ghost b1: nat, a2: nat, ghost listed: set<int>, ghost others: set<nat>)
      returns (b2: nat, ok: bool)
      requires bc.Valid() && b1 < NBUF && a2 < |bc.disk| && a2 !in others && bc.buf[b1].blockno != a2
               && bc.buf[b1].refcnt > 0
      requires Pinned(bc.dev, bc.buf, listed) && Unlocked(bc.buf, {} + {b1}, others) && Reading(bc.buf, bc.disk, others)
      modifies bc`buf
      ensures bc.Valid()
      ensures ok ==> b2 < NBUF && b1 != b2 && bc.buf[b1] == old(bc.buf)[b1] && ReadIn(bc.dev, bc.buf[b2], a2, bc.view)
      ensures ok ==> Pinned(bc.dev, bc.buf, listed) && Unlocked(bc.buf, {b1, b2}, others)
                     && Reading(bc.buf, bc.disk, others)
    {
      ghost var buf1 := bc.buf;
      CanLock(bc.dev, buf1, {} + {b1}, others, a2);
      b2, ok := bc.Bread(a2);
      if ok {
        BreadKeeps(bc.dev, buf1, bc.buf, b2, a2, bc.disk, listed, {} + {b1}, others);
        assert {} + {b1} + {b2} == {b1, b2};
      }
    }

    /** memmove into a buffer, bwrite, and bunpin if asked. */
    method Store(dst: nat, data: Block, unpin: bool)
      requires bc.Valid() && dst < NBUF && bc.buf[dst].locked && bc.buf[dst].valid
      requires unpin ==> bc.buf[dst].pins > 0 && bc.buf[dst].refcnt > 1
      modifies bc`buf, bc`view, bc`disk, bc`writes
      ensures bc.Valid() && bc.buf == old(bc.buf)[dst := Stored(old(bc.buf)[dst], data, unpin)]
      ensures bc.view == old(bc.view)[old(bc.buf)[dst].blockno := data]
      ensures bc.disk == old(bc.disk)[old(bc.buf)[dst].blockno := data]
      ensures bc.writes == old(bc.writes) + [Write(old(bc.buf)[dst].blockno, data)]
    {
      bc.SetData(dst, data);
      bc.Bwrite(dst);
      if unpin {
        bc.Bunpin(dst);
      }
    }

    /** brelse of two buffers. */
    method ReleaseBoth(src: nat, dst: nat)
      requires bc.Valid() && src < NBUF && dst < NBUF && src != dst && bc.buf[src].locked && bc.buf[dst].locked
      requires bc.buf[src].refcnt > 0 && bc.buf[dst].refcnt > 0
      requires bc.buf[src].valid && bc.buf[src].pins == 0 ==>
                 bc.buf[src].blockno < |bc.disk| && bc.buf[src].data == bc.disk[bc.buf[src].blockno]
      requires bc.buf[dst].valid && bc.buf[dst].pins == 0 ==>
                 bc.buf[dst].blockno < |bc.disk| && bc.buf[dst].data == bc.disk[bc.buf[dst].blockno]
      modifies bc`buf, bc`next, bc`prev, bc`ring
      ensures bc.Valid()
      ensures bc.buf == ReleasedBoth(old(bc.buf), src, dst)
    {
      bc.Brelse(src);
      bc.Brelse(dst);
    }

    /** write_head: store the in-memory list in the header block. */
    method WriteHead(ghost listed: set<int>, ghost others: set<nat>) returns (ok: bool)
      requires bc.Valid() && Idle(bc.dev, bc.buf, bc.disk, listed, others) && L.Ok(|bc.disk|)
      requires n <= |block| == LOGSIZE && L.start !in listed && L.start !in others
      modifies bc
      ensures !ok ==> bc.Valid() && bc.writes == old(bc.writes)
      ensures ok ==> bc.Valid() && Idle(bc.dev, bc.buf, bc.disk, listed, others)
      ensures ok ==> var w := Write(L.start, PutHead(old(bc.view)[L.start], block[..n]));
                     && bc.view == old(bc.view)[w.at := w.data]
                     && bc.disk == old(bc.disk)[w.at := w.data]
                     && bc.writes == old(bc.writes) + [w]
    {
      var b;
      b, ok := bc.Bread(L.start);
      if !ok { return; }
      BreadKeepsPinned(bc.dev, old(bc.buf), bc.buf, b, L.start, listed);
      var hd := PutHead(bc.buf[b].data, block[..n]);
      bc.SetData(b, hd);
      bc.Bwrite(b);
      bc.Brelse(b);
      ReleaseKeepsIdle(bc.dev, old(bc.buf), bc.buf, b, old(bc.disk), bc.disk, listed, others);
    }

    /** One turn of write_log's loop: cached block to log slot. */
    method LogOne(tail: nat, ghost listed: set<int>, ghost others: set<nat>) returns (ok: bool)
      requires bc.Valid() && Idle(bc.dev, bc.buf, bc.disk, listed, others) && L.Ok(|bc.disk|)
      requires tail < |block| && tail < L.size - 1 && block[tail] in listed && 0 <= block[tail] < |bc.disk|
      requires L.Slot(tail) !in listed && L.Slot(tail) !in others && block[tail] !in others
      modifies bc
      ensures !ok ==> bc.Valid() && bc.writes == old(bc.writes)
      ensures ok ==> bc.Valid() && Idle(bc.dev, bc.buf, bc.disk, listed, others)
      ensures ok ==> var w := Write(L.Slot(tail), old(bc.view)[block[tail]]);
                     && bc.view == old(bc.view)[w.at := w.data]
                     && bc.disk == old(bc.disk)[w.at := w.data]
                     && bc.writes == old(bc.writes) + [w]
    {
      var to, from;
      to, from, ok := BreadBoth(L.Slot(tail), block[tail], listed, others);
      if !ok { return; }
      TransferKeepsPinned(bc.dev, bc.buf, from, to, false, listed);
      TransferKeepsReading(bc.buf, from, to, false, bc.disk, others, bc.buf[from].data);
      Transfer(from, to, false);
    }

    /** One turn of install_trans's loop: log slot to home block, dropping the pin unless recovering. */
    method InstallOne(tail: nat, recovering: bool, ghost listed: set<int>, ghost others: set<nat>) returns (ok: bool)
      requires bc.Valid() && Idle(bc.dev, bc.buf, bc.disk, listed, others) && L.Ok(|bc.disk|)
      requires tail < |block| && tail < L.size - 1 && 0 <= block[tail] < |bc.disk| && L.Home(block[tail])
      requires L.Slot(tail) !in listed && (!recovering ==> block[tail] in listed) && L.Slot(tail) !in others
               && block[tail] !in others
      modifies bc
      ensures !ok ==> bc.Valid() && bc.writes == old(bc.writes)
      ensures ok ==> bc.Valid() && Idle(bc.dev, bc.buf, bc.disk, if recovering then listed
                                        else listed - {block[tail]}, others)
      ensures ok ==> var w := Write(block[tail], old(bc.view)[L.Slot(tail)]);
                     && bc.view == old(bc.view)[w.at := w.data]
                     && bc.disk == old(bc.disk)[w.at := w.data]
                     && bc.writes == old(bc.writes) + [w]
    {
      UnpinnedIsClean(bc.dev, bc.buf, bc.view, bc.disk, listed, others);
      var lbuf, dbuf;
      lbuf, dbuf, ok := BreadBoth(L.Slot(tail), block[tail], listed, others);
      if !ok { return; }
      assert BufOk(bc.dev, bc.buf[dbuf], bc.view, bc.disk);
      TransferKeepsPinned(bc.dev, bc.buf, lbuf, dbuf, !recovering, listed);
      TransferKeepsReading(bc.buf, lbuf, dbuf, !recovering, bc.disk, others, bc.buf[lbuf].data);
      Transfer(lbuf, dbuf, !recovering);
    }

    /** write_log has copied the first `tail` blocks of `lh`, starting from cache contents `view`
        and disk writes `writes`. */
    ghost predicate Logging(lh: seq<int>, view: seq<Block>, writes: seq<Write>, others: set<nat>, tail: nat)
      reads this, bc
    {
      && bc.Valid() && |bc.disk| == |view| && L.Ok(|view|) && ListOk(L, |view|, lh) && tail <= |lh|
      && Idle(bc.dev, bc.buf, bc.disk, Elems(lh), others) && ClearOf(L, lh, others)
      && bc.writes == writes + SlotWrites(L, lh, view)[..tail]
      && SlotsDone(L, lh, view, bc.view, tail)
    }

    method LogNext(tail: nat, ghost lh: seq<int>, ghost view: seq<Block>, ghost writes: seq<Write>,
                   ghost others: set<nat>) returns (ok: bool)
      requires Logging(lh, view, writes, others, tail) && tail < |lh| && tail < |block| && block[tail] == lh[tail]
      modifies bc
      ensures !ok ==> bc.Valid() && bc.writes == writes + SlotWrites(L, lh, view)[..tail]
      ensures ok ==> Logging(lh, view, writes, others, tail + 1)
    {
      ListedAreHomes(L, lh, tail, |view|);
      SlotsNext(L, lh, view, bc.view, tail);
      ghost var plan := SlotWrites(L, lh, view);
      assert plan[..tail + 1] == plan[..tail] + [plan[tail]];
      ok := LogOne(tail, Elems(lh), others);
    }

    /** write_log: every listed block's cached contents into its log slot, in order. */
    method WriteLog(ghost others: set<nat>) returns (ok: bool)
      requires n <= |block| == LOGSIZE && L.Ok(|bc.disk|) && bc.Valid() && ClearOf(L, block[..n], others)
      requires ListOk(L, |bc.disk|, block[..n]) && Idle(bc.dev, bc.buf, bc.disk, Elems(block[..n]), others)
      modifies bc
      ensures bc.Valid()
      ensures old(bc.writes) <= bc.writes <= old(bc.writes) + SlotWrites(L, block[..n], old(bc.view))
      ensures ok ==> Logging(block[..n], old(bc.view), old(bc.writes), others, n)
    {
      ghost var lh, view, writes := block[..n], bc.view, bc.writes;
      var tail := 0;
      while tail < n
        invariant tail <= n && Logging(lh, view, writes, others, tail)
      {
        ok := LogNext(tail, lh, view, writes, others);
        if !ok { return; }
        tail := tail + 1;
      }
      ok := true;
    }

    /** install_trans has copied the first `tail` slots. */
    ghost predicate Installing(recovering: bool, lh: seq<int>, view: seq<Block>, writes: seq<Write>, others: set<nat>,
                               tail: nat)
      reads this, bc
    {
      && bc.Valid() && |bc.disk| == |view| && L.Ok(|view|) && ListOk(L, |view|, lh) && tail <= |lh|
      && Idle(bc.dev, bc.buf, bc.disk, if recovering then {} else Elems(lh[tail..]), others) && ClearOf(L, lh, others)
      && bc.writes == writes + HomeWrites(L, lh, view)[..tail]
      && HomesOnly(L, view, bc.view)
    }

    method InstallNext(recovering: bool, tail: nat, ghost lh: seq<int>, ghost view: seq<Block>,
                       ghost writes: seq<Write>, ghost others: set<nat>)
      returns (ok: bool)
      requires Installing(recovering, lh, view, writes, others, tail)
      requires tail < |lh| && tail < |block| && block[tail] == lh[tail]
      modifies bc
      ensures !ok ==> bc.Valid() && bc.writes == writes + HomeWrites(L, lh, view)[..tail]
      ensures ok ==> Installing(recovering, lh, view, writes, others, tail + 1)
    {
      HomesNext(L, lh, view, bc.view, writes, tail);
      ok := InstallOne(tail, recovering, if recovering then {} else Elems(lh[tail..]), others);
    }

    /** install_trans: every log slot to its home block, in order. */
    method InstallTrans(recovering: bool, ghost others: set<nat>) returns (ok: bool)
      requires n <= |block| == LOGSIZE && L.Ok(|bc.disk|) && bc.Valid() && ClearOf(L, block[..n], others)
      requires ListOk(L, |bc.disk|, block[..n])
      requires Idle(bc.dev, bc.buf, bc.disk, if recovering then {} else Elems(block[..n]), others)
      modifies bc
      ensures bc.Valid()
      ensures old(bc.writes) <= bc.writes <= old(bc.writes) + HomeWrites(L, block[..n], old(bc.view))
      ensures ok ==> Installing(recovering, block[..n], old(bc.view), old(bc.writes), others, n)
    {
      ghost var lh, view, writes := block[..n], bc.view, bc.writes;
      assert lh[0..] == lh;
      var tail := 0;
      while tail < n
        invariant tail <= n && Installing(recovering, lh, view, writes, others, tail)
      {
        ok := InstallNext(recovering, tail, lh, view, writes, others);
        if !ok { return; }
        tail := tail + 1;
      }
      ok := true;
    }

    /** Nobody holds a buffer of a block that the log touches; whoever holds another one only reads. */
    ghost predicate Quiet()
      requires n <= |block|
      reads this, bc
    {
      forall b :: 0 <= b < |bc.buf| && bc.buf[b].locked ==>
        L.Home(bc.buf[b].blockno) && bc.buf[b].blockno !in List() && ReadOnly(bc.buf[b], bc.disk)
    }

    /** Everything that a commit needs: the log on disk is empty, the listed blocks are pinned, and nobody is
        in its way. */
    ghost predicate Ready()
      reads this, bc
    {
      Valid() && Quiet()
    }

    /** commit: the disk writes are the plan of LogSpec.CommitWrites, or a prefix of it if the
        kernel panics for lack of buffers.  Whichever prefix reaches the disk, recovery restores
        the home blocks either all as they were on disk or all as the cache had them. */
    method Commit() returns (ok: bool)
      requires Ready()
      modifies this`n, bc
      ensures old(bc.writes) <= bc.writes <= old(bc.writes) + Plan(old(bc.disk), old(List()), old(bc.view))
      ensures ok ==> bc.writes == old(bc.writes) + Plan(old(bc.disk), old(List()), old(bc.view))
      ensures ok ==> Ready() && n == 0
      ensures ok ==> HomeBlocks(L, bc.view) == HomeBlocks(L, bc.disk) == old(HomeBlocks(L, bc.view))
      ensures EveryDiskRecovers(L, bc.boot, bc.writes, |old(bc.writes)|,
                                {old(HomeBlocks(L, bc.disk)), old(HomeBlocks(L, bc.view))})
    {
      ghost var lh, view, disk, writes := List(), bc.view, bc.disk, bc.writes;
      ghost var others := Busy(bc.buf);
      QuietIsIdle(L, bc.dev, bc.buf, disk, lh);
      UnpinnedIsClean(bc.dev, bc.buf, view, disk, Elems(lh), others);
      ok := CommitWritten(lh, view, disk, writes, others);
      CommitOutcome(L, disk, lh, view, bc.boot, writes, bc.writes);
      if ok {
        CommitFinished(L, disk, lh, view, bc.boot, writes);
        Settled(L, bc.dev, bc.buf, bc.view, bc.disk, lh, others);
        assert List() == [] && Elems([]) == {};
      }
    }

    /** The writes of commit, if there is anything to commit. */
    method CommitWritten(ghost lh: seq<int>, ghost view: seq<Block>, ghost disk: seq<Block>, ghost writes: seq<Write>,
                         ghost others: set<nat>)
      returns (ok: bool)
      requires Valid() && Idle(bc.dev, bc.buf, bc.disk, Elems(lh), others) && ClearOf(L, lh, others)
      requires lh == List() && view == bc.view && disk == bc.disk && writes == bc.writes
               && view[L.start] == disk[L.start]
      modifies this`n, bc
      ensures writes <= bc.writes <= writes + Plan(disk, lh, view)
      ensures ok ==> bc.writes == writes + Plan(disk, lh, view)
      ensures ok ==> bc.Valid() && Idle(bc.dev, bc.buf, bc.disk, {}, others) && n == 0
    {
      if n > 0 {
        ok := CommitParts(lh, view, disk, writes, others);
      } else {
        ok := true;
        assert Plan(disk, lh, view) == [] && Elems(lh) == {};
        assert writes == writes + Plan(disk, lh, view);
      }
    }

    ghost function Plan(disk: seq<Block>, lh: seq<int>, view: seq<Block>): seq<Write>
      requires |disk| == |view| && L.Ok(|view|) && ListOk(L, |view|, lh)
    {
      CommitWrites(L, disk[L.start], lh, view)
    }

    /** read_head: the list in the header block into memory. */
    method ReadHead() returns (ok: bool)
      requires bc.Valid() && Idle(bc.dev, bc.buf, bc.disk, {}, {}) && |block| == LOGSIZE
      requires bc.view == bc.disk && DiskOk(L, bc.disk)
      modifies this`n, this`block, bc
      ensures bc.Valid() && bc.view == old(bc.view) && bc.disk == old(bc.disk) && bc.writes == old(bc.writes)
      ensures ok ==> Idle(bc.dev, bc.buf, bc.disk, {}, {})
      ensures ok ==> n <= |block| == LOGSIZE && List() == Listed(bc.disk[L.start])
    {
      var b;
      b, ok := bc.Bread(L.start);
      if !ok { return; }
      BreadKeepsPinned(bc.dev, old(bc.buf), bc.buf, b, L.start, {});
      CopyHead(bc.buf[b].data);
      bc.Brelse(b);
      ReleaseKeepsIdle(bc.dev, old(bc.buf), bc.buf, b, old(bc.disk), bc.disk, {}, {});
    }

    /** The loop of read_head: the header block's count and block numbers into memory. */
    method CopyHead(hd: Block)
      requires |block| == LOGSIZE && 0 <= hd[0] <= LOGSIZE
      modifies this`n, this`block
      ensures n <= |block| == LOGSIZE && List() == Listed(hd)
    {
      n := hd[0];
      var i := 0;
      while i < n
        invariant i <= n == hd[0] && |block| == LOGSIZE
        invariant block[..i] == hd[1..1 + i]
      {
        block := block[i := hd[1 + i]];
        assert block[..i + 1] == block[..i] + [hd[1 + i]];
        i := i + 1;
      }
    }

    /** recover_from_log, on a cache that has just been initialised.  The disk writes are the plan
        of LogSpec.RecoverWrites or a prefix of it, and every disk on the way recovers alike. */
    method RecoverFromLog() returns (ok: bool)
      requires bc.Valid() && Idle(bc.dev, bc.buf, bc.disk, {}, {}) && |block| == LOGSIZE
      requires bc.view == bc.disk && DiskOk(L, bc.disk)
      modifies this`n, this`block, bc
      ensures old(bc.writes) <= bc.writes <= old(bc.writes) + RecoverWrites(L, old(bc.disk))
      ensures ok ==> bc.writes == old(bc.writes) + RecoverWrites(L, old(bc.disk))
      ensures ok ==> Ready() && n == 0 && HomeBlocks(L, bc.disk) == old(Durable(L, bc.disk))
      ensures EveryDiskRecovers(L, bc.boot, bc.writes, |old(bc.writes)|, {old(Durable(L, bc.disk))})
    {
      ghost var disk, writes := bc.disk, bc.writes;
      ok := ReadHead();
      if ok {
        ok := InstallAll(disk);
      }
      RecoveryOutcome(L, disk, bc.boot, writes, bc.writes);
      if ok {
        RecoveryFinished(L, disk, bc.boot, writes);
      }
    }

    /** The part of recover_from_log after read_head. */
    method InstallAll(ghost disk: seq<Block>) returns (ok: bool)
      requires n <= |block| == LOGSIZE && bc.Valid() && bc.view == bc.disk == disk && DiskOk(L, disk)
      requires List() == Listed(disk[L.start]) && Idle(bc.dev, bc.buf, bc.disk, {}, {})
      modifies this`n, bc
      ensures old(bc.writes) <= bc.writes <= old(bc.writes) + RecoverWrites(L, disk)
      ensures bc.Valid()
      ensures ok ==> bc.writes == old(bc.writes) + RecoverWrites(L, disk)
      ensures ok ==> Idle(bc.dev, bc.buf, bc.disk, {}, {}) && n == 0
    {
      RecoverInOrder(L, disk);
      ghost var homes := HomeWrites(L, List(), disk);
      ok := InstallTrans(true, {});
      if !ok { return; }
      assert homes[..n] == homes;
      n := 0;
      assert block[..0] == [];
      ok := WriteHead({}, {});
    }

    /** begin_op, one turn of its loop: the caller gets in, or has to sleep. */
    method BeginOp() returns (admitted: bool)
      modifies this`outstanding
      ensures admitted <==> !committing && n + (old(outstanding) + 1) * MAXOPBLOCKS <= LOGSIZE
      ensures outstanding == old(outstanding) + if admitted then 1 else 0
    {
      if committing || n + (outstanding + 1) * MAXOPBLOCKS > LOGSIZE {
        admitted := false;
      } else {
        outstanding := outstanding + 1;
        admitted := true;
      }
    }

    /** log_write: list and pin the block of a buffer that the caller has modified and holds.
        `ok` is false for the two panics. */
    method LogWrite(b: nat) returns (ok: bool)
      requires Valid() && b < NBUF && bc.buf[b].locked && bc.buf[b].valid && L.Home(bc.buf[b].blockno)
      modifies this`n, this`block, bc`buf
      ensures ok <==> outstanding >= 1 && !TooBig(L, old(List()))
      ensures !ok ==> n == old(n) && block == old(block) && bc.buf == old(bc.buf)
      ensures ok ==> Valid() && List() == Absorb(old(List()), bc.buf[b].blockno)
      ensures ok ==> bc.buf[b].pins == 1 && bc.buf == old(bc.buf)[b := bc.buf[b]]
      ensures bc.buf[b].data == old(bc.buf)[b].data && bc.buf[b].blockno == old(bc.buf)[b].blockno && bc.buf[b].locked
    {
      if n >= LOGSIZE || n >= L.size - 1 || outstanding < 1 {
        ok := false;
        return;
      }
      ok := true;
      assert BufOk(bc.dev, bc.buf[b], bc.view, bc.disk);
      var i := FindSlot(bc.buf[b].blockno);
      if i == n {
        Append(b);
      } else {
        block := block[i := bc.buf[b].blockno];
        assert block == old(block);
      }
    }

    /** A block that is not yet on the list goes to its end and is pinned. */
    method Append(b: nat)
      requires Valid() && b < NBUF && bc.buf[b].dev == bc.dev && bc.buf[b].valid && bc.buf[b].blockno < |bc.disk|
      requires !TooBig(L, List()) && L.Home(bc.buf[b].blockno) && bc.buf[b].blockno !in List()
      modifies this`n, this`block, bc`buf
      ensures Valid() && List() == old(List()) + [bc.buf[b].blockno]
      ensures var x := old(bc.buf)[b];
              bc.buf == old(bc.buf)[b := x.(refcnt := x.refcnt + 1, pins := x.pins + 1)]
    {
      ghost var lh, blockno := List(), bc.buf[b].blockno;
      AbsorbKeepsList(L, |bc.disk|, lh, blockno);
      PinListed(bc.dev, bc.buf, b, lh, blockno);
      OneMore(block, n, blockno);
      block := block[n := bc.buf[b].blockno];
      bc.Bpin(b);
      n := n + 1;
    }

    /** The scan of log_write: the entry of `blockno`, or the end of the list. */
    method FindSlot(blockno: nat) returns (i: nat)
      requires n <= |block|
      ensures i <= n
      ensures if blockno in block[..n] then i < n && block[i] == blockno else i == n
    {
      i := 0;
      while i < n && block[i] != blockno
        invariant i <= n && blockno !in block[..i]
      {
        i := i + 1;
      }
    }

    /** end_op: the last operation of the group commits everything the group has logged. */
    method EndOp() returns (ok: bool)
      requires Valid() && outstanding > 0 && !committing && (outstanding == 1 ==> Quiet())
      modifies this, bc
      ensures ok ==> Valid() && !committing && outstanding == old(outstanding) - 1 && (old(Quiet()) ==> Quiet())
      ensures HomeBlocks(L, bc.view) == old(HomeBlocks(L, bc.view)) || !ok
      ensures old(outstanding) > 1 ==> ok && bc.writes == old(bc.writes) && n == old(n) && block == old(block)
                                       && bc.buf == old(bc.buf)
      ensures old(outstanding) == 1 && ok ==> n == 0 && HomeBlocks(L, bc.disk) == old(HomeBlocks(L, bc.view))
      ensures old(outstanding) == 1 && ok ==>
                bc.writes == old(bc.writes) + Plan(old(bc.disk), old(List()), old(bc.view))
      ensures EveryDiskRecovers(L, bc.boot, bc.writes, |old(bc.writes)|,
                                {old(HomeBlocks(L, bc.disk)), old(HomeBlocks(L, bc.view))})
    {
      outstanding := outstanding - 1;
      if outstanding == 0 {
        committing := true;
        ok := Commit();
        committing := false;
      } else {
        ok := true;
        EmptyDurable(L, bc.disk);
        assert bc.writes[..|bc.writes|] == bc.writes;
      }
    }

    /** The four stages of a non-empty commit. */
    method CommitParts(ghost lh: seq<int>, ghost view: seq<Block>, ghost disk: seq<Block>, ghost writes: seq<Write>,
                       ghost others: set<nat>)
      returns (ok: bool)
      requires Valid() && n > 0 && Idle(bc.dev, bc.buf, bc.disk, Elems(lh), others) && ClearOf(L, lh, others)
      requires lh == List() && view == bc.view && disk == bc.disk && writes == bc.writes
      requires view[L.start] == disk[L.start]
      modifies this`n, bc
      ensures writes <= bc.writes <= writes + Plan(disk, lh, view)
      ensures ok ==> bc.writes == writes + Plan(disk, lh, view)
      ensures ok ==> bc.Valid() && Idle(bc.dev, bc.buf, bc.disk, {}, others) && n == 0
    {
      ghost var hd := disk[L.start];
      ok := LogAndMark(hd, others);
      ghost var marked, logged := bc.writes, bc.view;
      CommitStages(L, hd, lh, view);
      if !ok { return; }
      CommitInOrder(L, hd, lh, view, logged);
      ok := InstallAndClear(hd, others);
      InPlan(writes, SlotWrites(L, lh, view) + [Write(L.start, PutHead(hd, lh))],
             HomeWrites(L, lh, logged) + [Write(L.start, PutHead(PutHead(hd, lh), []))], bc.writes);
    }

    /** Stages one and two: the blocks into the log, then the header that commits them. */
    method LogAndMark(ghost hd: Block, ghost others: set<nat>) returns (ok: bool)
      requires Valid() && bc.view[L.start] == hd && Idle(bc.dev, bc.buf, bc.disk, Elems(List()), others)
               && ClearOf(L, List(), others)
      modifies bc
      ensures var part := SlotWrites(L, List(), old(bc.view)) + [Write(L.start, PutHead(hd, List()))];
              && old(bc.writes) <= bc.writes <= old(bc.writes) + part
              && (ok ==> bc.writes == old(bc.writes) + part)
      ensures ok ==> bc.Valid() && |bc.disk| == old(|bc.disk|) && Idle(bc.dev, bc.buf, bc.disk, Elems(List()), others)
      ensures ok ==> bc.view[L.start] == PutHead(hd, List())
      ensures ok ==> SlotsKept(L, List(), old(bc.view), bc.view)
    {
      ghost var lh, slots := List(), SlotWrites(L, List(), bc.view);
      ok := WriteLog(others);
      PartOfStage(old(bc.writes), slots, Write(L.start, PutHead(hd, lh)), bc.writes);
      if !ok { return; }
      ghost var mid := bc.view;
      SlotsAreKept(L, lh, old(bc.view), mid, PutHead(hd, lh));
      assert slots[..n] == slots;
      ListedAreHomes(L, lh, 0, |bc.disk|);
      ok := WriteHead(Elems(lh), others);
    }

    /** Stages three and four: the blocks home, then the empty header. */
    method InstallAndClear(ghost hd: Block, ghost others: set<nat>) returns (ok: bool)
      requires n <= |block| == LOGSIZE && L.Ok(|bc.disk|) && bc.Valid() && ClearOf(L, List(), others)
      requires ListOk(L, |bc.disk|, List()) && Idle(bc.dev, bc.buf, bc.disk, Elems(List()), others)
      requires bc.view[L.start] == PutHead(hd, List())
      modifies this`n, bc
      ensures var part := HomeWrites(L, old(List()), old(bc.view))
              + [Write(L.start, PutHead(PutHead(hd, old(List())), []))];
              && old(bc.writes) <= bc.writes <= old(bc.writes) + part
              && (ok ==> bc.writes == old(bc.writes) + part)
      ensures ok ==> bc.Valid() && Idle(bc.dev, bc.buf, bc.disk, {}, others) && n == 0
    {
      ghost var lh, homes := List(), HomeWrites(L, List(), bc.view);
      ok := InstallTrans(false, others);
      if !ok { return; }
      assert homes[..n] == homes;
      assert lh[n..] == [] && Elems(lh[n..]) == {};
      n := 0;
      assert block[..0] == [];
      ok := WriteHead({}, others);
    }
  }
}
