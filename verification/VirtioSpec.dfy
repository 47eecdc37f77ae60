/** Descriptor chains and rings of the virtio disk driver (kernel/virtio_disk.c): which descriptor belongs
to which request, and where each request is. */
module VirtioSpec {
  const NUM: nat := 8
  const WRAP: nat := 65536
  const F_NEXT: nat := 1
  const F_WRITE: nat := 2

  /** What a descriptor can point to. */
  datatype Addr = Null | OpAt(i: nat) | DataOf(b: nat) | StatusAt(i: nat)

  datatype Desc = Desc(addr: Addr, len: nat, flags: nat, next: nat)

  datatype Op = Op(write: bool, sector: nat)

  /** A request as virtio_disk_rw meant it: the three descriptors of head h are h, mid and last. */
  datatype Chain = Chain(mid: nat, last: nat, buf: nat, op: Op, id: nat)

  type Chains = map<nat, Chain>

  predicate HasNext(flags: nat) {
    flags % 2 == 1
  }

  /** The descriptors of head h describe request c. */
  ghost predicate Formatted(desc: seq<Desc>, ops: seq<Op>, h: nat, c: Chain)
    requires |desc| == |ops| == NUM
  {
    && h < NUM && c.mid < NUM && c.last < NUM && h != c.mid && h != c.last && c.mid != c.last
    && desc[h] == Desc(OpAt(h), 16, F_NEXT, c.mid)
    && desc[c.mid] == Desc(DataOf(c.buf), 1024, if c.op.write then F_NEXT else F_WRITE + F_NEXT, c.last)
    && desc[c.last] == Desc(StatusAt(h), 1, F_WRITE, 0)
    && ops[h] == c.op
  }

  /** The descriptors in use are divided among the chains: owner[d] is the head of d's chain. */
  ghost predicate Divided(free: seq<bool>, owner: seq<nat>, chains: Chains)
    requires |free| == |owner| == NUM
  {
    && (forall h {:trigger OwnsAll(free, owner, chains, h)} :: h in chains ==> OwnsAll(free, owner, chains, h))
    && (forall d {:trigger Belongs(free, owner, chains, d)} :: 0 <= d < NUM ==> Belongs(free, owner, chains, d))
  }

  ghost predicate OwnsAll(free: seq<bool>, owner: seq<nat>, chains: Chains, h: nat)
    requires |free| == |owner| == NUM && h in chains
  {
    Owns(free, owner, h, h) && Owns(free, owner, h, chains[h].mid) && Owns(free, owner, h, chains[h].last)
  }

  ghost predicate Belongs(free: seq<bool>, owner: seq<nat>, chains: Chains, d: nat)
    requires |free| == |owner| == NUM && d < NUM
  {
    !free[d] ==> owner[d] in chains && (d == owner[d] || d == chains[owner[d]].mid || d == chains[owner[d]].last)
  }

  ghost predicate Chained(desc: seq<Desc>, ops: seq<Op>, free: seq<bool>, owner: seq<nat>, chains: Chains) {
    && |desc| == |ops| == |free| == |owner| == NUM && Divided(free, owner, chains)
    && forall h {:trigger Formatted(desc, ops, h, chains[h])} :: h in chains ==> Formatted(desc, ops, h, chains[h])
  }

  ghost predicate Owns(free: seq<bool>, owner: seq<nat>, h: nat, d: nat)
    requires |free| == |owner| == NUM
  {
    d < NUM && !free[d] && owner[d] == h
  }

  ghost function Members(h: nat, c: Chain): set<nat> {
    {h, c.mid, c.last}
  }

  /** Three descriptors each, out of eight. */
  lemma AtMostTwo(desc: seq<Desc>, ops: seq<Op>, free: seq<bool>, owner: seq<nat>, chains: Chains)
    requires Chained(desc, ops, free, owner, chains)
    ensures |chains| <= 2
  {
    if |chains.Keys| > 2 {
      var a, b, c := PickThree(chains.Keys);
      Disjoint(free, owner, chains, a, b);
      Disjoint(free, owner, chains, a, c);
      Disjoint(free, owner, chains, b, c);
      assert Formatted(desc, ops, a, chains[a]) && Formatted(desc, ops, b, chains[b])
             && Formatted(desc, ops, c, chains[c]);
      Triple(desc, ops, a, chains[a]);
      Triple(desc, ops, b, chains[b]);
      Triple(desc, ops, c, chains[c]);
      Pigeonhole(Members(a, chains[a]), Members(b, chains[b]), Members(c, chains[c]));
    }
  }

  lemma PickThree(s: set<nat>) returns (a: nat, b: nat, c: nat)
    requires |s| > 2
    ensures a in s && b in s && c in s && a != b && a != c && b != c
  {
    a :| a in s;
    var t := s - {a};
    assert |t| == |s| - 1;
    b :| b in t;
    var u := t - {b};
    assert |u| == |t| - 1;
    c :| c in u;
  }

  lemma Triple(desc: seq<Desc>, ops: seq<Op>, h: nat, c: Chain)
    requires |desc| == |ops| == NUM && Formatted(desc, ops, h, c)
    ensures |Members(h, c)| == 3 && forall d :: d in Members(h, c) ==> d < NUM
  {
  }

  lemma Pigeonhole(x: set<nat>, y: set<nat>, z: set<nat>)
    requires x !! y && x !! z && y !! z
    requires forall d :: d in x + y + z ==> d < NUM
    ensures |x| + |y| + |z| <= NUM
  {
    var eight := {0, 1, 2, 3, 4, 5, 6, 7};
    assert |x + y + z| == |x| + |y| + |z|;
    Smaller(x + y + z, eight);
  }

  lemma Disjoint(free: seq<bool>, owner: seq<nat>, chains: Chains, a: nat, b: nat)
    requires |free| == |owner| == NUM && Divided(free, owner, chains) && a in chains && b in chains && a != b
    ensures Members(a, chains[a]) !! Members(b, chains[b])
  {
    assert OwnsAll(free, owner, chains, a) && OwnsAll(free, owner, chains, b);
  }

  lemma Smaller(a: set<nat>, b: set<nat>)
    requires a <= b
    ensures |a| <= |b|
  {
    assert b == a + (b - a);
  }

  ghost predicate Distinct(s: seq<nat>) {
    forall i, j :: 0 <= i < j < |s| ==> s[i] != s[j]
  }

  /** The j-th entry after the reader's position. */
  function RingAt(ring: seq<nat>, from: nat, j: nat): nat
    requires |ring| == NUM
  {
    ring[(from + j) % NUM]
  }

  /** A ring whose reader is at `from` and whose writer is at `to` holds the elements of q, in order,
      modulo 2^16 and NUM; `all` is the set of them. */
  ghost predicate RingHolds(ring: seq<nat>, from: nat, to: nat, q: seq<nat>, all: set<nat>) {
    && |ring| == NUM && from < WRAP && to == (from + |q|) % WRAP && |q| <= NUM && Distinct(q)
    && (forall j {:trigger RingAt(ring, from, j)} :: 0 <= j < |q| ==> RingAt(ring, from, j) == q[j])
    && (forall x :: x in all <==> x in q)
  }

  lemma RingPut(ring: seq<nat>, from: nat, to: nat, q: seq<nat>, all: set<nat>, x: nat)
    requires RingHolds(ring, from, to, q, all) && |q| < NUM && x !in all
    ensures RingHolds(ring[to % NUM := x], from, (to + 1) % WRAP, q + [x], all + {x})
  {
    assert to % NUM == (from + |q|) % NUM;
    var ring', q' := ring[to % NUM := x], q + [x];
    forall j | 0 <= j < |q'| ensures RingAt(ring', from, j) == q'[j] {
      if j < |q| {
        assert (from + j) % NUM != (from + |q|) % NUM;
        assert RingAt(ring, from, j) == q[j];
      }
    }
  }

  lemma RingGet(ring: seq<nat>, from: nat, to: nat, q: seq<nat>, all: set<nat>)
    requires RingHolds(ring, from, to, q, all)
    ensures q == [] <==> from == to
    ensures q != [] ==> ring[from % NUM] == q[0] && q[0] in all
                        && RingHolds(ring, (from + 1) % WRAP, to, q[1..], all - {q[0]})
  {
    if q != [] {
      assert RingAt(ring, from, 0) == q[0];
      var from', q' := (from + 1) % WRAP, q[1..];
      forall j | 0 <= j < |q'| ensures RingAt(ring, from', j) == q'[j] {
        assert RingAt(ring, from, j + 1) == q[j + 1];
        assert (from' + j) % NUM == (from + (j + 1)) % NUM;
      }
    }
  }

  // ---- Where requests are -------------------------------------------------------------------------

  /** Between submission and the interrupt that reports its completion a request is in exactly one of
      three places: the avail ring, the device, the used ring. */
  ghost predicate Placed(chains: Chains, avail: set<nat>, held: set<nat>, used: set<nat>) {
    avail !! held && avail !! used && held !! used && avail <= chains.Keys && held <= chains.Keys && used <= chains.Keys
  }

  ghost predicate InFlight(avail: set<nat>, held: set<nat>, used: set<nat>, h: nat) {
    h in avail || h in held || h in used
  }

  /** What the driver remembers of the request with head h. */
  ghost predicate Tracked(chains: Chains, infoBuf: seq<nat>, busy: set<nat>, completed: set<nat>, issued: nat, h: nat,
                          flying: bool)
    requires |infoBuf| == NUM && h in chains && h < NUM
  {
    && chains[h].id < issued && chains[h].buf != 0
    && (flying ==> infoBuf[h] == chains[h].buf && chains[h].buf in busy && chains[h].id !in completed)
    && (!flying ==> chains[h].buf !in busy && chains[h].id in completed)
  }

  /** A buffer belongs to one request at a time, and requests have different numbers. */
  ghost predicate Matched(chains: Chains, at: map<nat, nat>, busy: set<nat>) {
    && (forall h {:trigger BufAt(chains, at, h)} :: h in chains ==> BufAt(chains, at, h))
    && (forall b {:trigger HeadOf(chains, at, b)} :: b in at ==> HeadOf(chains, at, b))
    && busy <= at.Keys
    && (forall g, h {:trigger Differ(chains, g, h)} :: g in chains && h in chains && g != h ==> Differ(chains, g, h))
  }

  ghost predicate BufAt(chains: Chains, at: map<nat, nat>, h: nat)
    requires h in chains
  {
    chains[h].buf in at && at[chains[h].buf] == h
  }

  ghost predicate HeadOf(chains: Chains, at: map<nat, nat>, b: nat)
    requires b in at
  {
    at[b] in chains && chains[at[b]].buf == b
  }

  ghost predicate Differ(chains: Chains, g: nat, h: nat)
    requires g in chains && h in chains
  {
    chains[g].id != chains[h].id
  }

  /** The driver's bookkeeping agrees with where the requests are. */
  ghost predicate Follows(chains: Chains, avail: set<nat>, held: set<nat>, used: set<nat>, at: map<nat, nat>,
                          busy: set<nat>, infoBuf: seq<nat>, status: seq<nat>, completed: set<nat>, issued: nat)
  {
    && |infoBuf| == |status| == NUM && (forall h :: h in chains ==> h < NUM)
    && Placed(chains, avail, held, used) && Matched(chains, at, busy)
    && (forall h {:trigger Tracked(chains, infoBuf, busy, completed, issued, h, InFlight(avail, held, used, h))} ::
          h in chains ==> Tracked(chains, infoBuf, busy, completed, issued, h, InFlight(avail, held, used, h)))
    && (forall h :: h in used ==> status[h] == 0)
    && (forall x :: x in completed ==> x < issued)
  }

  lemma MatchPost(chains: Chains, at: map<nat, nat>, busy: set<nat>, infoBuf: seq<nat>, completed: set<nat>,
                  issued: nat, avail: set<nat>, held: set<nat>, used: set<nat>, h: nat, c: Chain)
    requires Matched(chains, at, busy) && h !in chains && c.buf !in at && c.id == issued
    requires |infoBuf| == NUM && forall g :: g in chains ==> g < NUM
    requires forall g {:trigger Tracked(chains, infoBuf, busy, completed, issued, g, InFlight(avail, held, used, g))} ::
               g in chains ==> Tracked(chains, infoBuf, busy, completed, issued, g, InFlight(avail, held, used, g))
    ensures Matched(chains[h := c], at[c.buf := h], busy + {c.buf})
  {
    var chains', at' := chains[h := c], at[c.buf := h];
    forall g | g in chains' ensures BufAt(chains', at', g) {
      assert g != h ==> BufAt(chains, at, g);
    }
    forall b | b in at' ensures HeadOf(chains', at', b) {
      assert b != c.buf ==> HeadOf(chains, at, b);
    }
    forall f, g | f in chains' && g in chains' && f != g ensures Differ(chains', f, g) {
      if f != h && g != h {
        assert Differ(chains, f, g);
      } else {
        var x := if f == h then g else f;
        assert Tracked(chains, infoBuf, busy, completed, issued, x, InFlight(avail, held, used, x));
      }
    }
  }

  /** A new request. */
  lemma FollowPost(chains: Chains, avail: set<nat>, held: set<nat>, used: set<nat>, at: map<nat, nat>, busy: set<nat>,
                   infoBuf: seq<nat>, status: seq<nat>, completed: set<nat>, issued: nat, h: nat, c: Chain)
    requires Follows(chains, avail, held, used, at, busy, infoBuf, status, completed, issued)
    requires h < NUM && h !in chains && c.buf != 0 && c.buf !in at && c.id == issued
    ensures Follows(chains[h := c], avail + {h}, held, used, at[c.buf := h], busy + {c.buf},
                    infoBuf[h := c.buf], status[h := 255], completed, issued + 1)
  {
    var chains', avail', busy', infoBuf' := chains[h := c], avail + {h}, busy + {c.buf}, infoBuf[h := c.buf];
    forall g | g in chains' ensures Tracked(chains', infoBuf', busy', completed, issued + 1, g,
                                             InFlight(avail', held, used, g)) {
      if g != h {
        assert Tracked(chains, infoBuf, busy, completed, issued, g, InFlight(avail, held, used, g));
        assert InFlight(avail', held, used, g) == InFlight(avail, held, used, g);
        assert BufAt(chains, at, g);
      }
    }
    MatchPost(chains, at, busy, infoBuf, completed, issued, avail, held, used, h, c);
  }

  /** The descriptors in idx, and no others, have been taken from the free ones. */
  ghost predicate Claimed(free0: seq<bool>, free: seq<bool>, idx: seq<nat>) {
    && |free0| == |free| == NUM && (forall j :: 0 <= j < |idx| ==> idx[j] < NUM && free0[idx[j]])
    && forall d :: 0 <= d < NUM ==> (free[d] <==> free0[d] && d !in idx)
  }

  ghost function Filled(desc: seq<Desc>, idx: seq<nat>, b: nat, op: Op): seq<Desc>
    requires |desc| == NUM && |idx| == 3 && idx[0] < NUM && idx[1] < NUM && idx[2] < NUM
  {
    desc[idx[0] := Desc(OpAt(idx[0]), 16, F_NEXT, idx[1])]
        [idx[1] := Desc(DataOf(b), 1024, if op.write then F_NEXT else F_WRITE + F_NEXT, idx[2])]
        [idx[2] := Desc(StatusAt(idx[0]), 1, F_WRITE, 0)]
  }

  /** What free descriptors hold does not matter. */
  lemma FreeDontCare(desc0: seq<Desc>, desc: seq<Desc>, ops: seq<Op>, free: seq<bool>, owner: seq<nat>, chains: Chains)
    requires Chained(desc0, ops, free, owner, chains) && |desc| == NUM
    requires forall d :: 0 <= d < NUM && !free[d] ==> desc[d] == desc0[d]
    ensures Chained(desc, ops, free, owner, chains)
  {
    forall h | h in chains ensures Formatted(desc, ops, h, chains[h]) {
      assert Formatted(desc0, ops, h, chains[h]) && OwnsAll(free, owner, chains, h);
    }
  }

  /** The rings never fill up: there are at most two requests. */
  lemma RoomLeft(desc: seq<Desc>, ops: seq<Op>, free: seq<bool>, owner: seq<nat>, chains: Chains, q: seq<nat>,
                 all: set<nat>)
    requires Chained(desc, ops, free, owner, chains) && Distinct(q) && (forall x :: x in q ==> x in all)
             && all <= chains.Keys
    ensures |chains| <= 2 && |q| <= 2
  {
    AtMostTwo(desc, ops, free, owner, chains);
    SeqSize(q, chains.Keys);
  }

  lemma {:induction false} SeqSize(q: seq<nat>, s: set<nat>)
    requires Distinct(q) && forall x :: x in q ==> x in s
    ensures |q| <= |s|
  {
    if q != [] {
      var n := |q| - 1;
      assert q[n] in s && forall x :: x in q[..n] ==> x != q[n];
      SeqSize(q[..n], s - {q[n]});
    }
  }

  /** Three fresh descriptors make one more chain, disjoint from the others. */
  lemma FormatFresh(desc0: seq<Desc>, desc: seq<Desc>, ops: seq<Op>, free0: seq<bool>, free: seq<bool>, owner: seq<nat>,
                    chains: Chains, idx: seq<nat>, c: Chain)
    requires Chained(desc0, ops, free0, owner, chains) && |desc| == |free| == NUM
    requires forall d :: 0 <= d < NUM && !free0[d] ==> desc[d] == desc0[d]
    requires |idx| == 3 && Distinct(idx) && Claimed(free0, free, idx) && c.mid == idx[1] && c.last == idx[2]
    ensures idx[0] < NUM && idx[1] < NUM && idx[2] < NUM && idx[0] !in chains
    ensures var h := idx[0];
            Chained(Filled(desc, idx, c.buf, c.op), ops[h := c.op], free, owner[h := h][c.mid := h][c.last := h],
                    chains[h := c])
  {
    var h := idx[0];
    assert free0[idx[0]] && free0[idx[1]] && free0[idx[2]];
    assert idx[0] != idx[1] && idx[0] != idx[2] && idx[1] != idx[2];
    assert forall d :: d in idx <==> d == idx[0] || d == idx[1] || d == idx[2];
    assert h !in chains by {
      assert h in chains ==> OwnsAll(free0, owner, chains, h);
    }
    var desc', ops', chains' := Filled(desc, idx, c.buf, c.op), ops[h := c.op], chains[h := c];
    forall g | g in chains' ensures Formatted(desc', ops', g, chains'[g]) {
      if g != h {
        assert Formatted(desc0, ops, g, chains[g]) && OwnsAll(free0, owner, chains, g);
      }
    }
    FreshDivided(free0, free, owner, chains, idx, c);
  }

  lemma FreshDivided(free0: seq<bool>, free: seq<bool>, owner: seq<nat>, chains: Chains, idx: seq<nat>, c: Chain)
    requires |free0| == |free| == |owner| == NUM && Divided(free0, owner, chains) && |idx| == 3 && Distinct(idx)
             && Claimed(free0, free, idx)
    requires c.mid == idx[1] && c.last == idx[2] && idx[0] !in chains && idx[0] < NUM && idx[1] < NUM && idx[2] < NUM
    requires forall d :: d in idx <==> d == idx[0] || d == idx[1] || d == idx[2]
    requires free0[idx[0]] && free0[idx[1]] && free0[idx[2]]
    ensures Divided(free, owner[idx[0] := idx[0]][c.mid := idx[0]][c.last := idx[0]], chains[idx[0] := c])
  {
    var h := idx[0];
    var owner', chains' := owner[h := h][c.mid := h][c.last := h], chains[h := c];
    forall g | g in chains' ensures OwnsAll(free, owner', chains', g) {
      assert g != h ==> OwnsAll(free0, owner, chains, g);
    }
    forall d | 0 <= d < NUM ensures Belongs(free, owner', chains', d) {
      assert Belongs(free0, owner, chains, d);
    }
  }

  // ---- The whole state --------------------------------------------------------------------------------

  /** The queue as driver and device share it, and what the driver knows. */
  datatype Queue = Queue(desc: seq<Desc>, ops: seq<Op>, free: seq<bool>, availRing: seq<nat>, availIdx: nat,
                         devIdx: nat, usedRing: seq<nat>, usedIdx: nat, seen: nat, status: seq<nat>, infoBuf: seq<nat>,
                         busy: set<nat>)

  /** Its history: the requests, and where they are. */
  datatype History = History(chains: Chains, owner: seq<nat>, at: map<nat, nat>, queue: seq<nat>, avail: set<nat>,
                             held: set<nat>, comps: seq<nat>, used: set<nat>, issued: nat, completed: set<nat>)

  ghost predicate Ok(q: Queue, g: History) {
    && Chained(q.desc, q.ops, q.free, g.owner, g.chains)
    && RingHolds(q.availRing, q.devIdx, q.availIdx, g.queue, g.avail)
    && RingHolds(q.usedRing, q.seen, q.usedIdx, g.comps, g.used)
    && Follows(g.chains, g.avail, g.held, g.used, g.at, q.busy, q.infoBuf, q.status, g.completed, g.issued)
  }

  /** Request c, whose three descriptors have just been filled in, enters the avail ring. */
  ghost function Posted(g: History, h: nat, c: Chain): History
    requires h < |g.owner| && c.mid < |g.owner| && c.last < |g.owner|
  {
    g.(chains := g.chains[h := c], owner := g.owner[h := h][c.mid := h][c.last := h], at := g.at[c.buf := h],
       queue := g.queue + [h], avail := g.avail + {h}, issued := g.issued + 1)
  }

  lemma PostOk(q: Queue, g: History, desc: seq<Desc>, ops: seq<Op>, free: seq<bool>, h: nat, c: Chain)
    requires Ok(q, g) && h < NUM && h !in g.chains && c.buf != 0 && c.buf !in g.at && c.id == g.issued && c.mid < NUM
             && c.last < NUM
    requires Chained(desc, ops, free, g.owner[h := h][c.mid := h][c.last := h], g.chains[h := c])
    ensures Ok(q.(desc := desc, ops := ops, free := free, status := q.status[h := 255],
                  infoBuf := q.infoBuf[h := c.buf], busy := q.busy + {c.buf},
                  availRing := q.availRing[q.availIdx % NUM := h], availIdx := (q.availIdx + 1) % WRAP),
                    Posted(g, h, c))
  {
    FollowPost(g.chains, g.avail, g.held, g.used, g.at, q.busy, q.infoBuf, q.status, g.completed, g.issued, h, c);
    RoomLeft(q.desc, q.ops, q.free, g.owner, g.chains, g.queue, g.avail);
    RingPut(q.availRing, q.devIdx, q.availIdx, g.queue, g.avail, h);
  }

  /** The device takes a request. */
  lemma TakeOk(q: Queue, g: History)
    requires Ok(q, g) && q.devIdx != q.availIdx
    ensures g.queue != [] && q.availRing[q.devIdx % NUM] == g.queue[0]
    ensures var h := g.queue[0];
            && h in g.chains && h in g.avail
            && Ok(q.(devIdx := (q.devIdx + 1) % WRAP),
                  g.(queue := g.queue[1..], avail := g.avail - {h}, held := g.held + {h}))
  {
    RingGet(q.availRing, q.devIdx, q.availIdx, g.queue, g.avail);
    MoveOk(g.chains, g.avail, g.held, g.used, g.at, q.busy, q.infoBuf, q.status, g.completed, g.issued,
           g.avail - {g.queue[0]}, g.held + {g.queue[0]}, g.used, q.status);
  }

  /** Request h goes from the device to the end of the used ring. */
  ghost function Reported(g: History, h: nat): History {
    g.(held := g.held - {h}, comps := g.comps + [h], used := g.used + {h})
  }

  /** The device completes a request. */
  lemma CompleteOk(q: Queue, g: History, h: nat)
    requires Ok(q, g) && h in g.held
    ensures h < NUM && |q.status| == |q.usedRing| == NUM
    ensures Ok(q.(status := q.status[h := 0], usedRing := q.usedRing[q.usedIdx % NUM := h],
                  usedIdx := (q.usedIdx + 1) % WRAP),
               Reported(g, h))
  {
    RoomLeft(q.desc, q.ops, q.free, g.owner, g.chains, g.comps, g.used);
    RingPut(q.usedRing, q.seen, q.usedIdx, g.comps, g.used, h);
    MoveOk(g.chains, g.avail, g.held, g.used, g.at, q.busy, q.infoBuf, q.status, g.completed, g.issued,
           g.avail, g.held - {h}, g.used + {h}, q.status[h := 0]);
  }

  /** Requests may move between the three places. */
  lemma MoveOk(chains: Chains, avail: set<nat>, held: set<nat>, used: set<nat>, at: map<nat, nat>, busy: set<nat>,
               infoBuf: seq<nat>, status: seq<nat>, completed: set<nat>, issued: nat, avail': set<nat>, held': set<nat>,
               used': set<nat>, status': seq<nat>)
    requires Follows(chains, avail, held, used, at, busy, infoBuf, status, completed, issued)
    requires Placed(chains, avail', held', used') && avail' + held' + used' == avail + held + used
    requires |status'| == NUM && forall h :: h in used' ==> h < NUM && status'[h] == 0
    ensures Follows(chains, avail', held', used', at, busy, infoBuf, status', completed, issued)
  {
    forall h | h in chains ensures Tracked(chains, infoBuf, busy, completed, issued, h,
                                           InFlight(avail', held', used', h)) {
      assert Tracked(chains, infoBuf, busy, completed, issued, h, InFlight(avail, held, used, h));
      assert InFlight(avail', held', used', h) == (h in avail + held + used);
    }
  }

  /** The driver has seen the first completion. */
  ghost function Seen(g: History): History
    requires g.comps != [] && g.comps[0] in g.chains
  {
    g.(comps := g.comps[1..], used := g.used - {g.comps[0]}, completed := g.completed + {g.chains[g.comps[0]].id})
  }

  lemma SeenOk(q: Queue, g: History)
    requires Ok(q, g) && g.comps != []
    ensures |q.usedRing| == |q.infoBuf| == |q.status| == NUM && q.usedRing[q.seen % NUM] == g.comps[0]
    ensures var h := g.comps[0];
            && h in g.chains && h in g.used && h < NUM && q.status[h] == 0 && q.infoBuf[h] == g.chains[h].buf
            && g.chains[h].id !in g.completed && g.chains[h].buf in q.busy
            && Ok(q.(busy := q.busy - {g.chains[h].buf}, seen := (q.seen + 1) % WRAP), Seen(g))
  {
    RingGet(q.usedRing, q.seen, q.usedIdx, g.comps, g.used);
    var h := g.comps[0];
    assert Tracked(g.chains, q.infoBuf, q.busy, g.completed, g.issued, h, InFlight(g.avail, g.held, g.used, h));
    SeenFollows(g.chains, g.avail, g.held, g.used, g.at, q.busy, q.infoBuf, q.status, g.completed, g.issued, h);
  }

  lemma SeenFollows(chains: Chains, avail: set<nat>, held: set<nat>, used: set<nat>, at: map<nat, nat>, busy: set<nat>,
                    infoBuf: seq<nat>, status: seq<nat>, completed: set<nat>, issued: nat, h: nat)
    requires Follows(chains, avail, held, used, at, busy, infoBuf, status, completed, issued) && h in used
    ensures h in chains
    ensures Follows(chains, avail, held, used - {h}, at, busy - {chains[h].buf}, infoBuf, status,
                    completed + {chains[h].id}, issued)
  {
    var used', busy', completed' := used - {h}, busy - {chains[h].buf}, completed + {chains[h].id};
    assert Tracked(chains, infoBuf, busy, completed, issued, h, InFlight(avail, held, used, h)) && BufAt(chains, at, h);
    forall x | x in chains ensures Tracked(chains, infoBuf, busy', completed', issued, x,
                                           InFlight(avail, held, used', x)) {
      assert Tracked(chains, infoBuf, busy, completed, issued, x, InFlight(avail, held, used, x))
             && BufAt(chains, at, x);
      assert x != h ==> Differ(chains, x, h) && InFlight(avail, held, used', x) == InFlight(avail, held, used, x);
    }
  }

  /** What the device does by itself: requests move from the avail ring to the device and on to the end of the
      used ring. */
  ghost predicate DeviceOnly(g0: History, g: History) {
    && g == g0.(queue := g.queue, avail := g.avail, held := g.held, comps := g.comps, used := g.used)
    && g.avail + g.held + g.used == g0.avail + g0.held + g0.used && g0.used <= g.used && g0.comps <= g.comps
  }

  /** What the interrupt handler and the device do together: some of the requests on their way are reported. */
  ghost predicate Reporting(q: Queue, g0: History, g: History) {
    && Ok(q, g) && g.chains == g0.chains && g.at == g0.at && g.issued == g0.issued && g0.completed <= g.completed
    && g.avail + g.held + g.used <= g0.avail + g0.held + g0.used
    && (forall h :: h in g0.used ==> h in g.used || !InFlight(g.avail, g.held, g.used, h))
  }

  lemma ReportingActs(q: Queue, g0: History, g: History, q': Queue, g': History)
    requires Reporting(q, g0, g) && Ok(q', g') && DeviceOnly(g, g')
    ensures Reporting(q', g0, g')
  {
    forall h | h in g0.used ensures h in g'.used || !InFlight(g'.avail, g'.held, g'.used, h) {
      assert h in g'.avail + g'.held + g'.used <==> h in g.avail + g.held + g.used;
    }
  }

  lemma ReportingSeen(q: Queue, g0: History, g: History, q': Queue, g': History)
    requires Reporting(q, g0, g) && g.comps != [] && g.comps[0] in g.chains && g' == Seen(g) && Ok(q', g')
    ensures Reporting(q', g0, g') && g'.avail + g'.held + g'.used < g.avail + g.held + g.used
  {
    RingGet(q.usedRing, q.seen, q.usedIdx, g.comps, g.used);
    assert g.comps[0] in g.used && g.comps[0] !in g'.avail + g'.held + g'.used;
  }

  /** When the handler's loop ends, all that was in the used ring at its beginning has been reported. */
  lemma AllSeen(q: Queue, g: History, g0: History)
    requires Reporting(q, g0, g) && q.seen == q.usedIdx && g0.used <= g0.chains.Keys
    ensures g.comps == [] && g.used == {}
    ensures forall h :: h in g0.used ==> h in g.chains && g.chains[h].id in g.completed && g.chains[h].buf !in q.busy
  {
    RingGet(q.usedRing, q.seen, q.usedIdx, g.comps, g.used);
    assert g.used == {};
    forall h | h in g0.used ensures h in g.chains && g.chains[h].id in g.completed && g.chains[h].buf !in q.busy {
      assert Tracked(g.chains, q.infoBuf, q.busy, g.completed, g.issued, h, InFlight(g.avail, g.held, g.used, h));
    }
  }

  /** The request that was waited for is over, and its descriptors are free again. */
  lemma FinishOk(q: Queue, g: History, desc: seq<Desc>, free: seq<bool>, h: nat)
    requires Ok(q, g) && h in g.chains && g.chains[h].buf !in q.busy && |desc| == |free| == NUM
    requires forall d :: 0 <= d < NUM ==> (free[d] <==> q.free[d] || d in Members(h, g.chains[h]))
    requires forall d :: 0 <= d < NUM && d !in Members(h, g.chains[h]) ==> desc[d] == q.desc[d]
    ensures h < NUM && g.chains[h].id in g.completed
    ensures Ok(q.(desc := desc, free := free, infoBuf := q.infoBuf[h := 0]),
               g.(chains := g.chains - {h}, at := g.at - {g.chains[h].buf}))
  {
    FinishChained(q.desc, q.ops, q.free, g.owner, g.chains, desc, free, h);
    FinishFollows(g.chains, g.avail, g.held, g.used, g.at, q.busy, q.infoBuf, q.status, g.completed, g.issued, h);
  }

  lemma FinishChained(desc0: seq<Desc>, ops: seq<Op>, free0: seq<bool>, owner: seq<nat>, chains: Chains,
                      desc: seq<Desc>, free: seq<bool>, h: nat)
    requires Chained(desc0, ops, free0, owner, chains) && h in chains && |desc| == |free| == NUM
    requires forall d :: 0 <= d < NUM ==> (free[d] <==> free0[d] || d in Members(h, chains[h]))
    requires forall d :: 0 <= d < NUM && d !in Members(h, chains[h]) ==> desc[d] == desc0[d]
    ensures Chained(desc, ops, free, owner, chains - {h})
  {
    var chains' := chains - {h};
    assert OwnsAll(free0, owner, chains, h);
    forall x | x in chains' ensures OwnsAll(free, owner, chains', x) && Formatted(desc, ops, x, chains'[x]) {
      assert OwnsAll(free0, owner, chains, x) && Formatted(desc0, ops, x, chains[x]);
      Disjoint(free0, owner, chains, h, x);
      assert x in Members(x, chains[x]) && chains[x].mid in Members(x, chains[x])
             && chains[x].last in Members(x, chains[x]);
    }
    forall d | 0 <= d < NUM ensures Belongs(free, owner, chains', d) {
      assert Belongs(free0, owner, chains, d);
    }
  }

  lemma FinishFollows(chains: Chains, avail: set<nat>, held: set<nat>, used: set<nat>, at: map<nat, nat>,
                      busy: set<nat>, infoBuf: seq<nat>, status: seq<nat>, completed: set<nat>, issued: nat, h: nat)
    requires Follows(chains, avail, held, used, at, busy, infoBuf, status, completed, issued) && h in chains
             && chains[h].buf !in busy
    ensures chains[h].id in completed
    ensures Follows(chains - {h}, avail, held, used, at - {chains[h].buf}, busy, infoBuf[h := 0], status,
                    completed, issued)
  {
    var chains', at', infoBuf' := chains - {h}, at - {chains[h].buf}, infoBuf[h := 0];
    assert Tracked(chains, infoBuf, busy, completed, issued, h, InFlight(avail, held, used, h)) && BufAt(chains, at, h);
    forall x | x in chains'
      ensures Tracked(chains', infoBuf', busy, completed, issued, x, InFlight(avail, held, used, x))
              && BufAt(chains', at', x)
    {
      assert Tracked(chains, infoBuf, busy, completed, issued, x, InFlight(avail, held, used, x))
             && BufAt(chains, at, x);
    }
    forall b | b in at' ensures HeadOf(chains', at', b) {
      assert HeadOf(chains, at, b);
    }
    forall x, y | x in chains' && y in chains' && x != y ensures Differ(chains', x, y) {
      assert Differ(chains, x, y);
    }
  }

  // ---- What has become of all requests so far ---------------------------------------------------------

  /** The requests that the device has completed, those that the handler has reported, and those that
      virtio_disk_rw has returned from, in order. */
  datatype Trace = Trace(done: seq<nat>, seen: seq<nat>, returned: seq<nat>)

  /** No request is completed or returned twice; the handler reports in the order of completion, and what it has
      not yet reported is in the used ring; a request is returned from only after its report, and is then gone;
      and none is lost. */
  ghost predicate Traced(g: History, t: Trace) {
    && Distinct(t.done) && Distinct(t.returned)
    && |t.done| == |t.seen| + |g.comps| && t.seen == t.done[..|t.seen|]
    && (forall j {:trigger Unseen(g, t, j)} :: 0 <= j < |g.comps| ==> Unseen(g, t, j))
    && (forall x :: x in g.completed <==> x in t.seen)
    && (forall x :: x in t.returned ==> x in t.seen)
    && (forall h {:trigger g.chains[h]} :: h in g.chains ==> g.chains[h].id !in t.returned)
    && (forall x {:trigger NotLost(g, t, x)} :: 0 <= x < g.issued ==> NotLost(g, t, x))
  }

  ghost predicate Unseen(g: History, t: Trace, j: nat)
    requires j < |g.comps| && |t.done| == |t.seen| + |g.comps|
  {
    g.comps[j] in g.chains && t.done[|t.seen| + j] == g.chains[g.comps[j]].id
  }

  /** Request x has been returned from, or is under way. */
  ghost predicate NotLost(g: History, t: Trace, x: nat) {
    x in t.returned || exists h :: h in g.chains && g.chains[h].id == x
  }

  lemma TracedPost(q: Queue, g: History, t: Trace, h: nat, c: Chain)
    requires Ok(q, g) && Traced(g, t) && h !in g.chains && c.id == g.issued && h < NUM && c.mid < NUM && c.last < NUM
    ensures Traced(Posted(g, h, c), t)
  {
    var g' := Posted(g, h, c);
    forall j | 0 <= j < |g'.comps| ensures Unseen(g', t, j) {
      assert Unseen(g, t, j);
    }
    forall x | 0 <= x < g'.issued ensures NotLost(g', t, x) {
      if x < g.issued {
        StillUnderWay(g, g', t, x);
      } else {
        assert g'.chains[h].id == x;
      }
    }
  }

  lemma StillUnderWay(g: History, g': History, t: Trace, x: nat)
    requires NotLost(g, t, x) && forall h :: h in g.chains ==> h in g'.chains && g'.chains[h] == g.chains[h]
    ensures NotLost(g', t, x)
  {
    if x !in t.returned {
      var h :| h in g.chains && g.chains[h].id == x;
      assert g'.chains[h].id == x;
    }
  }

  lemma TracedTake(g: History, g': History, t: Trace)
    requires Traced(g, t) && g' == g.(queue := g'.queue, avail := g'.avail, held := g'.held)
    ensures Traced(g', t)
  {
    forall j | 0 <= j < |g'.comps| ensures Unseen(g', t, j) {
      assert Unseen(g, t, j);
    }
    forall x | 0 <= x < g'.issued ensures NotLost(g', t, x) {
      StillUnderWay(g, g', t, x);
    }
  }

  lemma TrackedAt(q: Queue, g: History, h: nat)
    requires Ok(q, g) && h in g.chains
    ensures Tracked(g.chains, q.infoBuf, q.busy, g.completed, g.issued, h, InFlight(g.avail, g.held, g.used, h))
  {
  }

  /** The device cannot complete a request that it has completed before. */
  lemma NotYetDone(q: Queue, g: History, t: Trace, h: nat)
    requires Ok(q, g) && Traced(g, t) && h in g.held
    ensures h in g.chains && g.chains[h].id !in t.done
  {
    TrackedAt(q, g, h);
    var id := g.chains[h].id;
    forall k | 0 <= k < |t.done| ensures t.done[k] != id {
      if k < |t.seen| {
        assert t.seen[k] == t.done[k];
      } else {
        var j := k - |t.seen|;
        assert Unseen(g, t, j) && g.comps[j] in g.used;
        assert Differ(g.chains, g.comps[j], h);
      }
    }
  }

  lemma TracedComplete(q: Queue, g: History, t: Trace, h: nat, g': History)
    requires Ok(q, g) && Traced(g, t) && h in g.held && h in g.chains
    requires g' == Reported(g, h)
    ensures Traced(g', t.(done := t.done + [g.chains[h].id]))
  {
    var t' := t.(done := t.done + [g.chains[h].id]);
    NotYetDone(q, g, t, h);
    forall j | 0 <= j < |g'.comps| ensures Unseen(g', t', j) {
      assert j < |g.comps| ==> Unseen(g, t, j);
    }
    forall x | 0 <= x < g'.issued ensures NotLost(g', t', x) {
      StillUnderWay(g, g', t, x);
    }
  }

  lemma TracedSeen(q: Queue, g: History, t: Trace)
    requires Ok(q, g) && Traced(g, t) && g.comps != [] && g.comps[0] in g.chains
    ensures Traced(Seen(g), t.(seen := t.seen + [g.chains[g.comps[0]].id]))
  {
    var g', t' := Seen(g), t.(seen := t.seen + [g.chains[g.comps[0]].id]);
    assert Unseen(g, t, 0);
    forall j | 0 <= j < |g'.comps| ensures Unseen(g', t', j) {
      assert Unseen(g, t, j + 1);
    }
    forall x | 0 <= x < g'.issued ensures NotLost(g', t', x) {
      StillUnderWay(g, g', t, x);
    }
  }

  lemma TracedFinish(q: Queue, g: History, t: Trace, h: nat, g': History)
    requires Ok(q, g) && Traced(g, t) && h in g.chains && g.chains[h].buf !in q.busy
    requires g' == g.(chains := g.chains - {h}, at := g.at - {g.chains[h].buf})
    ensures Traced(g', t.(returned := t.returned + [g.chains[h].id]))
  {
    var t' := t.(returned := t.returned + [g.chains[h].id]);
    assert Tracked(g.chains, q.infoBuf, q.busy, g.completed, g.issued, h, InFlight(g.avail, g.held, g.used, h));
    forall j | 0 <= j < |g'.comps| ensures Unseen(g', t', j) {
      assert Unseen(g, t, j) && g.comps[j] in g.used;
    }
    forall x | x in g'.chains ensures g'.chains[x].id !in t'.returned {
      assert Differ(g.chains, x, h);
    }
    forall x | 0 <= x < g'.issued ensures NotLost(g', t', x) {
      FinishedOrNot(g, g', t, t', h, x);
    }
  }

  lemma FinishedOrNot(g: History, g': History, t: Trace, t': Trace, h: nat, x: nat)
    requires NotLost(g, t, x) && h in g.chains && g'.chains == g.chains - {h}
    requires t'.returned == t.returned + [g.chains[h].id]
    ensures NotLost(g', t', x)
  {
    if x !in t'.returned {
      var y :| y in g.chains && g.chains[y].id == x;
      assert y in g'.chains && g'.chains[y].id == x;
    }
  }
}
