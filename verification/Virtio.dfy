/** The virtio disk driver (kernel/virtio_disk.c) and the device it talks to, over a split virtqueue
(sections 2.6 and 5.2 of the Virtual I/O Device specification, version 1.1).

A run is made of what a process does between taking and giving up vdisk_lock, of the single turns of the
interrupt handler's loop, which holds that lock, and of the steps of the device, which takes no lock.  The
device may take its time and finish requests in any order; it reports success. */
module Virtio {
  import opened VirtioSpec

  /** What the device can do: take the next request, or report one that it has carried out. */
  datatype Act = TakeNext | Report(h: nat)

  class Disk {
    // shared with the device
    var desc: seq<Desc>
    var ops: seq<Op>
    var availRing: seq<nat>
    var availIdx: nat
    var usedRing: seq<nat>
    var usedIdx: nat
    var status: seq<nat>   // info[].status
    // the driver's own
    var free: seq<bool>
    var seen: nat          // disk.used_idx
    var infoBuf: seq<nat>  // info[].b
    var busy: set<nat>     // the buffers with b->disk == 1
    // the device's own
    var devIdx: nat
    ghost var g: History

    ghost function View(): Queue
      reads this
    {
      Queue(desc, ops, free, availRing, availIdx, devIdx, usedRing, usedIdx, seen, status, infoBuf, busy)
    }

    ghost predicate Valid()
      reads this
    {
      Ok(View(), g)
    }

    /** The queue as virtio_disk_init leaves it. */
    constructor ()
      ensures Valid() && g == History(map[], seq(NUM, i => 0), map[], [], {}, {}, [], {}, 0, {}) && busy == {}
    {
      desc := seq(NUM, i => Desc(Null, 0, 0, 0));
      ops := seq(NUM, i => Op(false, 0));
      availRing, availIdx, usedRing, usedIdx := seq(NUM, i => 0), 0, seq(NUM, i => 0), 0;
      status, free, seen, infoBuf, busy, devIdx := seq(NUM, i => 0), seq(NUM, i => true), 0, seq(NUM, i => 0), {}, 0;
      g := History(map[], seq(NUM, i => 0), map[], [], {}, {}, [], {}, 0, {});
    }

    /** alloc_desc. */
    method AllocDesc() returns (i: int)
      requires |free| == NUM
      modifies this`free
      ensures |free| == NUM && -1 <= i < NUM
      ensures i < 0 ==> free == old(free) && forall d :: 0 <= d < NUM ==> !free[d]
      ensures i >= 0 ==> old(free)[i] && free == old(free)[i := false]
    {
      i := 0;
      while i < NUM
        invariant 0 <= i <= NUM && free == old(free) && forall d :: 0 <= d < i ==> !free[d]
      {
        if free[i] {
          free := free[i := false];
          return;
        }
        i := i + 1;
      }
      i := -1;
    }

    /** free_desc; its two panics are the two preconditions. */
    method FreeDesc(i: nat)
      requires |free| == |desc| == NUM && i < NUM && !free[i]
      modifies this`free, this`desc
      ensures free == old(free)[i := true] && desc == old(desc)[i := Desc(Null, 0, 0, 0)]
    {
      desc := desc[i := Desc(Null, 0, 0, 0)];
      free := free[i := true];
    }

    /** alloc3_desc's way out: the descriptors claimed so far are free again. */
    method GiveBack(idx: seq<nat>, ghost free0: seq<bool>)
      requires |desc| == NUM && Distinct(idx) && Claimed(free0, free, idx)
      modifies this`free, this`desc
      ensures |desc| == NUM && free == free0
      ensures forall d :: 0 <= d < NUM && !free0[d] ==> desc[d] == old(desc)[d]
    {
      var j := 0;
      while j < |idx|
        invariant j <= |idx| && |desc| == NUM && Distinct(idx) && Claimed(free0, free, idx[j..])
        invariant forall d :: 0 <= d < NUM && !free0[d] ==> desc[d] == old(desc)[d]
      {
        FreeDesc(idx[j]);
        j := j + 1;
      }
    }

    /** alloc3_desc: three descriptors, or none; and none only if fewer than three are free. */
    method Alloc3Desc() returns (idx: seq<nat>, ghost few: seq<nat>)
      requires |free| == |desc| == NUM
      modifies this`free, this`desc
      ensures |free| == |desc| == NUM && (forall d :: 0 <= d < NUM && !old(free)[d] ==> desc[d] == old(desc)[d])
      ensures |idx| == 3 || idx == []
      ensures Distinct(idx) && Claimed(old(free), free, idx)
      ensures idx == [] ==> |few| < 3 && free == old(free) && forall d :: 0 <= d < NUM && free[d] ==> d in few
    {
      idx, few := [], [];
      while |idx| < 3
        invariant |idx| <= 3 && |free| == NUM && desc == old(desc) && Distinct(idx) && Claimed(old(free), free, idx)
        decreases 3 - |idx|
      {
        var i := AllocDesc();
        if i < 0 {
          few := idx;
          GiveBack(idx, old(free));
          idx := [];
          return;
        }
        idx := idx + [i];
      }
    }

    /** The first part of virtio_disk_rw: take three descriptors, format them, and put the head into the
        avail ring; or nothing, and then the caller must sleep. */
    method Submit(b: nat, op: Op) returns (ok: bool, h: nat, ghost c: Chain)
      requires Valid() && b != 0 && b !in g.at
      modifies this
      ensures Valid()
      ensures !ok ==> g == old(g) && View().(desc := old(desc)) == old(View())
      ensures ok ==> h < NUM && h !in old(g).chains && busy == old(busy) + {b}
                     && c.buf == b && c.op == op && c.id == old(g).issued && c.mid < NUM && c.last < NUM
                     && |old(g).owner| == NUM
                     && g == Posted(old(g), h, c)
    {
      ghost var q := View();
      var idx;
      ghost var few;
      idx, few := Alloc3Desc();
      if idx == [] {
        FreeDontCare(q.desc, desc, ops, free, g.owner, g.chains);
        return false, 0, Chain(0, 0, b, op, 0);
      }
      h := idx[0];
      c := Chain(idx[1], idx[2], b, op, g.issued);
      FormatFresh(q.desc, desc, ops, q.free, free, g.owner, g.chains, idx, c);
      Format(idx, b, op);
      PostOk(q, g, desc, ops, free, h, c);
      Post(h, b, c);
      ok := true;
    }

    /** Fill in the three descriptors and the header. */
    method Format(idx: seq<nat>, b: nat, op: Op)
      requires |desc| == |ops| == NUM && |idx| == 3 && Distinct(idx) && idx[0] < NUM && idx[1] < NUM && idx[2] < NUM
      modifies this`desc, this`ops
      ensures desc == Filled(old(desc), idx, b, op) && ops == old(ops)[idx[0] := op]
    {
      ops := ops[idx[0] := op];
      desc := desc[idx[0] := Desc(OpAt(idx[0]), 16, F_NEXT, idx[1])];
      var flags := if op.write then 0 else F_WRITE;
      desc := desc[idx[1] := Desc(DataOf(b), 1024, flags + F_NEXT, idx[2])];
      desc := desc[idx[2] := Desc(StatusAt(idx[0]), 1, F_WRITE, 0)];
    }

    /** Record the buffer and tell the device. */
    method Post(h: nat, b: nat, ghost c: Chain)
      requires |status| == |infoBuf| == |availRing| == |g.owner| == NUM && h < NUM && c.mid < NUM && c.last < NUM
               && c.buf == b
      modifies this`status, this`busy, this`infoBuf, this`availRing, this`availIdx, this`g
      ensures View() == old(View()).(status := old(status)[h := 255], infoBuf := old(infoBuf)[h := b],
                                     busy := old(busy) + {b},
                                     availRing := old(availRing)[old(availIdx) % NUM := h],
                                       availIdx := (old(availIdx) + 1) % WRAP)
      ensures g == Posted(old(g), h, c)
    {
      status := status[h := 255];
      busy := busy + {b};
      infoBuf := infoBuf[h := b];
      availRing := availRing[availIdx % NUM := h];
      availIdx := (availIdx + 1) % WRAP;
      g := Posted(g, h, c);
    }

    /** The device takes the next request from the avail ring and follows its descriptors: what it finds
        is what virtio_disk_rw was asked for. */
    method DeviceTake() returns (h: nat, op: Op, buf: nat, writable: bool, statusOf: nat)
      requires Valid() && devIdx != availIdx
      modifies this`devIdx, this`g
      ensures Valid() && h in old(g).avail && g == old(g).(queue := old(g).queue[1..], avail := old(g).avail - {h},
                                                           held := old(g).held + {h})
      ensures h in g.chains && op == g.chains[h].op && buf == g.chains[h].buf && writable == !op.write && statusOf == h
    {
      TakeOk(View(), g);
      h := availRing[devIdx % NUM];
      assert Formatted(desc, ops, h, g.chains[h]);
      var d0 := desc[h];
      op := ops[d0.addr.i];
      var d1 := desc[d0.next];
      buf, writable := d1.addr.b, d1.flags / F_WRITE % 2 == 1;
      var d2 := desc[d1.next];
      statusOf := d2.addr.i;
      devIdx := (devIdx + 1) % WRAP;
      g := g.(queue := g.queue[1..], avail := g.avail - {h}, held := g.held + {h});
    }

    /** The device has carried out a request: it stores the status and puts the head into the used ring. */
    method DeviceComplete(h: nat)
      requires Valid() && h in g.held
      modifies this`status, this`usedRing, this`usedIdx, this`g
      ensures Valid() && g == Reported(old(g), h)
    {
      CompleteOk(View(), g, h);
      status := status[h := 0];
      usedRing := usedRing[usedIdx % NUM := h];
      usedIdx := (usedIdx + 1) % WRAP;
      g := Reported(g, h);
    }

    /** Whatever the device does at one moment. */
    method DeviceActs(acts: seq<Act>, device: set<nat>) returns (device': set<nat>)
      requires Valid() && device == g.held
      modifies this`devIdx, this`status, this`usedRing, this`usedIdx, this`g
      ensures Valid() && device' == g.held && DeviceOnly(old(g), g)
    {
      device' := device;
      var i := 0;
      while i < |acts|
        invariant i <= |acts| && Valid() && device' == g.held && DeviceOnly(old(g), g)
      {
        device' := DeviceAct(acts[i], device');
        i := i + 1;
      }
    }

    /** One step of the device; one that is not possible is passed over. */
    method DeviceAct(a: Act, device: set<nat>) returns (device': set<nat>)
      requires Valid() && device == g.held
      modifies this`devIdx, this`status, this`usedRing, this`usedIdx, this`g
      ensures Valid() && device' == g.held && DeviceOnly(old(g), g)
      ensures if a.Report? && g != old(g)
              then a.h in old(g).held && a.h in old(g).chains && g == Reported(old(g), a.h)
              else g == old(g).(queue := g.queue, avail := g.avail, held := g.held)
    {
      device' := device;
      match a {
        case TakeNext =>
          if devIdx != availIdx {
            var h, op, buf, writable, st := DeviceTake();
            device' := device + {h};
          }
        case Report(h) =>
          if h in device {
            DeviceComplete(h);
            device' := device - {h};
          }
      }
    }

    /** virtio_disk_intr, while the device goes on: acts[i] is what it does before turn i of the loop.  The loop
        ends.  Every request that was in the used ring has its buffer released; the status panic cannot
        happen, and no request is reported twice. */
    method Intr(acts: seq<seq<Act>>, device: set<nat>) returns (device': set<nat>)
      requires Valid() && device == g.held
      modifies this`seen, this`busy, this`devIdx, this`status, this`usedRing, this`usedIdx, this`g
      ensures Valid() && device' == g.held && g.comps == [] && g.used == {}
      ensures g.chains == old(g).chains && g.issued == old(g).issued && old(g).completed <= g.completed
      ensures forall h :: h in old(g).used ==> h in g.chains && g.chains[h].id in g.completed
                                               && g.chains[h].buf !in busy
    {
      device' := device;
      var i := 0;
      while true
        invariant Reporting(View(), old(g), g) && device' == g.held
        decreases g.avail + g.held + g.used
      {
        ghost var q1, g1 := View(), g;
        device' := DeviceActs(if i < |acts| then acts[i] else [], device');
        ReportingActs(q1, old(g), g1, View(), g);
        if seen == usedIdx { break; }
        ghost var q2, g2 := View(), g;
        RingGet(usedRing, seen, usedIdx, g.comps, g.used);
        IntrOne();
        ReportingSeen(q2, old(g), g2, View(), g);
        i := i + 1;
      }
      AllSeen(View(), g, old(g));
    }

    /** One turn of its loop. */
    method IntrOne()
      requires Valid() && seen != usedIdx && g.comps != []
      modifies this`seen, this`busy, this`g
      ensures Valid() && var h := old(g).comps[0];
              && h in old(g).chains && old(g).chains[h].id !in old(g).completed && old(g).chains[h].buf in old(busy)
              && g == Seen(old(g)) && busy == old(busy) - {old(g).chains[h].buf}
    {
      SeenOk(View(), g);
      var id := usedRing[seen % NUM];
      assert status[id] == 0;
      var b := infoBuf[id];
      busy := busy - {b};
      g := Seen(g);
      seen := (seen + 1) % WRAP;
    }

    /** The last part of virtio_disk_rw, once b->disk is 0 again: the request was completed, and its three
        descriptors are given back. */
    method Finish(b: nat, h: nat)
      requires Valid() && h in g.chains && g.chains[h].buf == b && b !in busy
      modifies this`infoBuf, this`desc, this`free, this`g
      ensures Valid() && old(g).chains[h].id in g.completed
      ensures g == old(g).(chains := old(g).chains - {h}, at := old(g).at - {b})
      ensures forall d :: 0 <= d < NUM ==> (free[d] <==> old(free)[d] || d in Members(h, old(g).chains[h]))
    {
      ghost var q := View();
      assert Formatted(desc, ops, h, g.chains[h]) && OwnsAll(free, g.owner, g.chains, h);
      infoBuf := infoBuf[h := 0];
      FreeChain(h, g.chains[h]);
      FinishOk(q, g, desc, free, h);
      g := g.(chains := g.chains - {h}, at := g.at - {b});
    }

    /** free_chain: follow the chain, giving back each descriptor. */
    method FreeChain(head: nat, ghost c: Chain)
      requires |desc| == |ops| == |free| == NUM && Formatted(desc, ops, head, c) && !free[head] && !free[c.mid]
               && !free[c.last]
      modifies this`desc, this`free
      ensures |desc| == |free| == NUM
      ensures forall d :: 0 <= d < NUM ==> (free[d] <==> old(free)[d] || d in Members(head, c))
      ensures forall d :: 0 <= d < NUM && d !in Members(head, c) ==> desc[d] == old(desc)[d]
    {
      var i := head;
      ghost var k := 0;
      while true
        invariant |desc| == |free| == NUM && 0 <= k <= 2
                  && i == (if k == 0 then head else if k == 1 then c.mid else c.last)
        invariant forall d :: 0 <= d < NUM ==> (free[d] <==>
                                                  old(free)[d] || (k > 0 && d == head) || (k > 1 && d == c.mid))
        invariant forall d :: 0 <= d < NUM && !(k > 0 && d == head) && !(k > 1 && d == c.mid) ==>
                                desc[d] == old(desc)[d]
        decreases 3 - k
      {
        var flags, next := desc[i].flags, desc[i].next;
        FreeDesc(i);
        if !HasNext(flags) { break; }
        i := next;
        k := k + 1;
      }
    }
  }

  // ---- Runs -----------------------------------------------------------------------------------------

  /** A process submits or returns, the device acts, or the interrupt handler begins or makes a turn of its loop,
      which it leaves when there is nothing to report. */
  datatype Event = Rw(b: nat, op: Op) | Device(act: Act) | Enter | Turn | Return(h: nat)

  /** The processes inside virtio_disk_rw are those whose requests exist; the device knows what it holds. */
  ghost predicate Known(g: History, waiting: map<nat, nat>, device: set<nat>) {
    && waiting.Keys == g.chains.Keys && device == g.held
    && (forall h :: h in waiting ==> waiting[h] == g.chains[h].buf)
  }

  /** t' continues t by at most one entry. */
  ghost predicate Continues(t: Trace, t': Trace) {
    && t.done <= t'.done && t.seen <= t'.seen && t.returned <= t'.returned
    && |t'.done| + |t'.seen| + |t'.returned| <= |t.done| + |t.seen| + |t.returned| + 1
  }

  /** A process is inside virtio_disk_rw, holding the lock. */
  method ProcessEvent(d: Disk, e: Event, waiting: map<nat, nat>, ghost device: set<nat>, ghost t: Trace)
    returns (waiting': map<nat, nat>, ghost t': Trace)
    requires d.Valid() && Traced(d.g, t) && Known(d.g, waiting, device)
    modifies d
    ensures d.Valid() && Traced(d.g, t') && Known(d.g, waiting', device) && Continues(t, t')
  {
    waiting', t' := waiting, t;
    ghost var q0, g0 := d.View(), d.g;
    if e.Rw? && e.b != 0 && e.b !in waiting.Values {
      NotWaiting(d.View(), d.g, waiting, e.b);
      var ok, h;
      ghost var c;
      ok, h, c := d.Submit(e.b, e.op);
      if ok {
        TracedPost(q0, g0, t, h, c);
        waiting' := waiting[h := e.b];
      }
    } else if e.Return? && e.h in waiting && waiting[e.h] !in d.busy {
      d.Finish(waiting[e.h], e.h);
      TracedFinish(q0, g0, t, e.h, d.g);
      t' := t.(returned := t.returned + [g0.chains[e.h].id]);
      waiting' := waiting - {e.h};
    }
  }

  /** The device acts, whoever holds the lock. */
  method DeviceEvent(d: Disk, a: Act, ghost waiting: map<nat, nat>, device: set<nat>, ghost t: Trace)
    returns (device': set<nat>, ghost t': Trace)
    requires d.Valid() && Traced(d.g, t) && Known(d.g, waiting, device)
    modifies d
    ensures d.Valid() && Traced(d.g, t') && Known(d.g, waiting, device') && Continues(t, t')
  {
    ghost var q0, g0 := d.View(), d.g;
    device' := d.DeviceAct(a, device);
    t' := t;
    if a.Report? && g0 != d.g {
      TracedComplete(q0, g0, t, a.h, d.g);
      t' := t.(done := t.done + [g0.chains[a.h].id]);
    } else {
      TracedTake(g0, d.g, t);
    }
  }

  /** One turn of the handler's loop, or its end. */
  method TurnEvent(d: Disk, ghost waiting: map<nat, nat>, ghost device: set<nat>, ghost t: Trace)
    returns (handling: bool, ghost t': Trace)
    requires d.Valid() && Traced(d.g, t) && Known(d.g, waiting, device)
    modifies d
    ensures d.Valid() && Traced(d.g, t') && Known(d.g, waiting, device) && Continues(t, t')
  {
    t' := t;
    handling := d.seen != d.usedIdx;
    if handling {
      ghost var q0, g0 := d.View(), d.g;
      RingGet(d.usedRing, d.seen, d.usedIdx, d.g.comps, d.g.used);
      d.IntrOne();
      TracedSeen(q0, g0, t);
      t' := t.(seen := t.seen + [g0.chains[g0.comps[0]].id]);
    }
  }

  /** Any run of processes, interrupt handler and device: an event that is not possible is passed over, and a
      buffer is submitted by one holder at a time.  The device may act at any moment, also between the turns of
      the handler's loop, and all others only when the lock is theirs. */
  method Run(events: seq<Event>) returns (d: Disk, ghost t: Trace)
    ensures fresh(d) && d.Valid() && |d.g.chains| <= 2
    ensures Distinct(t.done) && Distinct(t.returned) && t.seen <= t.done
    ensures forall x :: x in t.returned ==> x in t.seen
    ensures forall x :: 0 <= x < d.g.issued ==> NotLost(d.g, t, x)
    ensures forall h :: h in d.g.chains ==> d.g.chains[h].id < d.g.issued && d.g.chains[h].id !in t.returned
  {
    d := new Disk();
    t := Trace([], [], []);
    var waiting: map<nat, nat>, device: set<nat>, handling := map[], {}, false;
    var i := 0;
    while i < |events|
      invariant fresh(d) && i <= |events| && d.Valid() && Traced(d.g, t) && Known(d.g, waiting, device)
    {
      var e := events[i];
      if e.Device? {
        device, t := DeviceEvent(d, e.act, waiting, device, t);
      } else if handling {
        if e.Turn? {
          handling, t := TurnEvent(d, waiting, device, t);
        }
      } else if e.Enter? {
        handling := true;
      } else {
        waiting, t := ProcessEvent(d, e, waiting, device, t);
      }
      i := i + 1;
    }
    AtMostTwo(d.desc, d.ops, d.free, d.g.owner, d.g.chains);
    ChainsIssued(d.View(), d.g);
  }

  lemma ChainsIssued(q: Queue, g: History)
    requires Ok(q, g)
    ensures forall h :: h in g.chains ==> g.chains[h].id < g.issued
  {
    forall h | h in g.chains ensures g.chains[h].id < g.issued {
      assert Tracked(g.chains, q.infoBuf, q.busy, g.completed, g.issued, h, InFlight(g.avail, g.held, g.used, h));
    }
  }

  lemma NotWaiting(q: Queue, g: History, waiting: map<nat, nat>, b: nat)
    requires Ok(q, g) && waiting.Keys == g.chains.Keys && (forall h :: h in waiting ==> waiting[h] == g.chains[h].buf)
             && b !in waiting.Values
    ensures b !in g.at
  {
    forall x | x in g.at ensures x in waiting.Values {
      assert HeadOf(g.chains, g.at, x);
      assert waiting[g.at[x]] == x;
    }
  }
}
