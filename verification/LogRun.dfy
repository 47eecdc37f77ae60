/** The code of kernel/log.c refines the machine of GroupCommit: each of its functions, called in a state of that
machine, leads to the state that the machine's own steps lead to. */
module LogRun {
  import opened Blocks
  import opened LogSpec
  import opened Bio
  import G = GroupCommit
  import K = Log

  // ---- Runs of the machine --------------------------------------------------------------------------

  ghost predicate Leads(L: Layout, s: G.State, ss: seq<G.State>, steps: seq<G.Step>, t: G.State) {
    G.Run(L, ss, steps) && ss[0] == s && ss[|ss| - 1] == t
  }

  lemma OneStep(L: Layout, s: G.State, st: G.Step) returns (ss: seq<G.State>, steps: seq<G.Step>)
    requires G.Inv(L, s) && G.Enabled(L, s, st)
    ensures G.Defined(L, s, st) && Leads(L, s, ss, steps, G.Do(L, s, st))
  {
    G.StepRefines(L, s, st);
    ss, steps := [s, G.Do(L, s, st)], [st];
    assert G.Goes(L, ss, steps, 0);
  }

  lemma Joined(L: Layout, s: G.State, ss1: seq<G.State>, steps1: seq<G.Step>, t: G.State, ss2: seq<G.State>,
               steps2: seq<G.Step>, u: G.State)
    returns (ss: seq<G.State>, steps: seq<G.Step>)
    requires Leads(L, s, ss1, steps1, t) && Leads(L, t, ss2, steps2, u)
    ensures Leads(L, s, ss, steps, u)
  {
    ss, steps := ss1 + ss2[1..], steps1 + steps2;
    forall i | 0 <= i < |steps| ensures G.Goes(L, ss, steps, i) {
      if i < |steps1| {
        assert G.Goes(L, ss1, steps1, i);
      } else {
        assert G.Goes(L, ss2, steps2, i - |steps1|);
        assert ss[i] == ss2[i - |steps1|];
      }
    }
  }

  /** After the first k writes of a plan. */
  ghost function Wrote(s: G.State, k: nat): G.State
    requires k <= |s.plan| && InRange(s.plan, |s.disk|)
  {
    s.(disk := Apply(s.disk, s.plan[..k]), pos := k)
  }

  /** All writes of a plan, one after the other. */
  lemma PlanRun(L: Layout, s: G.State) returns (ss: seq<G.State>, steps: seq<G.Step>)
    requires G.Inv(L, s) && s.pos == 0 && InRange(s.plan, |s.disk|)
    ensures Leads(L, s, ss, steps, Wrote(s, |s.plan|))
  {
    var n := |s.plan|;
    ss, steps := seq(n + 1, k requires 0 <= k <= n => Wrote(s, k)), seq(n, k => G.DiskWrite);
    assert Wrote(s, 0) == s;
    forall k | 0 <= k < n ensures G.Goes(L, ss, steps, k) {
      PrefixApply(s.disk, s.plan, k);
    }
  }

  // ---- Starting -------------------------------------------------------------------------------------

  /** The machine after it has been switched on over disk d and has recovered. */
  ghost function Booted(L: Layout, d: seq<Block>): G.State
    requires DiskOk(L, d)
  {
    var d' := Apply(d, RecoverWrites(L, d));
    G.State(true, d', d', [], [], false, [], 0, d)
  }

  lemma BootRun(L: Layout, d: seq<Block>) returns (ss: seq<G.State>, steps: seq<G.Step>)
    requires DiskOk(L, d)
    ensures Leads(L, G.PowerOn(L, d), ss, steps, Booted(L, d)) && G.Inv(L, Booted(L, d))
  {
    var s := G.PowerOn(L, d);
    var ss1, steps1 := PlanRun(L, s);
    var t := Wrote(s, |s.plan|);
    assert s.plan[..|s.plan|] == s.plan;
    G.RunInv(L, ss1, steps1, |ss1| - 1);
    var ss2, steps2 := OneStep(L, t, G.Boot);
    ss, steps := Joined(L, s, ss1, steps1, t, ss2, steps2, Booted(L, d));
    G.RunInv(L, ss, steps, |ss| - 1);
  }

  // ---- Ending an operation --------------------------------------------------------------------------

  /** What end_op of operation op leads to. */
  ghost function Ended(L: Layout, s: G.State, op: nat): G.State
    requires G.Inv(L, s) && s.up && !s.committing && op < |s.used|
  {
    if |s.used| > 1 then s.(used := s.used[..op] + s.used[op + 1..])
    else s.(disk := Apply(s.disk, CommitWrites(L, s.disk[L.start], s.lh, s.view)), lh := [], used := [],
            plan := [], pos := 0, base := s.disk)
  }

  lemma EndRun(L: Layout, s: G.State, op: nat) returns (ss: seq<G.State>, steps: seq<G.Step>)
    requires G.Inv(L, s) && s.up && !s.committing && op < |s.used|
    ensures Leads(L, s, ss, steps, Ended(L, s, op)) && G.Inv(L, Ended(L, s, op))
  {
    ss, steps := OneStep(L, s, G.End(op));
    var t := G.Do(L, s, G.End(op));
    G.StepRefines(L, s, G.End(op));
    if |s.used| == 1 {
      var ss2, steps2 := PlanRun(L, t);
      ss, steps := Joined(L, s, ss, steps, t, ss2, steps2, Wrote(t, |t.plan|));
      assert t.plan[..|t.plan|] == t.plan;
      G.RunInv(L, ss2, steps2, |ss2| - 1);
      var ss3, steps3 := OneStep(L, Wrote(t, |t.plan|), G.CommitDone);
      ss, steps := Joined(L, s, ss, steps, Wrote(t, |t.plan|), ss3, steps3, Ended(L, s, op));
      G.RunInv(L, ss, steps, |ss| - 1);
    }
  }

  // ---- The code -------------------------------------------------------------------------------------

  /** The log and its cache are in state s of the machine: the same disk, the same contents of the home blocks,
      the same list and the same number of operations. */
  ghost predicate Shows(log: K.Log, s: G.State)
    reads log, log.bc
  {
    && log.Valid() && G.Inv(log.L, s) && s.up && !s.committing && !log.committing
    && s.disk == log.bc.disk && |s.view| == |log.bc.view|
    && HomeBlocks(log.L, s.view) == HomeBlocks(log.L, log.bc.view)
    && s.lh == log.List() && |s.used| == log.outstanding
  }

  /** initlog, on a cache that has just been initialised: the machine has been switched on and has recovered. */
  method InitLog(bc: Bcache, L: Layout) returns (log: K.Log, ok: bool)
    requires bc.Valid() && K.Idle(bc.dev, bc.buf, bc.disk, {}, {}) && bc.view == bc.disk && DiskOk(L, bc.disk)
    modifies bc
    ensures fresh(log) && log.bc == bc && log.L == L
    ensures ok ==> Shows(log, Booted(L, old(bc.disk)))
  {
    ghost var disk, writes := bc.disk, bc.writes;
    log := new K.Log(bc, L);
    ok := log.RecoverFromLog();
    if ok {
      ApplyConcat(bc.boot, writes, RecoverWrites(L, disk));
      ghost var ss, steps := BootRun(L, disk);
      K.AllClean(L, bc.dev, bc.buf, bc.view, bc.disk);
    }
  }

  /** begin_op, one turn of its loop: it lets its caller in exactly when the machine can begin an operation. */
  method BeginOp(log: K.Log, ghost s: G.State) returns (admitted: bool)
    requires Shows(log, s)
    modifies log`outstanding
    ensures admitted <==> G.Enabled(log.L, s, G.Begin)
    ensures Shows(log, if admitted then G.Do(log.L, s, G.Begin) else s)
  {
    admitted := log.BeginOp();
    if admitted {
      G.StepRefines(log.L, s, G.Begin);
    }
  }

  /** A process of operation op changes a home block whose buffer it holds, and calls log_write: the machine's
      step, or exactly if that is not possible a panic. */
  method LogWrite(log: K.Log, b: nat, data: Block, ghost s: G.State, ghost op: nat) returns (ok: bool)
    requires Shows(log, s) && op < |s.used|
    requires b < NBUF && log.bc.buf[b].locked && log.bc.buf[b].valid && log.L.Home(log.bc.buf[b].blockno)
    modifies log`n, log`block, log.bc`buf, log.bc`view
    ensures ok <==> G.Enabled(log.L, s, G.LogWrite(op, old(log.bc.buf)[b].blockno, data))
    ensures ok ==> Shows(log, G.Do(log.L, s, G.LogWrite(op, old(log.bc.buf)[b].blockno, data)))
  {
    ghost var at, view := log.bc.buf[b].blockno, log.bc.view;
    Edit(log, b, data);
    ok := log.LogWrite(b);
    WriteStep(log.L, s, view, op, at, data);
  }

  lemma WriteStep(L: Layout, s: G.State, view: seq<Block>, op: nat, at: nat, data: Block)
    requires G.Inv(L, s) && s.up && !s.committing && op < |s.used| && at < |s.disk| && L.Home(at)
    requires |s.view| == |view| == |s.disk| && HomeBlocks(L, s.view) == HomeBlocks(L, view)
    ensures G.Enabled(L, s, G.LogWrite(op, at, data)) <==> !TooBig(L, s.lh)
    ensures !TooBig(L, s.lh) ==>
              var t := G.Do(L, s, G.LogWrite(op, at, data));
              && G.Inv(L, t) && t.up && !t.committing && t.disk == s.disk && t.lh == Absorb(s.lh, at)
              && |t.used| == |s.used| && |t.view| == |view|
              && HomeBlocks(L, t.view) == HomeBlocks(L, view[at := data])
  {
    if !TooBig(L, s.lh) {
      G.StepRefines(L, s, G.LogWrite(op, at, data));
      SameHomes(L, s.view, view, at, data);
    }
  }

  /** The change alone. */
  method Edit(log: K.Log, b: nat, data: Block)
    requires log.Valid() && b < NBUF && log.bc.buf[b].locked && log.bc.buf[b].valid
    modifies log.bc`buf, log.bc`view
    ensures log.Valid() && old(log.bc.buf)[b].blockno < |log.bc.disk|
    ensures log.bc.view == old(log.bc.view)[old(log.bc.buf)[b].blockno := data]
    ensures log.bc.buf[b] == old(log.bc.buf)[b].(data := data)
  {
    PinnedStays(log.bc.dev, log.bc.buf, b, data, K.Elems(log.List()));
    log.bc.SetData(b, data);
  }

  lemma PinnedStays(dev: nat, buf: seq<Buf>, b: nat, data: Block, listed: set<int>)
    requires K.Pinned(dev, buf, listed) && b < NBUF
    ensures K.Pinned(dev, buf[b := buf[b].(data := data)], listed)
  {
    var buf' := buf[b := buf[b].(data := data)];
    forall a | a in listed ensures a >= 0 && K.Cached(dev, buf', a) {
      var i :| 0 <= i < NBUF && Holds(dev, buf[i], a);
      assert Holds(dev, buf'[i], a);
    }
  }

  lemma SameHomes(L: Layout, v: seq<Block>, w: seq<Block>, at: nat, data: Block)
    requires |v| == |w| && at < |v| && HomeBlocks(L, v) == HomeBlocks(L, w)
    ensures HomeBlocks(L, v[at := data]) == HomeBlocks(L, w[at := data])
  {
    forall a: nat | a < |v| && L.Home(a) ensures v[at := data][a] == w[at := data][a] {
      assert HomeBlocks(L, v)[a] == HomeBlocks(L, w)[a];
    }
  }

  /** end_op: the machine's end of an operation, with the whole commit if it was the last one. */
  method EndOp(log: K.Log, ghost s: G.State, ghost op: nat) returns (ok: bool)
    requires Shows(log, s) && op < |s.used| && (|s.used| == 1 ==> log.Quiet())
    modifies log, log.bc
    ensures ok ==> Shows(log, Ended(log.L, s, op))
  {
    ghost var disk, writes, view, lh := log.bc.disk, log.bc.writes, log.bc.view, log.List();
    ok := log.EndOp();
    if ok {
      ghost var ss, steps := EndRun(log.L, s, op);
      if |s.used| == 1 {
        SamePlan(log.L, s.disk[log.L.start], s.lh, s.view, view);
        ApplyConcat(log.bc.boot, writes, CommitWrites(log.L, disk[log.L.start], lh, view));
      }
    }
  }

  /** A commit writes home blocks only, whatever else the cache holds. */
  lemma SamePlan(L: Layout, hd: Block, lh: seq<int>, v: seq<Block>, w: seq<Block>)
    requires |v| == |w| && ListOk(L, |v|, lh) && L.Ok(|v|) && HomeBlocks(L, v) == HomeBlocks(L, w)
    ensures CommitWrites(L, hd, lh, v) == CommitWrites(L, hd, lh, w)
  {
    forall i | 0 <= i < |lh| ensures v[lh[i]] == w[lh[i]] {
      var a: nat := lh[i];
      assert HomeBlocks(L, v)[a] == HomeBlocks(L, w)[a];
    }
  }
}
