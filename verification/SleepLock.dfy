/** Sleep locks (kernel/sleeplock.c) over sleep, wakeup and kill (kernel/proc.c), as a step system:
any number of processes, one step per lock acquire, lock release or write to shared state, every
interleaving.  The channel is the sleep lock; a process in pc Out or Holding may also sleep elsewhere, as
the holder of a buffer does while the disk is busy. */
module SleepLock {
  datatype Owner = Free | By(p: nat)

  datatype RunState = RUNNING | RUNNABLE | SLEEPING

  /** Where a process is.  W and K carry the index of the table entry they are looking at. */
  datatype Pc =
    | Out            // in no sleep-lock code
    | A0             // acquiresleep: about to acquire lk->lk
    | A1             // holds lk->lk, about to test lk->locked
    | A2             // has set lk->locked, about to release lk->lk
    | S0             // sleep: holds lk->lk, about to acquire p->lock
    | S1             // holds both, about to release lk->lk
    | S2             // holds p->lock, about to set p->chan
    | S3             // about to set p->state to SLEEPING
    | S4             // in sched: off the CPU once the scheduler releases p->lock
    | S5             // off the CPU, SLEEPING or woken
    | S6             // dispatched again with p->lock held, about to clear p->chan
    | S7             // about to release p->lock
    | Holding        // holds the sleep lock
    | R0             // releasesleep: about to acquire lk->lk
    | R1             // holds lk->lk, about to clear lk->locked
    | W0(i: nat)     // wakeup: about to acquire proc[i].lock
    | W1(i: nat)     // holds it, about to test and set proc[i].state
    | W2(i: nat)     // about to release it
    | K0(i: nat)     // kill: about to acquire proc[i].lock
    | K1(i: nat)     // holds it, about to wake proc[i]
    | K2(i: nat)     // about to release it

  datatype Proc = Proc(pc: Pc, state: RunState, onChan: bool, plock: Owner)

  /** `locked` and `pid` are the fields of the sleep lock, `lk` the owner of its spin lock lk->lk. */
  datatype State = State(locked: bool, pid: Owner, lk: Owner, procs: seq<Proc>)

  datatype Step =
    | Move(p: nat)                // p executes its next step
    | StartAcquire(p: nat)
    | StartRelease(p: nat)
    | StartKill(p: nat, victim: nat)
    | Preempt(p: nat)             // timer: yield, while p holds no spin lock
    | Dispatch(p: nat)            // scheduler picks p
    | Nap(p: nat)                 // p goes to sleep on some other channel
    | Rouse(p: nat)               // somebody wakes it there

  predicate HoldsLk(pc: Pc) {
    pc.A1? || pc.A2? || pc.S0? || pc.S1? || pc.R1? || pc.W0? || pc.W1? || pc.W2?
  }

  /** The table entry whose p->lock a process with index p holds at `pc`, or -1. */
  function LockOf(pc: Pc, p: nat): int {
    match pc
    case S1 => p
    case S2 => p
    case S3 => p
    case S4 => p
    case S6 => p
    case S7 => p
    case W1(i) => i
    case W2(i) => i
    case K1(i) => i
    case K2(i) => i
    case _ => -1
  }

  /** The process owns the sleep lock: from setting lk->locked to clearing it. */
  predicate Owns(pc: Pc) {
    pc.A2? || pc.Holding? || pc.R0? || pc.R1?
  }

  predicate SpinFree(pc: Pc) {
    pc.Out? || pc.A0? || pc.Holding? || pc.R0? || pc.K0?
  }

  predicate SleepingOn(p: Proc) {
    p.state == SLEEPING && p.onChan
  }

  predicate Free1(s: State, p: nat)
    requires p < |s.procs|
  {
    s.procs[p].plock == Free
  }

  predicate Enabled(s: State, st: Step) {
    var n := |s.procs|;
    match st
    case Move(p) =>
      p < n && s.procs[p].pc != Out && s.procs[p].pc != Holding && s.procs[p].pc != S5
      && (s.procs[p].state == RUNNING || s.procs[p].pc == S4)
      && (match s.procs[p].pc
          case A0 => s.lk == Free
          case R0 => s.lk == Free
          case S0 => Free1(s, p)
          case W0(i) => i < n && i != p ==> Free1(s, i)
          case K0(i) => i < n ==> Free1(s, i)
          case _ => true)
    case StartAcquire(p) => p < n && s.procs[p].pc == Out && s.procs[p].state == RUNNING
    case StartRelease(p) => p < n && s.procs[p].pc == Holding && s.procs[p].state == RUNNING
    case StartKill(p, v) => p < n && s.procs[p].pc == Out && s.procs[p].state == RUNNING
    case Preempt(p) => p < n && SpinFree(s.procs[p].pc) && s.procs[p].state == RUNNING && Free1(s, p)
    case Dispatch(p) => p < n && s.procs[p].state == RUNNABLE && Free1(s, p)
    case Nap(p) => p < n && Elsewhere(s.procs[p].pc) && s.procs[p].state == RUNNING && Free1(s, p)
    case Rouse(p) => p < n && Elsewhere(s.procs[p].pc) && s.procs[p].state == SLEEPING && Free1(s, p)
  }

  /** Not in the code of acquiresleep, releasesleep or kill. */
  predicate Elsewhere(pc: Pc) {
    pc.Out? || pc.Holding?
  }

  function SetPc(s: State, p: nat, pc: Pc): State
    requires p < |s.procs|
  {
    s.(procs := s.procs[p := s.procs[p].(pc := pc)])
  }

  function SetLock(s: State, q: nat, o: Owner): State
    requires q < |s.procs|
  {
    s.(procs := s.procs[q := s.procs[q].(plock := o)])
  }

  function Wake(s: State, q: nat): State
    requires q < |s.procs|
  {
    s.(procs := s.procs[q := s.procs[q].(state := RUNNABLE)])
  }

  /** The step that process p takes at its pc. */
  function MoveOf(s: State, p: nat): State
    requires Enabled(s, Move(p))
  {
    var n := |s.procs|;
    match s.procs[p].pc
    case A0 => SetPc(s.(lk := By(p)), p, A1)
    case A1 => if s.locked then SetPc(s, p, S0) else SetPc(s.(locked := true, pid := By(p)), p, A2)
    case A2 => SetPc(s.(lk := Free), p, Holding)
    case S0 => SetPc(SetLock(s, p, By(p)), p, S1)
    case S1 => SetPc(s.(lk := Free), p, S2)
    case S2 => s.(procs := s.procs[p := s.procs[p].(onChan := true, pc := S3)])
    case S3 => s.(procs := s.procs[p := s.procs[p].(state := SLEEPING, pc := S4)])
    case S4 => SetPc(SetLock(s, p, Free), p, S5)
    case S6 => s.(procs := s.procs[p := s.procs[p].(onChan := false, pc := S7)])
    case S7 => SetPc(SetLock(s, p, Free), p, A0)
    case R0 => SetPc(s.(lk := By(p)), p, R1)
    case R1 => SetPc(s.(locked := false, pid := Free), p, W0(0))
    case W0(i) =>
      if i >= n then SetPc(s.(lk := Free), p, Out)
      else if i == p then SetPc(s, p, W0(i + 1))
      else SetPc(SetLock(s, i, By(p)), p, W1(i))
    case W1(i) =>
      if i < n && SleepingOn(s.procs[i]) then SetPc(Wake(s, i), p, W2(i)) else SetPc(s, p, W2(i))
    case W2(i) => if i < n then SetPc(SetLock(s, i, Free), p, W0(i + 1)) else SetPc(s, p, W0(i + 1))
    case K0(i) => if i < n then SetPc(SetLock(s, i, By(p)), p, K1(i)) else SetPc(s, p, Out)
    case K1(i) =>
      if i < n && s.procs[i].state == SLEEPING then SetPc(Wake(s, i), p, K2(i)) else SetPc(s, p, K2(i))
    case K2(i) => if i < n then SetPc(SetLock(s, i, Free), p, Out) else SetPc(s, p, Out)
    case _ => s
  }

  function Do(s: State, st: Step): State
    requires Enabled(s, st)
  {
    match st
    case Move(p) => MoveOf(s, p)
    case StartAcquire(p) => SetPc(s, p, A0)
    case StartRelease(p) => SetPc(s, p, R0)
    case StartKill(p, v) => SetPc(s, p, K0(v))
    case Preempt(p) => Wake(s, p)
    case Dispatch(p) =>
      if s.procs[p].pc == S5
      then s.(procs := s.procs[p := s.procs[p].(state := RUNNING, pc := S6, plock := By(p))])
      else s.(procs := s.procs[p := s.procs[p].(state := RUNNING)])
    case Nap(p) => s.(procs := s.procs[p := s.procs[p].(state := SLEEPING)])
    case Rouse(p) => Wake(s, p)
  }

  predicate Init(s: State) {
    !s.locked && s.pid == Free && s.lk == Free
    && forall p :: 0 <= p < |s.procs| ==> s.procs[p] == Proc(Out, RUNNABLE, false, Free)
  }

  // ---- The invariant ------------------------------------------------------------------

  /** p has decided to sleep, or sleeps, and has not been woken. */
  predicate Dozing(p: Proc) {
    p.pc.S2? || p.pc.S3? || p.pc.S4? || (p.pc.S5? && p.state == SLEEPING)
  }

  /** r is in wakeup and has not yet passed table entry q. */
  predicate StillToWake(r: Pc, q: nat) {
    (r.W0? && r.i <= q) || (r.W1? && r.i <= q) || (r.W2? && r.i < q)
  }

  /** The holder of lk->lk is in wakeup and will still look at q. */
  ghost predicate Waker(s: State, q: nat) {
    s.lk.By? && s.lk.p < |s.procs| && StillToWake(s.procs[s.lk.p].pc, q)
  }

  /** A process's state and channel fit its pc. */
  predicate PcOk(p: Proc) {
    && (p.state == SLEEPING ==> p.pc.S4? || p.pc.S5? || Elsewhere(p.pc))
    && (p.pc.S4? ==> p.state == SLEEPING && p.onChan)
    && (p.pc.S3? || p.pc.S5? ==> p.onChan)
    && (p.pc.S5? ==> p.state != RUNNING)
    && (p.onChan ==> p.pc.S3? || p.pc.S4? || p.pc.S5? || p.pc.S6?)
    && (p.state == RUNNABLE ==> p.pc.S5? || SpinFree(p.pc))
  }

  /** Process q holds the spin locks that its pc says, and each is held by one process. */
  ghost predicate SpinOk(s: State, q: nat)
    requires q < |s.procs|
  {
    var x := LockOf(s.procs[q].pc, q);
    && (HoldsLk(s.procs[q].pc) <==> s.lk == By(q))
    && (0 <= x < |s.procs| ==> s.procs[x].plock == By(q))
    && (s.procs[q].plock.By? ==>
          var r := s.procs[q].plock.p; r < |s.procs| && LockOf(s.procs[r].pc, r) == q)
  }

  /** What holds of each process in every reachable state.  The last line is the point: a process
      that sleeps, or is about to although it has already dropped lk->lk, is not forgotten. */
  ghost predicate ProcInv(s: State, q: nat)
    requires q < |s.procs|
  {
    && PcOk(s.procs[q])
    && SpinOk(s, q)
    && (Owns(s.procs[q].pc) <==> s.pid == By(q))
    && (s.procs[q].pc.S0? || s.procs[q].pc.S1? ==> s.locked)
    && (Dozing(s.procs[q]) ==> s.locked || Waker(s, q))
  }

  ghost predicate Bounds(s: State) {
    && (s.locked <==> s.pid.By?)
    && (s.pid.By? ==> s.pid.p < |s.procs|)
    && (s.lk.By? ==> s.lk.p < |s.procs|)
  }

  ghost predicate Inv(s: State) {
    Bounds(s) && forall q :: 0 <= q < |s.procs| ==> ProcInv(s, q)
  }

  lemma InitInv(s: State)
    requires Init(s)
    ensures Inv(s)
  {
  }

  /** Waking a process that is off the CPU. */
  lemma WakeKeeps(s: State, i: nat, q: nat)
    requires i < |s.procs| && q < |s.procs| && (s.procs[i].pc == S5 || Elsewhere(s.procs[i].pc)) && ProcInv(s, q)
    ensures ProcInv(Wake(s, i), q)
  {
  }

  /** wakeup has dealt with entry i, which now does not doze. */
  lemma WakeupNext(s: State, p: nat, q: nat)
    requires p < |s.procs| && q < |s.procs| && s.procs[p].pc.W1? && ProcInv(s, p) && ProcInv(s, q)
    requires s.procs[p].pc.i < |s.procs| ==> !Dozing(s.procs[s.procs[p].pc.i])
    ensures ProcInv(SetPc(s, p, W2(s.procs[p].pc.i)), q)
  {
  }

  lemma KillNext(s: State, p: nat, q: nat)
    requires p < |s.procs| && q < |s.procs| && s.procs[p].pc.K1? && ProcInv(s, p) && ProcInv(s, q)
    ensures ProcInv(SetPc(s, p, K2(s.procs[p].pc.i)), q)
  {
  }

  lemma AcquireStep(s: State, p: nat, q: nat)
    requires Bounds(s) && Enabled(s, Move(p)) && q < |s.procs|
    requires s.procs[p].pc.A0? || s.procs[p].pc.A1? || s.procs[p].pc.A2?
    requires ProcInv(s, p) && ProcInv(s, q)
    ensures ProcInv(Do(s, Move(p)), q) && Bounds(Do(s, Move(p)))
  {
  }

  lemma SleepStep(s: State, p: nat, q: nat)
    requires Bounds(s) && Enabled(s, Move(p)) && q < |s.procs|
    requires s.procs[p].pc.S0? || s.procs[p].pc.S1? || s.procs[p].pc.S2?
    requires ProcInv(s, p) && ProcInv(s, q)
    ensures ProcInv(Do(s, Move(p)), q) && Bounds(Do(s, Move(p)))
  {
  }

  lemma FallAsleepStep(s: State, p: nat, q: nat)
    requires Bounds(s) && Enabled(s, Move(p)) && q < |s.procs|
    requires s.procs[p].pc.S3? || s.procs[p].pc.S4?
    requires ProcInv(s, p) && ProcInv(s, q)
    ensures ProcInv(Do(s, Move(p)), q) && Bounds(Do(s, Move(p)))
  {
  }

  lemma ResumeStep(s: State, p: nat, q: nat)
    requires Bounds(s) && Enabled(s, Move(p)) && q < |s.procs|
    requires s.procs[p].pc.S6? || s.procs[p].pc.S7?
    requires ProcInv(s, p) && ProcInv(s, q)
    ensures ProcInv(Do(s, Move(p)), q) && Bounds(Do(s, Move(p)))
  {
  }

  lemma ReleaseStep(s: State, p: nat, q: nat)
    requires Bounds(s) && Enabled(s, Move(p)) && q < |s.procs|
    requires s.procs[p].pc.R0? || s.procs[p].pc.R1?
    requires ProcInv(s, p) && ProcInv(s, q)
    ensures ProcInv(Do(s, Move(p)), q) && Bounds(Do(s, Move(p)))
  {
  }

  lemma WakeupStep0(s: State, p: nat, q: nat)
    requires Bounds(s) && Enabled(s, Move(p)) && q < |s.procs|
    requires s.procs[p].pc.W0?
    requires ProcInv(s, p) && ProcInv(s, q)
    requires s.procs[p].pc.i < |s.procs| ==> ProcInv(s, s.procs[p].pc.i)
    ensures ProcInv(Do(s, Move(p)), q) && Bounds(Do(s, Move(p)))
  {
    var i := s.procs[p].pc.i;
    if i < |s.procs| && i != p {
      LockStep(s, p, i, W1(i), q);
    }
  }

  lemma WakeupStep1(s: State, p: nat, q: nat)
    requires Bounds(s) && Enabled(s, Move(p)) && q < |s.procs|
    requires s.procs[p].pc.W1?
    requires ProcInv(s, p) && ProcInv(s, q)
    requires s.procs[p].pc.i < |s.procs| ==> ProcInv(s, s.procs[p].pc.i)
    ensures ProcInv(Do(s, Move(p)), q) && Bounds(Do(s, Move(p)))
  {
    var i := s.procs[p].pc.i;
    if i < |s.procs| && i != p {
      assert s.procs[i].plock == By(p);
      assert LockOf(s.procs[i].pc, i) != i;
    }
    if i < |s.procs| && SleepingOn(s.procs[i]) {
      var w := Wake(s, i);
      WakeKeeps(s, i, p);
      WakeKeeps(s, i, q);
      WakeKeeps(s, i, i);
      WakeupNext(w, p, q);
      assert Do(s, Move(p)) == SetPc(w, p, W2(i));
    } else {
      WakeupNext(s, p, q);
    }
  }

  lemma WakeupStep2(s: State, p: nat, q: nat)
    requires Bounds(s) && Enabled(s, Move(p)) && q < |s.procs|
    requires s.procs[p].pc.W2?
    requires ProcInv(s, p) && ProcInv(s, q)
    requires s.procs[p].pc.i < |s.procs| ==> ProcInv(s, s.procs[p].pc.i)
    ensures ProcInv(Do(s, Move(p)), q) && Bounds(Do(s, Move(p)))
  {
    var i := s.procs[p].pc.i;
    if i < |s.procs| {
      UnlockStep(s, p, i, W0(i + 1), q);
    }
  }

  lemma KillStep0(s: State, p: nat, q: nat)
    requires Bounds(s) && Enabled(s, Move(p)) && q < |s.procs|
    requires s.procs[p].pc.K0?
    requires ProcInv(s, p) && ProcInv(s, q)
    requires s.procs[p].pc.i < |s.procs| ==> ProcInv(s, s.procs[p].pc.i)
    ensures ProcInv(Do(s, Move(p)), q) && Bounds(Do(s, Move(p)))
  {
    var i := s.procs[p].pc.i;
    if i < |s.procs| {
      LockStep(s, p, i, K1(i), q);
    }
  }

  /** p takes the lock of entry i, which is free. */
  lemma LockStep(s: State, p: nat, i: nat, pc: Pc, q: nat)
    requires Bounds(s) && p < |s.procs| && q < |s.procs| && i < |s.procs| && s.procs[i].plock == Free
    requires (s.procs[p].pc == K0(i) && pc == K1(i)) || (s.procs[p].pc == W0(i) && pc == W1(i) && i != p)
    requires s.procs[p].state == RUNNING && ProcInv(s, p) && ProcInv(s, q) && ProcInv(s, i)
    ensures ProcInv(SetPc(SetLock(s, i, By(p)), p, pc), q)
  {
    var t := SetPc(SetLock(s, i, By(p)), p, pc);
    assert q != p && q != i ==> t.procs[q] == s.procs[q];
    assert Waker(s, q) ==> Waker(t, q);
  }

  /** p drops the lock of entry i. */
  lemma UnlockStep(s: State, p: nat, i: nat, pc: Pc, q: nat)
    requires Bounds(s) && p < |s.procs| && q < |s.procs| && i < |s.procs|
    requires (s.procs[p].pc == K2(i) && pc == Out) || (s.procs[p].pc == W2(i) && pc == W0(i + 1))
    requires s.procs[p].state == RUNNING && ProcInv(s, p) && ProcInv(s, q) && ProcInv(s, i)
    ensures ProcInv(SetPc(SetLock(s, i, Free), p, pc), q)
  {
    var t := SetPc(SetLock(s, i, Free), p, pc);
    assert q != p && q != i ==> t.procs[q] == s.procs[q];
    assert Waker(s, q) ==> Waker(t, q);
  }

  lemma KillStep1(s: State, p: nat, q: nat)
    requires Bounds(s) && Enabled(s, Move(p)) && q < |s.procs|
    requires s.procs[p].pc.K1?
    requires ProcInv(s, p) && ProcInv(s, q)
    requires s.procs[p].pc.i < |s.procs| ==> ProcInv(s, s.procs[p].pc.i)
    ensures ProcInv(Do(s, Move(p)), q) && Bounds(Do(s, Move(p)))
  {
    var i := s.procs[p].pc.i;
    if i < |s.procs| && i != p {
      assert s.procs[i].plock == By(p);
      assert LockOf(s.procs[i].pc, i) != i;
    }
    if i < |s.procs| && s.procs[i].state == SLEEPING {
      var w := Wake(s, i);
      WakeKeeps(s, i, p);
      WakeKeeps(s, i, q);
      WakeKeeps(s, i, i);
      KillNext(w, p, q);
      assert Do(s, Move(p)) == SetPc(w, p, K2(i));
    } else {
      KillNext(s, p, q);
    }
  }

  lemma KillStep2(s: State, p: nat, q: nat)
    requires Bounds(s) && Enabled(s, Move(p)) && q < |s.procs|
    requires s.procs[p].pc.K2?
    requires ProcInv(s, p) && ProcInv(s, q)
    requires s.procs[p].pc.i < |s.procs| ==> ProcInv(s, s.procs[p].pc.i)
    ensures ProcInv(Do(s, Move(p)), q) && Bounds(Do(s, Move(p)))
  {
    var i := s.procs[p].pc.i;
    if i < |s.procs| {
      UnlockStep(s, p, i, Out, q);
    }
  }

  lemma StartStep(s: State, st: Step, q: nat)
    requires Bounds(s) && Enabled(s, st) && (st.StartAcquire? || st.StartRelease? || st.StartKill?) && q < |s.procs|
    requires ProcInv(s, st.p) && ProcInv(s, q)
    ensures ProcInv(Do(s, st), q)
  {
  }

  lemma PreemptStep(s: State, p: nat, q: nat)
    requires Bounds(s) && Enabled(s, Preempt(p)) && q < |s.procs| && ProcInv(s, p) && ProcInv(s, q)
    ensures ProcInv(Do(s, Preempt(p)), q)
  {
  }

  lemma NapStep(s: State, p: nat, q: nat)
    requires Bounds(s) && Enabled(s, Nap(p)) && q < |s.procs| && ProcInv(s, p) && ProcInv(s, q)
    ensures ProcInv(Do(s, Nap(p)), q)
  {
  }

  lemma DispatchStep(s: State, p: nat, q: nat)
    requires Bounds(s) && Enabled(s, Dispatch(p)) && q < |s.procs| && ProcInv(s, p) && ProcInv(s, q)
    ensures ProcInv(Do(s, Dispatch(p)), q)
  {
  }

  lemma MoveStep(s: State, p: nat, q: nat)
    requires Inv(s) && Enabled(s, Move(p)) && q < |s.procs|
    ensures ProcInv(Do(s, Move(p)), q) && Bounds(Do(s, Move(p)))
  {
    assert ProcInv(s, p) && ProcInv(s, q);
    var pc := s.procs[p].pc;
    assert (pc.W0? || pc.W1? || pc.W2? || pc.K0? || pc.K1? || pc.K2?) && pc.i < |s.procs| ==> ProcInv(s, pc.i);
    if pc.A0? || pc.A1? || pc.A2? { AcquireStep(s, p, q); }
    else if pc.S0? || pc.S1? || pc.S2? { SleepStep(s, p, q); }
    else if pc.S3? || pc.S4? { FallAsleepStep(s, p, q); }
    else if pc.S6? || pc.S7? { ResumeStep(s, p, q); }
    else if pc.R0? || pc.R1? { ReleaseStep(s, p, q); }
    else if pc.W0? { WakeupStep0(s, p, q); }
    else if pc.W1? { WakeupStep1(s, p, q); }
    else if pc.W2? { WakeupStep2(s, p, q); }
    else if pc.K0? { KillStep0(s, p, q); }
    else if pc.K1? { KillStep1(s, p, q); }
    else { KillStep2(s, p, q); }
  }

  /** Every step keeps the invariant. */
  lemma StepInv(s: State, st: Step)
    requires Inv(s) && Enabled(s, st)
    ensures Inv(Do(s, st))
  {
    var t := Do(s, st);
    assert |t.procs| == |s.procs|;
    forall q | 0 <= q < |s.procs| ensures ProcInv(t, q) && Bounds(t) {
      if st.Move? {
        MoveStep(s, st.p, q);
      } else {
        assert ProcInv(s, st.p) && ProcInv(s, q);
        if st.Preempt? {
          PreemptStep(s, st.p, q);
        } else if st.Nap? {
          NapStep(s, st.p, q);
        } else if st.Rouse? {
          WakeKeeps(s, st.p, q);
        } else if st.Dispatch? {
          DispatchStep(s, st.p, q);
        } else {
          StartStep(s, st, q);
        }
      }
    }
    assert ProcInv(t, st.p);
  }

  // ---- Whole runs ---------------------------------------------------------------------

  ghost predicate Run(ss: seq<State>, steps: seq<Step>) {
    && |ss| == |steps| + 1
    && Init(ss[0])
    && forall i {:trigger Goes(ss, steps, i)} :: 0 <= i < |steps| ==> Goes(ss, steps, i)
  }

  ghost predicate Goes(ss: seq<State>, steps: seq<Step>, i: nat)
    requires i < |steps| && |ss| == |steps| + 1
  {
    Enabled(ss[i], steps[i]) && ss[i + 1] == Do(ss[i], steps[i])
  }

  lemma {:induction false} RunInv(ss: seq<State>, steps: seq<Step>, i: nat)
    requires Run(ss, steps) && i < |ss|
    ensures Inv(ss[i])
  {
    if i == 0 {
      InitInv(ss[0]);
    } else {
      RunInv(ss, steps, i - 1);
      assert Goes(ss, steps, i - 1);
      StepInv(ss[i - 1], steps[i - 1]);
    }
  }

  /** In every interleaving at most one process holds the sleep lock, and lk->pid names it. */
  lemma MutualExclusion(ss: seq<State>, steps: seq<Step>, i: nat, p: nat, q: nat)
    requires Run(ss, steps) && i < |ss| && p < |ss[i].procs| && q < |ss[i].procs|
    requires ss[i].procs[p].pc == Holding && ss[i].procs[q].pc == Holding
    ensures p == q && ss[i].locked && ss[i].pid == By(p)
  {
    RunInv(ss, steps, i);
    assert ProcInv(ss[i], p) && ProcInv(ss[i], q);
  }

  /** No lost wakeup: whenever the sleep lock is free and nobody holds its spin lock, no process
      is SLEEPING on it, although sleep drops the spin lock before it sets the state. */
  lemma NoLostWakeup(ss: seq<State>, steps: seq<Step>, i: nat, p: nat)
    requires Run(ss, steps) && i < |ss| && p < |ss[i].procs|
    requires !ss[i].locked && ss[i].lk == Free
    ensures !SleepingOn(ss[i].procs[p])
    ensures ss[i].procs[p].pc == S5 ==> ss[i].procs[p].state == RUNNABLE
  {
    RunInv(ss, steps, i);
    assert ProcInv(ss[i], p);
  }
}
