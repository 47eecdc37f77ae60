/** fork, exit, wait, reparent and kill (kernel/proc.c) as a step system: any number of processes,
one step per lock acquire, lock release or write to the process table, every interleaving.
Table entry 0 is initproc.  Outside this code a process may sleep on other channels. */
module ExitWait {
  const INIT: nat := 0

  datatype Owner = Free | By(p: nat)

  datatype Parent = Nobody | Is(p: nat)

  datatype ProcState = UNUSED | USED | SLEEPING | RUNNABLE | RUNNING | ZOMBIE

  /** The kernel code a process is in.  Off: no kernel thread (UNUSED, or being built by fork).
      User: in none of the code below. */
  datatype Op = Off | User | Forkret | Fork | Exit | Wait | Kill

  /** A program point: position `at` in the code of `op`, and the table entries being looked at.

      Forkret 0 awaits its first dispatch, 1 holds p->lock
      Fork    0 allocproc: acquire proc[i].lock    1 test proc[i].state      2 release it
              3 acquire wait_lock                  4 set proc[i].parent      5 release wait_lock
              6 acquire proc[i].lock               7 set it RUNNABLE         8 release it
      Exit    0 acquire wait_lock                  1 reparent at i
              2-4 wakeup(initproc) at j, for the child i just given away
              5-7 wakeup(p->parent) at j           (acquire, test and set, release proc[j].lock)
              8 acquire p->lock                    9 become ZOMBIE          10 release wait_lock
              11 the scheduler releases p->lock   12 off the CPU for good
      Wait    0 acquire wait_lock                  1 scan at i
              2 acquire proc[i].lock               3 test for ZOMBIE, free   4 release it
              5 release wait_lock
              6 sleep: acquire p->lock             7 release wait_lock       8 set p->chan
              9 become SLEEPING                   10 the scheduler releases p->lock
              11 off the CPU                      12 dispatched: clear p->chan   13 release p->lock
      Kill    0 acquire proc[i].lock               1 wake it if SLEEPING     2 release it */
  datatype Pc = Pc(op: Op, at: nat, i: nat, j: nat, kids: bool) {
    function Go(k: nat): Pc {
      this.(at := k)
    }
    predicate Is(o: Op, k: nat) {
      op == o && at == k
    }
    predicate In(o: Op, lo: nat, hi: nat) {
      op == o && lo <= at <= hi
    }
  }

  function Start(o: Op, i: nat): Pc {
    Pc(o, 0, i, 0, false)
  }

  /** The owner of wait_lock and the process table, one sequence per field; `pc` is where the
      process's kernel thread is.  `onChan`: p->chan is p itself.  `maker` records which fork built
      the entry. */
  datatype State = State(
    wl: Owner, pc: seq<Pc>, state: seq<ProcState>, parent: seq<Parent>,
    onChan: seq<bool>, plock: seq<Owner>, maker: seq<nat>)
  {
    function N(): nat {
      |pc|
    }
    predicate Sized() {
      && |pc| == |state| == |parent| == |onChan| == |plock| == |maker|
      && |pc| > INIT
    }
  }

  datatype Step =
    | Move(p: nat)                   // p executes its next step
    | Call(p: nat, op: Op, i: nat)   // p enters fork, exit, wait or kill(proc[i])
    | AllocFails(p: nat)             // fork: no memory for the new process
    | CopyFails(p: nat)              // wait: copyout of the exit status fails
    | GiveUp(p: nat)                 // wait: killed(p) after the scan
    | Preempt(p: nat)                // timer: yield, while p holds no spin lock
    | Dispatch(p: nat)               // scheduler picks p
    | Nap(p: nat)                    // p goes to sleep on some other channel
    | Rouse(p: nat)                  // somebody wakes it there

  predicate HoldsWait(pc: Pc) {
    pc.In(Fork, 4, 5) || pc.In(Exit, 1, 10) || pc.In(Wait, 1, 7)
  }

  /** The entry whose p->lock a process with index p holds, or -1. */
  function LockOf(pc: Pc, p: nat): int {
    if pc.In(Fork, 1, 2) || pc.In(Fork, 7, 8) || pc.In(Wait, 3, 4) || pc.In(Kill, 1, 2) then pc.i
    else if pc.In(Exit, 3, 4) || pc.In(Exit, 6, 7) then pc.j
    else if pc.In(Exit, 9, 11) || pc.In(Wait, 7, 10) || pc.In(Wait, 12, 13) || pc.Is(Forkret, 1) then p
    else -1
  }

  /** Running with no spin lock held, so a timer interrupt can preempt. */
  predicate SpinFree(pc: Pc) {
    pc.op == User || pc.Is(Fork, 0) || pc.Is(Fork, 3) || pc.Is(Fork, 6) || pc.Is(Exit, 0) || pc.Is(Wait, 0)
      || pc.Is(Kill, 0)
  }

  /** No CPU executes the process. */
  predicate OffCpu(pc: Pc) {
    pc.op == Off || pc.Is(Forkret, 0) || pc.Is(Exit, 12) || pc.Is(Wait, 11)
  }

  predicate IsFree(s: State, q: nat)
    requires s.Sized()
  {
    q < s.N() ==> s.plock[q] == Free
  }

  /** The lock that the next step acquires, if any, is free. */
  predicate CanGo(s: State, p: nat)
    requires s.Sized() && p < s.N()
  {
    var pc := s.pc[p];
    && (pc.Is(Fork, 3) || pc.Is(Exit, 0) || pc.Is(Wait, 0) ==> s.wl == Free)
    && (pc.Is(Fork, 0) || pc.Is(Fork, 6) || pc.Is(Wait, 2) || pc.Is(Kill, 0) ==> IsFree(s, pc.i))
    && (pc.Is(Exit, 2) || pc.Is(Exit, 5) ==> pc.j == p || IsFree(s, pc.j))
    && (pc.Is(Exit, 8) || pc.Is(Wait, 6) ==> IsFree(s, p))
  }

  predicate Enabled(s: State, st: Step) {
    && s.Sized() && st.p < s.N()
    && var pc, state := s.pc[st.p], s.state[st.p];
    match st
    case Move(p) =>
      pc.op != User && !OffCpu(pc) && CanGo(s, p)
      && (state == RUNNING || pc.In(Exit, 10, 11) || pc.Is(Wait, 10))
    case Call(p, op, _) =>
      pc.op == User && state == RUNNING && (op == Fork || op == Exit || op == Wait || op == Kill)
      && (op == Exit ==> p != INIT)
    case AllocFails(_) => pc.Is(Fork, 2) && pc.i < s.N()
    case CopyFails(_) => pc.Is(Wait, 3) && pc.i < s.N() && s.state[pc.i] == ZOMBIE
    case GiveUp(_) => pc.Is(Wait, 1) && pc.i >= s.N()
    case Preempt(p) => SpinFree(pc) && state == RUNNING && s.plock[p] == Free
    case Dispatch(p) => state == RUNNABLE && s.plock[p] == Free
    case Nap(p) => pc.op == User && state == RUNNING && s.plock[p] == Free
    case Rouse(p) => pc.op == User && state == SLEEPING && s.plock[p] == Free
  }

  // ---- Effects --------------------------------------------------------------------------

  function Goto(s: State, p: nat, pc: Pc): State
    requires s.Sized() && p < s.N()
  {
    s.(pc := s.pc[p := pc])
  }

  function SetLock(s: State, q: nat, o: Owner): State
    requires s.Sized()
  {
    if q < s.N() then s.(plock := s.plock[q := o]) else s
  }

  function SetState(s: State, q: nat, x: ProcState): State
    requires s.Sized()
  {
    if q < s.N() then s.(state := s.state[q := x]) else s
  }

  function SetParent(s: State, q: nat, x: Parent): State
    requires s.Sized()
  {
    if q < s.N() then s.(parent := s.parent[q := x]) else s
  }

  /** allocproc takes an UNUSED entry. */
  function Claim(s: State, q: nat, p: nat): State
    requires s.Sized() && q < s.N()
  {
    s.(state := s.state[q := USED], maker := s.maker[q := p])
  }

  /** freeproc: the entry becomes UNUSED. */
  function FreeProc(s: State, q: nat): State
    requires s.Sized() && q < s.N()
  {
    s.(state := s.state[q := UNUSED], parent := s.parent[q := Nobody], onChan := s.onChan[q := false],
       pc := s.pc[q := Start(Off, 0)])
  }

  /** fork makes the new process RUNNABLE; its context starts in forkret. */
  function Launch(s: State, q: nat): State
    requires s.Sized() && q < s.N()
  {
    s.(state := s.state[q := RUNNABLE], pc := s.pc[q := Start(Forkret, 0)])
  }

  /** wakeup(chan) looking at entry j, where chan is process x: only x sleeps on it. */
  function WakeOne(s: State, j: nat, x: Parent): State
    requires s.Sized()
  {
    if j < s.N() && s.state[j] == SLEEPING && s.onChan[j] && x == Parent.Is(j) then SetState(s, j, RUNNABLE) else s
  }

  function ForkStep(s: State, p: nat): (t: State)
    requires s.Sized() && p < s.N()
    ensures t.Sized() && t.N() == s.N()
  {
    var n, pc := s.N(), s.pc[p];
    var i := pc.i;
    if pc.at == 0 then
      if i >= n then Goto(s, p, Start(User, 0)) else Goto(SetLock(s, i, By(p)), p, pc.Go(1))
    else if pc.at == 1 then
      if i < n && s.state[i] == UNUSED then Goto(Claim(s, i, p), p, pc.Go(2))
      else Goto(SetLock(s, i, Free), p, Start(Fork, i + 1))
    else if pc.at == 2 then Goto(SetLock(s, i, Free), p, pc.Go(3))
    else if pc.at == 3 then Goto(s.(wl := By(p)), p, pc.Go(4))
    else if pc.at == 4 then Goto(SetParent(s, i, Parent.Is(p)), p, pc.Go(5))
    else if pc.at == 5 then Goto(s.(wl := Free), p, pc.Go(6))
    else if pc.at == 6 then Goto(SetLock(s, i, By(p)), p, pc.Go(7))
    else if pc.at == 7 && i < n then Goto(Launch(s, i), p, pc.Go(8))
    else Goto(SetLock(s, i, Free), p, Start(User, 0))
  }

  /** exit up to the end of reparent. */
  function ReparentStep(s: State, p: nat): (t: State)
    requires s.Sized() && p < s.N()
    ensures t.Sized() && t.N() == s.N()
  {
    var n, pc := s.N(), s.pc[p];
    var i, j := pc.i, pc.j;
    if pc.at == 0 then Goto(s.(wl := By(p)), p, pc.Go(1).(i := 0))
    else if pc.at == 1 then
      if i >= n then Goto(s, p, pc.Go(5).(j := 0))
      else if s.parent[i] == Parent.Is(p) then Goto(SetParent(s, i, Parent.Is(INIT)), p, pc.Go(2).(j := 0))
      else Goto(s, p, pc.(i := i + 1))
    else if pc.at == 2 then
      if j >= n then Goto(s, p, pc.Go(1).(i := i + 1))
      else if j == p then Goto(s, p, pc.(j := j + 1))
      else Goto(SetLock(s, j, By(p)), p, pc.Go(3))
    else if pc.at == 3 then Goto(WakeOne(s, j, Parent.Is(INIT)), p, pc.Go(4))
    else Goto(SetLock(s, j, Free), p, pc.Go(2).(j := j + 1))
  }

  /** The rest of exit. */
  function DieStep(s: State, p: nat): (t: State)
    requires s.Sized() && p < s.N()
    ensures t.Sized() && t.N() == s.N()
  {
    var n, pc := s.N(), s.pc[p];
    var j := pc.j;
    if pc.at == 5 then
      if j >= n then Goto(s, p, pc.Go(8))
      else if j == p then Goto(s, p, pc.(j := j + 1))
      else Goto(SetLock(s, j, By(p)), p, pc.Go(6))
    else if pc.at == 6 then Goto(WakeOne(s, j, s.parent[p]), p, pc.Go(7))
    else if pc.at == 7 then Goto(SetLock(s, j, Free), p, pc.Go(5).(j := j + 1))
    else if pc.at == 8 then Goto(SetLock(s, p, By(p)), p, pc.Go(9))
    else if pc.at == 9 then Goto(SetState(s, p, ZOMBIE), p, pc.Go(10))
    else if pc.at == 10 then Goto(s.(wl := Free), p, pc.Go(11))
    else Goto(SetLock(s, p, Free), p, pc.Go(12))
  }

  function WaitStep(s: State, p: nat): (t: State)
    requires s.Sized() && p < s.N()
    ensures t.Sized() && t.N() == s.N()
  {
    var n, pc := s.N(), s.pc[p];
    var i := pc.i;
    if pc.at == 0 then Goto(s.(wl := By(p)), p, pc.Go(1).(i := 0, kids := false))
    else if pc.at == 1 then
      if i >= n then Goto(s, p, pc.Go(if pc.kids then 6 else 5))
      else if s.parent[i] == Parent.Is(p) then Goto(s, p, pc.Go(2))
      else Goto(s, p, pc.(i := i + 1))
    else if pc.at == 2 then Goto(SetLock(s, i, By(p)), p, pc.Go(3))
    else if pc.at == 3 then
      if i < n && s.state[i] == ZOMBIE then Goto(FreeProc(s, i), p, pc.Go(4))
      else Goto(SetLock(s, i, Free), p, pc.Go(1).(i := i + 1, kids := true))
    else if pc.at == 4 then Goto(SetLock(s, i, Free), p, pc.Go(5))
    else Goto(s.(wl := Free), p, Start(User, 0))
  }

  /** sleep(p, &wait_lock), called from wait. */
  function SleepStep(s: State, p: nat): (t: State)
    requires s.Sized() && p < s.N()
    ensures t.Sized() && t.N() == s.N()
  {
    var pc := s.pc[p];
    if pc.at == 6 then Goto(SetLock(s, p, By(p)), p, pc.Go(7))
    else if pc.at == 7 then Goto(s.(wl := Free), p, pc.Go(8))
    else if pc.at == 8 then Goto(s.(onChan := s.onChan[p := true]), p, pc.Go(9))
    else if pc.at == 9 then Goto(SetState(s, p, SLEEPING), p, pc.Go(10))
    else if pc.at == 10 then Goto(SetLock(s, p, Free), p, pc.Go(11))
    else if pc.at == 12 then Goto(s.(onChan := s.onChan[p := false]), p, pc.Go(13))
    else Goto(SetLock(s, p, Free), p, pc.Go(0))
  }

  function KillStep(s: State, p: nat): (t: State)
    requires s.Sized() && p < s.N()
    ensures t.Sized() && t.N() == s.N()
  {
    var n, pc := s.N(), s.pc[p];
    var i := pc.i;
    if pc.at == 0 then
      if i >= n then Goto(s, p, Start(User, 0)) else Goto(SetLock(s, i, By(p)), p, pc.Go(1))
    else if pc.at == 1 then
      Goto(if i < n && s.state[i] == SLEEPING then SetState(s, i, RUNNABLE) else s, p, pc.Go(2))
    else Goto(SetLock(s, i, Free), p, Start(User, 0))
  }

  function Do(s: State, st: Step): (t: State)
    requires Enabled(s, st)
    ensures t.Sized() && t.N() == s.N()
  {
    var pc := s.pc[st.p];
    match st
    case Move(p) =>
      (match pc.op
       case Fork => ForkStep(s, p)
       case Exit => if pc.at <= 4 then ReparentStep(s, p) else DieStep(s, p)
       case Wait => if pc.at <= 5 then WaitStep(s, p) else SleepStep(s, p)
       case Kill => KillStep(s, p)
       case Forkret => Goto(SetLock(s, p, Free), p, Start(User, 0)))
    case Call(p, op, i) => Goto(s, p, Start(op, if op == Kill then i else 0))
    case AllocFails(p) => Goto(FreeProc(s, pc.i), p, pc.Go(8))
    case CopyFails(p) => Goto(s, p, pc.Go(4))
    case GiveUp(p) => Goto(s, p, pc.Go(5))
    case Preempt(p) => SetState(s, p, RUNNABLE)
    case Dispatch(p) =>
      if pc.Is(Wait, 11) || pc.Is(Forkret, 0)
      then Goto(SetLock(SetState(s, p, RUNNING), p, By(p)), p, pc.Go(pc.at + 1))
      else SetState(s, p, RUNNING)
    case Nap(p) => SetState(s, p, SLEEPING)
    case Rouse(p) => SetState(s, p, RUNNABLE)
  }

  /** After userinit: initproc is runnable, every other entry is unused. */
  predicate Init(s: State) {
    && s.wl == Free && s.Sized()
    && s.pc[INIT] == Start(Forkret, 0) && s.state[INIT] == RUNNABLE
    && (forall q :: 0 <= q < s.N() && q != INIT ==> s.pc[q] == Start(Off, 0) && s.state[q] == UNUSED)
    && (forall q :: 0 <= q < s.N() ==> s.parent[q] == Nobody && !s.onChan[q] && s.plock[q] == Free)
  }

  // ---- The invariant ----------------------------------------------------------------------

  /** State and channel fit the pc. */
  predicate PcOk(pc: Pc, state: ProcState, onChan: bool) {
    && (pc.op == Off <==> state == UNUSED || state == USED)
    && (pc.op == Exit && pc.at >= 10 <==> state == ZOMBIE)
    && (state == SLEEPING ==> pc.In(Wait, 10, 11) || pc.op == User)
    && (pc.Is(Wait, 10) ==> state == SLEEPING)
    && (pc.In(Wait, 9, 11) ==> onChan) && (onChan ==> pc.In(Wait, 9, 12))
    && (pc.Is(Wait, 11) || pc.Is(Forkret, 0) ==> state != RUNNING)
    && (state == RUNNABLE ==> pc.Is(Wait, 11) || pc.Is(Forkret, 0) || SpinFree(pc))
    && (pc.op == Fork ==> pc.at <= 8) && (pc.op == Exit ==> pc.at <= 12) && (pc.op == Wait ==> pc.at <= 13)
    && (pc.op == Kill ==> pc.at <= 2) && (pc.op == Forkret ==> pc.at <= 1)
  }

  /** Process q holds the spin locks that its pc says, and each is held by one process. */
  ghost predicate SpinOk(s: State, q: nat)
    requires s.Sized() && q < s.N()
  {
    var x := LockOf(s.pc[q], q);
    && (HoldsWait(s.pc[q]) <==> s.wl == By(q))
    && x < s.N() && (0 <= x ==> s.plock[x] == By(q))
    && (s.plock[q].By? ==> var r := s.plock[q].p; r < s.N() && LockOf(s.pc[r], r) == q)
  }

  /** An entry under construction belongs to one fork, and has a parent once fork has set it;
      an entry that wait looks at is a child of the waiter. */
  ghost predicate LooksOk(s: State, q: nat, pc: Pc)
    requires s.Sized()
  {
    && (pc.In(Fork, 2, 7) ==>
          pc.i < s.N() && s.state[pc.i] == USED && s.maker[pc.i] == q && (s.parent[pc.i] == Nobody <==> pc.at <= 4))
    && (pc.In(Wait, 2, 3) ==> pc.i < s.N() && s.parent[pc.i] == Parent.Is(q))
  }

  ghost predicate FamilyOk(s: State, q: nat, pc: Pc)
    requires s.Sized() && q < s.N()
  {
    && (s.parent[q].Is? ==> s.parent[q].p < s.N())
    && (s.state[q] == UNUSED ==> s.parent[q] == Nobody)
    && (q != INIT && pc.op != Off ==> s.parent[q].Is?)
    && (q == INIT ==> pc.op != Exit && pc.op != Off)
  }

  ghost predicate ProcInv(s: State, q: nat)
    requires s.Sized() && q < s.N()
  {
    SpinOk(s, q) && PcOk(s.pc[q], s.state[q], s.onChan[q]) && LooksOk(s, q, s.pc[q]) && FamilyOk(s, q, s.pc[q])
  }

  /** x has decided to sleep in wait, or sleeps there, and has not been woken. */
  predicate Dozing(pc: Pc, state: ProcState) {
    pc.In(Wait, 8, 10) || (pc.Is(Wait, 11) && state == SLEEPING)
  }

  /** wakeup(initproc), inside reparent, has not yet passed x, which is initproc. */
  predicate WillWakeInit(pc: Pc, x: nat) {
    x == INIT && pc.In(Exit, 2, 4) && (pc.at <= 3 ==> pc.j <= x) && (pc.at == 4 ==> pc.j < x)
  }

  /** The holder of wait_lock has just given a child to initproc and will still wake it. */
  ghost predicate InitWaker(s: State, x: nat) {
    s.wl.By? && s.wl.p < s.N() && WillWakeInit(s.pc[s.wl.p], x)
  }

  /** c's exit has passed x in wakeup(p->parent) and has not yet become ZOMBIE. */
  predicate HasWoken(pc: Pc, x: nat) {
    pc.In(Exit, 8, 9) || (pc.In(Exit, 5, 6) && pc.j > x) || (pc.Is(Exit, 7) && pc.j >= x)
  }

  /** A process at this pc may be the parent of entry c: it runs, and reparent has not passed c. */
  predicate MayHaveChild(pc: Pc, c: nat) {
    pc.op != Off && (pc.op == Exit ==> pc.at <= 4 && (pc.at == 1 ==> c >= pc.i) && (pc.at >= 2 ==> c > pc.i))
  }

  /** wait's scan has found c not to be a zombie, and still holds wait_lock. */
  predicate HasChecked(pc: Pc, c: nat) {
    (pc.In(Wait, 1, 3) && c < pc.i) || pc.In(Wait, 6, 7)
  }

  /** What holds between a process x and a child c of it. */
  ghost predicate ChildInv(s: State, x: nat, c: nat)
    requires s.Sized() && x < s.N() && c < s.N()
  {
    s.parent[c] == Parent.Is(x) ==>
      && MayHaveChild(s.pc[x], c)
      && (HasChecked(s.pc[x], c) ==> s.state[c] != ZOMBIE)
      && (HasWoken(s.pc[c], x) ==> !Dozing(s.pc[x], s.state[x]))
      && (s.state[c] == ZOMBIE && Dozing(s.pc[x], s.state[x]) ==> InitWaker(s, x))
  }

  ghost predicate Bounds(s: State) {
    s.Sized() && (s.wl.By? ==> s.wl.p < s.N())
  }

  ghost predicate Inv(s: State) {
    && Bounds(s)
    && (forall q :: 0 <= q < s.N() ==> ProcInv(s, q))
    && (forall x, c :: 0 <= x < s.N() && 0 <= c < s.N() ==> ChildInv(s, x, c))
  }

  lemma InitInv(s: State)
    requires Init(s)
    ensures Inv(s)
  {
  }

  // ---- Kinds of steps: locks and program points ---------------------------------------------

  /** Apart from locks, process p could be at `pc`. */
  ghost predicate Fits(s: State, p: nat, pc: Pc)
    requires s.Sized() && p < s.N()
  {
    PcOk(pc, s.state[p], s.onChan[p]) && LooksOk(s, p, pc) && FamilyOk(s, p, pc)
  }

  lemma Acquires(s: State, p: nat, i: nat, pc: Pc, q: nat)
    requires Bounds(s) && p < s.N() && i < s.N() && q < s.N() && s.plock[i] == Free
    requires LockOf(s.pc[p], p) == -1 && LockOf(pc, p) == i && HoldsWait(pc) == HoldsWait(s.pc[p])
    requires ProcInv(s, p) && ProcInv(s, q) && Fits(s, p, pc)
    ensures ProcInv(Goto(SetLock(s, i, By(p)), p, pc), q)
  {
  }

  lemma Releases(s: State, p: nat, i: nat, pc: Pc, q: nat)
    requires Bounds(s) && p < s.N() && i < s.N() && q < s.N()
    requires LockOf(s.pc[p], p) == i && LockOf(pc, p) == -1 && HoldsWait(pc) == HoldsWait(s.pc[p])
    requires ProcInv(s, p) && ProcInv(s, q) && Fits(s, p, pc)
    ensures ProcInv(Goto(SetLock(s, i, Free), p, pc), q)
  {
  }

  lemma TakesWait(s: State, p: nat, pc: Pc, q: nat)
    requires Bounds(s) && p < s.N() && q < s.N() && s.wl == Free
    requires LockOf(pc, p) == LockOf(s.pc[p], p) && HoldsWait(pc)
    requires ProcInv(s, p) && ProcInv(s, q) && Fits(s, p, pc)
    ensures ProcInv(Goto(s.(wl := By(p)), p, pc), q)
  {
  }

  lemma DropsWait(s: State, p: nat, pc: Pc, q: nat)
    requires Bounds(s) && p < s.N() && q < s.N()
    requires LockOf(pc, p) == LockOf(s.pc[p], p) && HoldsWait(s.pc[p]) && !HoldsWait(pc)
    requires ProcInv(s, p) && ProcInv(s, q) && Fits(s, p, pc)
    ensures ProcInv(Goto(s.(wl := Free), p, pc), q)
  {
  }

  lemma Moves(s: State, p: nat, pc: Pc, q: nat)
    requires Bounds(s) && p < s.N() && q < s.N()
    requires LockOf(pc, p) == LockOf(s.pc[p], p) && HoldsWait(pc) == HoldsWait(s.pc[p])
    requires ProcInv(s, p) && ProcInv(s, q) && Fits(s, p, pc)
    ensures ProcInv(Goto(s, p, pc), q)
  {
  }

  // ---- Kinds of steps: writes to the table ----------------------------------------------------

  /** A waker holds the lock of the sleeper it wakes, which is therefore off the CPU. */
  lemma Wakes(s: State, p: nat, j: nat, q: nat)
    requires Bounds(s) && p < s.N() && j < s.N() && q < s.N()
    requires LockOf(s.pc[p], p) == j && s.state[j] == SLEEPING && s.state[p] != SLEEPING
    requires ProcInv(s, p) && ProcInv(s, q) && ProcInv(s, j)
    ensures ProcInv(SetState(s, j, RUNNABLE), q)
  {
  }

  /** A process writes its own state, keeping its locks. */
  lemma Becomes(s: State, p: nat, x: ProcState, pc: Pc, q: nat)
    requires Bounds(s) && p < s.N() && q < s.N() && ProcInv(s, p) && ProcInv(s, q)
    requires LockOf(pc, p) == LockOf(s.pc[p], p) && HoldsWait(pc) == HoldsWait(s.pc[p])
    requires s.state[p] != USED && x != USED && x != UNUSED && pc.op == s.pc[p].op && !pc.In(Wait, 2, 3)
             && pc.op != Fork
    requires PcOk(pc, x, s.onChan[p])
    ensures ProcInv(Goto(SetState(s, p, x), p, pc), q)
  {
  }

  /** A process writes its own channel. */
  lemma SetsChan(s: State, p: nat, b: bool, pc: Pc, q: nat)
    requires Bounds(s) && p < s.N() && q < s.N() && ProcInv(s, p) && ProcInv(s, q)
    requires LockOf(pc, p) == LockOf(s.pc[p], p) && HoldsWait(pc) == HoldsWait(s.pc[p])
    requires pc.op == s.pc[p].op && !pc.In(Wait, 2, 3) && pc.op != Fork && PcOk(pc, s.state[p], b)
    ensures ProcInv(Goto(s.(onChan := s.onChan[p := b]), p, pc), q)
  {
  }

  lemma Claims(s: State, p: nat, i: nat, q: nat)
    requires Bounds(s) && p < s.N() && i < s.N() && q < s.N() && s.pc[p].Is(Fork, 1) && s.pc[p].i == i
    requires s.state[i] == UNUSED && ProcInv(s, p) && ProcInv(s, q) && ProcInv(s, i)
    ensures ProcInv(Goto(Claim(s, i, p), p, s.pc[p].Go(2)), q)
  {
  }

  /** fork sets the parent of the entry it builds, while holding wait_lock. */
  lemma Adopts(s: State, p: nat, i: nat, q: nat)
    requires Bounds(s) && p < s.N() && i < s.N() && q < s.N() && s.pc[p].Is(Fork, 4) && s.pc[p].i == i
    requires ProcInv(s, p) && ProcInv(s, q) && ProcInv(s, i)
    ensures ProcInv(Goto(SetParent(s, i, Parent.Is(p)), p, s.pc[p].Go(5)), q)
  {
  }

  /** reparent gives a child to initproc, while holding wait_lock. */
  lemma GivesAway(s: State, p: nat, i: nat, q: nat)
    requires Bounds(s) && p < s.N() && i < s.N() && q < s.N() && s.pc[p].Is(Exit, 1) && s.parent[i].Is?
    requires ProcInv(s, p) && ProcInv(s, q) && ProcInv(s, i)
    ensures ProcInv(Goto(SetParent(s, i, Parent.Is(INIT)), p, s.pc[p].Go(2).(j := 0)), q)
  {
  }

  lemma Launches(s: State, p: nat, i: nat, q: nat)
    requires Bounds(s) && p < s.N() && i < s.N() && q < s.N() && s.pc[p].Is(Fork, 7) && s.pc[p].i == i
    requires ProcInv(s, p) && ProcInv(s, q) && ProcInv(s, i)
    ensures ProcInv(Goto(Launch(s, i), p, s.pc[p].Go(8)), q)
  {
  }

  /** freeproc by wait: the child is a zombie, and off the CPU because the waiter got its lock. */
  lemma Reaps(s: State, p: nat, i: nat, q: nat)
    requires Bounds(s) && p < s.N() && i < s.N() && q < s.N() && s.pc[p].Is(Wait, 3) && s.pc[p].i == i
    requires s.state[i] == ZOMBIE && ProcInv(s, p) && ProcInv(s, q) && ProcInv(s, i)
    ensures OffCpu(s.pc[i])
    ensures ProcInv(Goto(FreeProc(s, i), p, s.pc[p].Go(4)), q)
  {
  }

  /** freeproc by fork, of the entry it was building. */
  lemma Unbuilds(s: State, p: nat, i: nat, q: nat)
    requires Bounds(s) && p < s.N() && i < s.N() && q < s.N() && s.pc[p].Is(Fork, 2) && s.pc[p].i == i
    requires ProcInv(s, p) && ProcInv(s, q) && ProcInv(s, i)
    ensures ProcInv(Goto(FreeProc(s, i), p, s.pc[p].Go(8)), q)
  {
  }

  // ---- The steps, one kernel function at a time ------------------------------------------------

  /** The invariant of the processes that a step of p involves: p itself, q, and the entries it looks at. */
  ghost predicate Near(s: State, p: nat, q: nat) {
    && Bounds(s) && p < s.N() && q < s.N()
    && ProcInv(s, p) && ProcInv(s, q)
    && (s.pc[p].i < s.N() ==> ProcInv(s, s.pc[p].i))
    && (s.pc[p].j < s.N() ==> ProcInv(s, s.pc[p].j))
  }

  lemma ForkScanProc(s: State, p: nat, q: nat)
    requires Enabled(s, Move(p)) && s.pc[p].Is(Fork, 0) && Near(s, p, q)
    ensures ProcInv(ForkStep(s, p), q)
  {
    var pc := s.pc[p];
    if pc.i < s.N() { Acquires(s, p, pc.i, pc.Go(1), q); } else { Moves(s, p, Start(User, 0), q); }
  }

  lemma ForkTestProc(s: State, p: nat, q: nat)
    requires Enabled(s, Move(p)) && s.pc[p].Is(Fork, 1) && Near(s, p, q)
    ensures ProcInv(ForkStep(s, p), q)
  {
    var i := s.pc[p].i;
    if s.state[i] == UNUSED {
      assert ForkStep(s, p) == Goto(Claim(s, i, p), p, s.pc[p].Go(2));
      Claims(s, p, i, q);
    } else {
      assert ForkStep(s, p) == Goto(SetLock(s, i, Free), p, Start(Fork, i + 1));
      ForkPasses(s, p, i, q);
    }
  }

  lemma ForkPasses(s: State, p: nat, i: nat, q: nat)
    requires Near(s, p, q) && s.pc[p].Is(Fork, 1) && i == s.pc[p].i && s.state[p] == RUNNING
    ensures ProcInv(Goto(SetLock(s, i, Free), p, Start(Fork, i + 1)), q)
  {
    Releases(s, p, i, Start(Fork, i + 1), q);
  }

  lemma ForkBuildProc(s: State, p: nat, q: nat)
    requires Enabled(s, Move(p)) && s.pc[p].In(Fork, 2, 4) && Near(s, p, q)
    ensures ProcInv(ForkStep(s, p), q)
  {
    var pc := s.pc[p];
    if pc.at == 2 {
      Releases(s, p, pc.i, pc.Go(3), q);
    } else if pc.at == 3 {
      TakesWait(s, p, pc.Go(4), q);
    } else {
      Adopts(s, p, pc.i, q);
    }
  }

  lemma ForkRunProc(s: State, p: nat, q: nat)
    requires Enabled(s, Move(p)) && s.pc[p].In(Fork, 5, 8) && Near(s, p, q)
    ensures ProcInv(ForkStep(s, p), q)
  {
    if s.pc[p].at <= 6 {
      ForkReadyProc(s, p, q);
    } else {
      ForkLaunchProc(s, p, q);
    }
  }

  lemma ForkLaunchProc(s: State, p: nat, q: nat)
    requires Enabled(s, Move(p)) && s.pc[p].In(Fork, 7, 8) && Near(s, p, q)
    ensures ProcInv(ForkStep(s, p), q)
  {
    if s.pc[p].at == 7 {
      Launches(s, p, s.pc[p].i, q);
    } else {
      Releases(s, p, s.pc[p].i, Start(User, 0), q);
    }
  }

  lemma ForkReadyProc(s: State, p: nat, q: nat)
    requires Enabled(s, Move(p)) && s.pc[p].In(Fork, 5, 6) && Near(s, p, q)
    ensures ProcInv(ForkStep(s, p), q)
  {
    var pc := s.pc[p];
    if pc.at == 5 {
      DropsWait(s, p, pc.Go(6), q);
    } else {
      Acquires(s, p, pc.i, pc.Go(7), q);
    }
  }

  lemma ReparentProc(s: State, p: nat, q: nat)
    requires Enabled(s, Move(p)) && s.pc[p].In(Exit, 0, 1) && Near(s, p, q)
    ensures ProcInv(ReparentStep(s, p), q)
  {
    if s.pc[p].at == 0 {
      TakesWait(s, p, s.pc[p].Go(1).(i := 0), q);
    } else {
      ReparentScanProc(s, p, q);
    }
  }

  lemma ReparentScanProc(s: State, p: nat, q: nat)
    requires Enabled(s, Move(p)) && s.pc[p].Is(Exit, 1) && Near(s, p, q)
    ensures ProcInv(ReparentStep(s, p), q)
  {
    var pc := s.pc[p];
    if pc.i >= s.N() {
      ReparentMoves(s, p, pc.Go(5).(j := 0), q);
    } else if s.parent[pc.i] == Parent.Is(p) {
      GivesAway(s, p, pc.i, q);
    } else {
      ReparentMoves(s, p, pc.(i := pc.i + 1), q);
    }
  }

  lemma ReparentMoves(s: State, p: nat, pc: Pc, q: nat)
    requires Enabled(s, Move(p)) && s.pc[p].Is(Exit, 1) && Near(s, p, q) && (pc.Is(Exit, 1) || pc.Is(Exit, 5))
    ensures ProcInv(Goto(s, p, pc), q)
  {
    Moves(s, p, pc, q);
  }

  lemma WakeInitProc(s: State, p: nat, q: nat)
    requires Enabled(s, Move(p)) && s.pc[p].In(Exit, 2, 4) && Near(s, p, q)
    ensures ProcInv(ReparentStep(s, p), q)
  {
    if s.pc[p].at == 2 {
      WakeInitScanProc(s, p, q);
    } else if s.pc[p].at == 3 {
      WakesInitProc(s, p, q);
    } else {
      WakeInitReleases(s, p, q);
    }
  }

  lemma WakesInitProc(s: State, p: nat, q: nat)
    requires Enabled(s, Move(p)) && s.pc[p].Is(Exit, 3) && Near(s, p, q)
    ensures ProcInv(ReparentStep(s, p), q)
  {
    WakeOneProc(s, p, s.pc[p].j, Parent.Is(INIT), s.pc[p].Go(4), q);
  }

  lemma WakeInitScanProc(s: State, p: nat, q: nat)
    requires Enabled(s, Move(p)) && s.pc[p].Is(Exit, 2) && Near(s, p, q)
    ensures ProcInv(ReparentStep(s, p), q)
  {
    var n, pc := s.N(), s.pc[p];
    if pc.j >= n {
      assert ReparentStep(s, p) == Goto(s, p, pc.Go(1).(i := pc.i + 1));
      WakeInitMoves(s, p, pc.Go(1).(i := pc.i + 1), q);
    } else if pc.j == p {
      assert ReparentStep(s, p) == Goto(s, p, pc.(j := pc.j + 1));
      WakeInitMoves(s, p, pc.(j := pc.j + 1), q);
    } else {
      assert ReparentStep(s, p) == Goto(SetLock(s, pc.j, By(p)), p, pc.Go(3));
      WakeInitTakes(s, p, q);
    }
  }

  lemma WakeInitTakes(s: State, p: nat, q: nat)
    requires Enabled(s, Move(p)) && s.pc[p].Is(Exit, 2) && Near(s, p, q) && s.pc[p].j < s.N() && s.pc[p].j != p
    ensures ProcInv(Goto(SetLock(s, s.pc[p].j, By(p)), p, s.pc[p].Go(3)), q)
  {
    Acquires(s, p, s.pc[p].j, s.pc[p].Go(3), q);
  }

  lemma WakeInitReleases(s: State, p: nat, q: nat)
    requires Enabled(s, Move(p)) && s.pc[p].Is(Exit, 4) && Near(s, p, q)
    ensures ProcInv(ReparentStep(s, p), q)
  {
    Releases(s, p, s.pc[p].j, s.pc[p].Go(2).(j := s.pc[p].j + 1), q);
  }

  lemma WakeInitMoves(s: State, p: nat, pc: Pc, q: nat)
    requires Enabled(s, Move(p)) && s.pc[p].Is(Exit, 2) && Near(s, p, q) && pc.In(Exit, 1, 2)
    ensures ProcInv(Goto(s, p, pc), q)
  {
    Moves(s, p, pc, q);
  }

  lemma WakeOneProc(s: State, p: nat, j: nat, x: Parent, pc: Pc, q: nat)
    requires Near(s, p, q) && s.pc[p].j == j && (s.pc[p].Is(Exit, 3) || s.pc[p].Is(Exit, 6))
             && pc == s.pc[p].Go(s.pc[p].at + 1)
    ensures ProcInv(Goto(WakeOne(s, j, x), p, pc), q)
  {
    if s.state[j] == SLEEPING && s.onChan[j] && x == Parent.Is(j) {
      Wakes(s, p, j, p);
      Wakes(s, p, j, q);
      Moves(SetState(s, j, RUNNABLE), p, pc, q);
    } else {
      Moves(s, p, pc, q);
    }
  }

  lemma WakeParentProc(s: State, p: nat, q: nat)
    requires Enabled(s, Move(p)) && s.pc[p].In(Exit, 5, 7) && Near(s, p, q)
    ensures ProcInv(DieStep(s, p), q)
  {
    if s.pc[p].at == 5 {
      WakeParentScanProc(s, p, q);
    } else if s.pc[p].at == 6 {
      WakesParentProc(s, p, q);
    } else {
      WakeParentReleases(s, p, q);
    }
  }

  lemma WakesParentProc(s: State, p: nat, q: nat)
    requires Enabled(s, Move(p)) && s.pc[p].Is(Exit, 6) && Near(s, p, q)
    ensures ProcInv(DieStep(s, p), q)
  {
    WakeOneProc(s, p, s.pc[p].j, s.parent[p], s.pc[p].Go(7), q);
  }

  lemma WakeParentReleases(s: State, p: nat, q: nat)
    requires Enabled(s, Move(p)) && s.pc[p].Is(Exit, 7) && Near(s, p, q)
    ensures ProcInv(DieStep(s, p), q)
  {
    Releases(s, p, s.pc[p].j, s.pc[p].Go(5).(j := s.pc[p].j + 1), q);
  }

  lemma WakeParentScanProc(s: State, p: nat, q: nat)
    requires Enabled(s, Move(p)) && s.pc[p].Is(Exit, 5) && Near(s, p, q)
    ensures ProcInv(DieStep(s, p), q)
  {
    var n, pc := s.N(), s.pc[p];
    if pc.j >= n { Moves(s, p, pc.Go(8), q); }
    else if pc.j == p { Moves(s, p, pc.(j := pc.j + 1), q); }
    else { Acquires(s, p, pc.j, pc.Go(6), q); }
  }

  lemma DieProc(s: State, p: nat, q: nat)
    requires Enabled(s, Move(p)) && s.pc[p].In(Exit, 8, 11) && Near(s, p, q)
    ensures ProcInv(DieStep(s, p), q)
  {
    var pc := s.pc[p];
    if pc.at == 8 {
      Acquires(s, p, p, pc.Go(9), q);
    } else if pc.at == 9 {
      Becomes(s, p, ZOMBIE, pc.Go(10), q);
    } else if pc.at == 10 {
      DropsWait(s, p, pc.Go(11), q);
    } else {
      Releases(s, p, p, pc.Go(12), q);
    }
  }

  lemma EnterWaitProc(s: State, p: nat, q: nat)
    requires Enabled(s, Move(p)) && (s.pc[p].Is(Wait, 0) || s.pc[p].Is(Wait, 2)) && Near(s, p, q)
    ensures ProcInv(WaitStep(s, p), q)
  {
    var pc := s.pc[p];
    if pc.at == 0 {
      TakesWait(s, p, pc.Go(1).(i := 0, kids := false), q);
    } else {
      Acquires(s, p, pc.i, pc.Go(3), q);
    }
  }

  lemma ScanProc(s: State, p: nat, q: nat)
    requires Enabled(s, Move(p)) && s.pc[p].Is(Wait, 1) && Near(s, p, q)
    ensures ProcInv(WaitStep(s, p), q)
  {
    var n, pc := s.N(), s.pc[p];
    var i := pc.i;
    if i >= n {
      ScanMoves(s, p, pc.Go(if pc.kids then 6 else 5), q);
    } else if s.parent[i] == Parent.Is(p) {
      ScanMoves(s, p, pc.Go(2), q);
    } else {
      ScanMoves(s, p, pc.(i := i + 1), q);
    }
  }

  lemma ScanMoves(s: State, p: nat, pc: Pc, q: nat)
    requires Enabled(s, Move(p)) && s.pc[p].Is(Wait, 1) && Near(s, p, q)
    requires pc.op == Wait && (pc.at == 1 || pc.at == 5 || pc.at == 6
                               || (pc.at == 2 && pc.i < s.N() && s.parent[pc.i] == Parent.Is(p)))
    ensures ProcInv(Goto(s, p, pc), q)
  {
    Moves(s, p, pc, q);
  }

  lemma ReapProc(s: State, p: nat, q: nat)
    requires Enabled(s, Move(p)) && s.pc[p].Is(Wait, 3) && Near(s, p, q)
    ensures ProcInv(WaitStep(s, p), q)
  {
    var pc := s.pc[p];
    if s.state[pc.i] == ZOMBIE {
      assert WaitStep(s, p) == Goto(FreeProc(s, pc.i), p, pc.Go(4));
      Reaps(s, p, pc.i, q);
    } else {
      assert WaitStep(s, p) == Goto(SetLock(s, pc.i, Free), p, pc.Go(1).(i := pc.i + 1, kids := true));
      Releases(s, p, pc.i, pc.Go(1).(i := pc.i + 1, kids := true), q);
    }
  }

  lemma LeaveWaitProc(s: State, p: nat, q: nat)
    requires Enabled(s, Move(p)) && s.pc[p].In(Wait, 4, 5) && Near(s, p, q)
    ensures ProcInv(WaitStep(s, p), q)
  {
    var pc := s.pc[p];
    if pc.at == 4 {
      Releases(s, p, pc.i, pc.Go(5), q);
    } else {
      DropsWait(s, p, Start(User, 0), q);
    }
  }

  lemma SleepStartProc(s: State, p: nat, q: nat)
    requires Enabled(s, Move(p)) && s.pc[p].In(Wait, 6, 8) && Near(s, p, q)
    ensures ProcInv(SleepStep(s, p), q)
  {
    var pc := s.pc[p];
    if pc.at == 6 {
      Acquires(s, p, p, pc.Go(7), q);
    } else if pc.at == 7 {
      DropsWait(s, p, pc.Go(8), q);
    } else {
      SetsChan(s, p, true, pc.Go(9), q);
    }
  }

  lemma FallAsleepProc(s: State, p: nat, q: nat)
    requires Enabled(s, Move(p)) && s.pc[p].In(Wait, 9, 10) && Near(s, p, q)
    ensures ProcInv(SleepStep(s, p), q)
  {
    if s.pc[p].at == 9 {
      Becomes(s, p, SLEEPING, s.pc[p].Go(10), q);
    } else {
      Releases(s, p, p, s.pc[p].Go(11), q);
    }
  }

  lemma SleepProc(s: State, p: nat, q: nat)
    requires Enabled(s, Move(p)) && s.pc[p].In(Wait, 6, 13) && Near(s, p, q)
    ensures ProcInv(SleepStep(s, p), q)
  {
    var pc := s.pc[p];
    if pc.at <= 8 {
      SleepStartProc(s, p, q);
    } else if pc.at <= 10 {
      FallAsleepProc(s, p, q);
    } else {
      WakeUpProc(s, p, q);
    }
  }

  lemma WakeUpProc(s: State, p: nat, q: nat)
    requires Enabled(s, Move(p)) && s.pc[p].In(Wait, 12, 13) && Near(s, p, q)
    ensures ProcInv(SleepStep(s, p), q)
  {
    if s.pc[p].at == 12 {
      SetsChan(s, p, false, s.pc[p].Go(13), q);
    } else {
      Releases(s, p, p, s.pc[p].Go(0), q);
    }
  }

  lemma KillProc(s: State, p: nat, q: nat)
    requires Enabled(s, Move(p)) && s.pc[p].op == Kill && Near(s, p, q)
    ensures ProcInv(KillStep(s, p), q)
  {
    var pc := s.pc[p];
    if pc.at == 0 {
      KillTakes(s, p, q);
    } else if pc.at == 1 {
      KillsProc(s, p, q);
    } else {
      Releases(s, p, pc.i, Start(User, 0), q);
    }
  }

  lemma KillTakes(s: State, p: nat, q: nat)
    requires Enabled(s, Move(p)) && s.pc[p].Is(Kill, 0) && Near(s, p, q)
    ensures ProcInv(KillStep(s, p), q)
  {
    var pc := s.pc[p];
    if pc.i >= s.N() { Moves(s, p, Start(User, 0), q); } else { Acquires(s, p, pc.i, pc.Go(1), q); }
  }

  lemma KillsProc(s: State, p: nat, q: nat)
    requires Enabled(s, Move(p)) && s.pc[p].Is(Kill, 1) && Near(s, p, q)
    ensures ProcInv(KillStep(s, p), q)
  {
    var pc := s.pc[p];
    var i := pc.i;
    if s.state[i] == SLEEPING {
      Wakes(s, p, i, p);
      Wakes(s, p, i, q);
      Moves(SetState(s, i, RUNNABLE), p, pc.Go(2), q);
    } else {
      Moves(s, p, pc.Go(2), q);
    }
  }

  // ---- Parents and children ---------------------------------------------------------------------

  /** A pc that a parent or child may have without any promise about the other. */
  predicate Plain(pc: Pc) {
    pc.op == User || pc.op == Fork || pc.op == Kill || pc.op == Forkret || pc.Is(Exit, 0)
    || (pc.op == Wait && (pc.at == 0 || pc.at == 4 || pc.at == 5 || pc.at >= 12))
  }

  /** t is s after p has moved between plain pcs, perhaps taking or dropping wait_lock. */
  ghost predicate PlainMove(s: State, t: State, p: nat) {
    && s.Sized() && t.Sized() && t.N() == s.N() && p < s.N()
    && t.pc == s.pc[p := t.pc[p]] && t.parent == s.parent && t.state == s.state
    && Plain(s.pc[p]) && Plain(t.pc[p])
    && (t.wl == s.wl || s.wl == Free || s.wl == By(p))
  }

  lemma PlainChild(s: State, t: State, p: nat, x: nat, c: nat)
    requires PlainMove(s, t, p) && x < s.N() && c < s.N() && ChildInv(s, x, c)
    ensures ChildInv(t, x, c)
  {
  }

  ghost predicate NearChild(s: State, p: nat, x: nat, c: nat) {
    && Bounds(s) && p < s.N() && x < s.N() && c < s.N()
    && ProcInv(s, p) && ProcInv(s, x) && ProcInv(s, c) && ProcInv(s, INIT)
    && (s.pc[p].i < s.N() ==> ProcInv(s, s.pc[p].i))
    && ChildInv(s, x, c)
    && (s.parent[c].Is? && s.parent[c].p < s.N() ==> ChildInv(s, s.parent[c].p, c))
  }

  lemma ForkChild(s: State, p: nat, x: nat, c: nat)
    requires Enabled(s, Move(p)) && s.pc[p].op == Fork && NearChild(s, p, x, c)
    ensures ChildInv(ForkStep(s, p), x, c)
  {
    if s.pc[p].at == 1 {
      ClaimChild(s, p, x, c);
    } else if s.pc[p].at == 4 {
      AdoptChild(s, p, x, c);
    } else if s.pc[p].at == 7 {
      LaunchChild(s, p, x, c);
    } else {
      PlainChild(s, ForkStep(s, p), p, x, c);
    }
  }

  lemma ClaimChild(s: State, p: nat, x: nat, c: nat)
    requires Enabled(s, Move(p)) && s.pc[p].Is(Fork, 1) && NearChild(s, p, x, c)
    ensures ChildInv(ForkStep(s, p), x, c)
  {
    var i, t := s.pc[p].i, ForkStep(s, p);
    if i < s.N() && s.state[i] == UNUSED {
      assert t == Goto(Claim(s, i, p), p, s.pc[p].Go(2));
      ClaimedChild(s, p, i, x, c);
    } else {
      assert t == Goto(SetLock(s, i, Free), p, Start(Fork, i + 1));
      PassedChild(s, p, i, x, c);
    }
  }

  lemma ClaimedChild(s: State, p: nat, i: nat, x: nat, c: nat)
    requires s.Sized() && p < s.N() && i < s.N() && s.state[i] == UNUSED && s.pc[p].Is(Fork, 1) && NearChild(s, p, x, c)
             && ProcInv(s, i)
    ensures ChildInv(Goto(Claim(s, i, p), p, s.pc[p].Go(2)), x, c)
  {
    var t := Goto(Claim(s, i, p), p, s.pc[p].Go(2));
    if c != i && s.parent[c] == Parent.Is(x) {
      assert x != i;
      assert MayHaveChild(t.pc[x], c) && t.state[c] == s.state[c] && t.state[x] == s.state[x];
    }
  }

  lemma PassedChild(s: State, p: nat, i: nat, x: nat, c: nat)
    requires s.Sized() && p < s.N() && s.pc[p].Is(Fork, 1) && NearChild(s, p, x, c)
    ensures ChildInv(Goto(SetLock(s, i, Free), p, Start(Fork, i + 1)), x, c)
  {
    var t := Goto(SetLock(s, i, Free), p, Start(Fork, i + 1));
    assert x != p ==> t.pc[x] == s.pc[x];
    assert c != p ==> t.pc[c] == s.pc[c];
  }

  lemma LaunchChild(s: State, p: nat, x: nat, c: nat)
    requires Enabled(s, Move(p)) && s.pc[p].Is(Fork, 7) && NearChild(s, p, x, c)
    ensures ChildInv(ForkStep(s, p), x, c)
  {
  }

  lemma AdoptChild(s: State, p: nat, x: nat, c: nat)
    requires Enabled(s, Move(p)) && s.pc[p].Is(Fork, 4) && NearChild(s, p, x, c)
    ensures ChildInv(ForkStep(s, p), x, c)
  {
  }

  lemma EnterExitChild(s: State, p: nat, x: nat, c: nat)
    requires Enabled(s, Move(p)) && s.pc[p].Is(Exit, 0)
    requires x < s.N() && c < s.N() && ProcInv(s, p) && ProcInv(s, c) && ChildInv(s, x, c)
    ensures ChildInv(ReparentStep(s, p), x, c)
  {
  }

  lemma ReparentChild(s: State, p: nat, x: nat, c: nat)
    requires Enabled(s, Move(p)) && s.pc[p].Is(Exit, 1) && NearChild(s, p, x, c)
    ensures ChildInv(ReparentStep(s, p), x, c)
  {
    if s.pc[p].i < s.N() && s.parent[s.pc[p].i] == Parent.Is(p) {
      GivenToInit(s, p, s.pc[p].i, x, c);
    } else {
      ReparentPasses(s, p, x, c);
    }
  }

  lemma GivenToInit(s: State, p: nat, i: nat, x: nat, c: nat)
    requires NearChild(s, p, x, c) && s.pc[p].Is(Exit, 1) && i == s.pc[p].i < s.N() && s.parent[i] == Parent.Is(p)
    ensures ChildInv(Goto(SetParent(s, i, Parent.Is(INIT)), p, s.pc[p].Go(2).(j := 0)), x, c)
  {
  }

  lemma ReparentPasses(s: State, p: nat, x: nat, c: nat)
    requires NearChild(s, p, x, c) && s.pc[p].Is(Exit, 1)
    requires s.pc[p].i < s.N() ==> s.parent[s.pc[p].i] != Parent.Is(p)
    ensures ChildInv(ReparentStep(s, p), x, c)
  {
  }

  lemma WakeInitChild(s: State, p: nat, x: nat, c: nat)
    requires Enabled(s, Move(p)) && s.pc[p].In(Exit, 2, 4) && NearChild(s, p, x, c)
    ensures ChildInv(ReparentStep(s, p), x, c)
  {
    if s.pc[p].at == 3 {
      WakesInit(s, p, x, c);
    } else {
      WakeInitScans(s, p, x, c);
    }
  }

  lemma WakeInitScans(s: State, p: nat, x: nat, c: nat)
    requires Enabled(s, Move(p)) && (s.pc[p].Is(Exit, 2) || s.pc[p].Is(Exit, 4)) && NearChild(s, p, x, c)
    ensures ChildInv(ReparentStep(s, p), x, c)
  {
    var t := ReparentStep(s, p);
    assert t.pc == s.pc[p := t.pc[p]];
    WakeInitGoes(s, t, p, x, c);
  }

  lemma WakeInitGoes(s: State, t: State, p: nat, x: nat, c: nat)
    requires NearChild(s, p, x, c) && (s.pc[p].Is(Exit, 2) || s.pc[p].Is(Exit, 4)) && t.Sized() && t.N() == s.N()
    requires t.state == s.state && t.parent == s.parent && t.wl == s.wl && t.pc == s.pc[p := t.pc[p]]
    requires var pc, pc' := s.pc[p], t.pc[p];
             || pc' == pc.Go(3) || pc' == pc.Go(2).(j := pc.j + 1) || (pc.j >= s.N() && pc' == pc.Go(1).(i := pc.i + 1))
    requires s.pc[p].at == 2 && t.pc[p].Is(Exit, 2) ==> s.pc[p].j == p
    ensures ChildInv(t, x, c)
  {
  }

  /** After wakeup has looked at entry j, that entry does not doze: it held its lock, or it has been woken. */
  lemma WakesInit(s: State, p: nat, x: nat, c: nat)
    requires Enabled(s, Move(p)) && s.pc[p].Is(Exit, 3) && NearChild(s, p, x, c)
    ensures ChildInv(ReparentStep(s, p), x, c)
  {
    WakesInitGoes(s, p, s.pc[p].j, x, c);
  }

  lemma WakesInitGoes(s: State, p: nat, j: nat, x: nat, c: nat)
    requires NearChild(s, p, x, c) && s.pc[p].Is(Exit, 3) && s.pc[p].j == j
    ensures ChildInv(Goto(WakeOne(s, j, Parent.Is(INIT)), p, s.pc[p].Go(4)), x, c)
  {
    var t := Goto(WakeOne(s, j, Parent.Is(INIT)), p, s.pc[p].Go(4));
    assert t.parent == s.parent && t.wl == s.wl && t.state[c] == ZOMBIE ==> s.state[c] == ZOMBIE;
    assert x != p ==> t.pc[x] == s.pc[x];
    assert c != p ==> t.pc[c] == s.pc[c];
  }

  lemma WakeParentChild(s: State, p: nat, x: nat, c: nat)
    requires Enabled(s, Move(p)) && s.pc[p].In(Exit, 5, 7) && NearChild(s, p, x, c)
    ensures ChildInv(DieStep(s, p), x, c)
  {
    if s.pc[p].at == 5 {
      LocksNext(s, p, x, c);
    } else if s.pc[p].at == 6 {
      WakesParent(s, p, x, c);
    } else {
      UnlocksNext(s, p, x, c);
    }
  }

  lemma LocksNext(s: State, p: nat, x: nat, c: nat)
    requires Enabled(s, Move(p)) && s.pc[p].Is(Exit, 5) && NearChild(s, p, x, c)
    ensures ChildInv(DieStep(s, p), x, c)
  {
  }

  lemma UnlocksNext(s: State, p: nat, x: nat, c: nat)
    requires Enabled(s, Move(p)) && s.pc[p].Is(Exit, 7) && NearChild(s, p, x, c)
    ensures ChildInv(DieStep(s, p), x, c)
  {
  }

  lemma WakesParent(s: State, p: nat, x: nat, c: nat)
    requires Enabled(s, Move(p)) && s.pc[p].Is(Exit, 6) && NearChild(s, p, x, c)
    ensures ChildInv(DieStep(s, p), x, c)
  {
    var j, t := s.pc[p].j, DieStep(s, p);
    assert t == Goto(WakeOne(s, j, s.parent[p]), p, s.pc[p].Go(7));
    if s.parent[c] == Parent.Is(x) {
      assert c == p || t.pc[c] == s.pc[c];
      assert x == p || t.pc[x] == s.pc[x];
    }
  }

  lemma DieChild(s: State, p: nat, x: nat, c: nat)
    requires Enabled(s, Move(p)) && s.pc[p].In(Exit, 8, 9) && NearChild(s, p, x, c)
    ensures ChildInv(DieStep(s, p), x, c)
  {
  }

  lemma DeadChild(s: State, p: nat, x: nat, c: nat)
    requires Enabled(s, Move(p)) && s.pc[p].In(Exit, 10, 11)
    requires x < s.N() && c < s.N() && ProcInv(s, p) && ProcInv(s, c) && ChildInv(s, x, c)
    ensures ChildInv(DieStep(s, p), x, c)
  {
  }

  lemma EnterWaitChild(s: State, p: nat, x: nat, c: nat)
    requires Enabled(s, Move(p)) && (s.pc[p].Is(Wait, 0) || s.pc[p].Is(Wait, 2)) && NearChild(s, p, x, c)
    ensures ChildInv(WaitStep(s, p), x, c)
  {
  }

  lemma ScanChild(s: State, p: nat, x: nat, c: nat)
    requires Enabled(s, Move(p)) && s.pc[p].Is(Wait, 1) && NearChild(s, p, x, c)
    ensures ChildInv(WaitStep(s, p), x, c)
  {
    var pc := s.pc[p];
    if pc.i >= s.N() {
      ScanGoes(s, p, pc.Go(if pc.kids then 6 else 5), x, c);
    } else if s.parent[pc.i] == Parent.Is(p) {
      ScanGoes(s, p, pc.Go(2), x, c);
    } else {
      ScanGoes(s, p, pc.(i := pc.i + 1), x, c);
    }
  }

  lemma ScanGoes(s: State, p: nat, pc: Pc, x: nat, c: nat)
    requires Bounds(s) && p < s.N() && x < s.N() && c < s.N() && s.pc[p].Is(Wait, 1) && ChildInv(s, x, c)
    requires pc.op == Wait && (pc.In(Wait, 1, 2) || pc.In(Wait, 5, 6))
    requires s.wl == By(p)
    requires x == p && s.parent[c] == Parent.Is(p) && HasChecked(pc, c) ==> s.state[c] != ZOMBIE
    ensures ChildInv(Goto(s, p, pc), x, c)
  {
  }

  lemma ReapChild(s: State, p: nat, x: nat, c: nat)
    requires Enabled(s, Move(p)) && s.pc[p].In(Wait, 3, 5) && NearChild(s, p, x, c)
    ensures ChildInv(WaitStep(s, p), x, c)
  {
    if s.pc[p].at == 3 {
      TestChild(s, p, x, c);
    } else {
      PlainChild(s, WaitStep(s, p), p, x, c);
    }
  }

  lemma TestChild(s: State, p: nat, x: nat, c: nat)
    requires Enabled(s, Move(p)) && s.pc[p].Is(Wait, 3) && NearChild(s, p, x, c)
    ensures ChildInv(WaitStep(s, p), x, c)
  {
  }

  lemma SleepChild(s: State, p: nat, x: nat, c: nat)
    requires Enabled(s, Move(p)) && s.pc[p].In(Wait, 6, 13) && NearChild(s, p, x, c)
    ensures ChildInv(SleepStep(s, p), x, c)
  {
    if s.pc[p].at >= 12 {
      PlainChild(s, SleepStep(s, p), p, x, c);
    } else if s.pc[p].at >= 8 {
      FallAsleepChild(s, p, x, c);
    } else {
      DropLockChild(s, p, x, c);
    }
  }

  /** The critical moment: wait_lock is dropped before the state is SLEEPING, but the scan has seen
      no zombie, and whoever makes one from now on finds the sleeper's lock taken. */
  lemma DropLockChild(s: State, p: nat, x: nat, c: nat)
    requires Enabled(s, Move(p)) && s.pc[p].In(Wait, 6, 7)
    requires x < s.N() && c < s.N() && ProcInv(s, p) && ProcInv(s, c) && ChildInv(s, x, c)
    ensures ChildInv(SleepStep(s, p), x, c)
  {
  }

  lemma FallAsleepChild(s: State, p: nat, x: nat, c: nat)
    requires Enabled(s, Move(p)) && s.pc[p].In(Wait, 8, 10)
    requires x < s.N() && c < s.N() && ProcInv(s, p) && ProcInv(s, c) && ChildInv(s, x, c)
    ensures ChildInv(SleepStep(s, p), x, c)
  {
  }

  lemma KillChild(s: State, p: nat, x: nat, c: nat)
    requires Enabled(s, Move(p)) && s.pc[p].op == Kill && NearChild(s, p, x, c)
    ensures ChildInv(KillStep(s, p), x, c)
  {
    if s.pc[p].at == 1 {
      KillsChild(s, p, x, c);
    } else {
      PlainChild(s, KillStep(s, p), p, x, c);
    }
  }

  lemma KillsChild(s: State, p: nat, x: nat, c: nat)
    requires Enabled(s, Move(p)) && s.pc[p].Is(Kill, 1) && NearChild(s, p, x, c)
    ensures ChildInv(KillStep(s, p), x, c)
  {
    if s.pc[p].i < s.N() && s.state[s.pc[p].i] == SLEEPING {
      KillWakes(s, p, s.pc[p].i, x, c);
    } else {
      PlainChild(s, KillStep(s, p), p, x, c);
    }
  }

  lemma KillWakes(s: State, p: nat, i: nat, x: nat, c: nat)
    requires NearChild(s, p, x, c) && s.pc[p].Is(Kill, 1) && i == s.pc[p].i < s.N() && s.state[i] == SLEEPING
    ensures ChildInv(Goto(SetState(s, i, RUNNABLE), p, s.pc[p].Go(2)), x, c)
  {
  }

  // ---- Steps other than Move ------------------------------------------------------------------

  lemma OtherProc(s: State, st: Step, q: nat)
    requires Enabled(s, st) && !st.Move? && !st.Dispatch? && Near(s, st.p, q)
    ensures ProcInv(Do(s, st), q)
  {
    var p, pc := st.p, s.pc[st.p];
    match st
    case Call(_, op, i) => CallProc(s, p, op, i, q);
    case AllocFails(_) => Unbuilds(s, p, pc.i, q);
    case CopyFails(_) => Moves(s, p, pc.Go(4), q);
    case GiveUp(_) => Moves(s, p, pc.Go(5), q);
    case Preempt(_) => YieldProc(s, p, q);
    case Nap(_) => NapProc(s, p, SLEEPING, q);
    case Rouse(_) => NapProc(s, p, RUNNABLE, q);
  }

  lemma NapProc(s: State, p: nat, x: ProcState, q: nat)
    requires Near(s, p, q) && s.pc[p].op == User && (x == SLEEPING || x == RUNNABLE)
    ensures ProcInv(SetState(s, p, x), q)
  {
  }

  lemma CallProc(s: State, p: nat, op: Op, i: nat, q: nat)
    requires Enabled(s, Call(p, op, i)) && Bounds(s) && q < s.N() && ProcInv(s, p) && ProcInv(s, q)
    ensures ProcInv(Do(s, Call(p, op, i)), q)
  {
    Moves(s, p, Start(op, if op == Kill then i else 0), q);
  }

  lemma YieldProc(s: State, p: nat, q: nat)
    requires Enabled(s, Preempt(p)) && Near(s, p, q)
    ensures ProcInv(SetState(s, p, RUNNABLE), q)
  {
  }

  /** The scheduler hands p->lock over to a process that resumes in sleep or starts in forkret. */
  lemma ResumeProc(s: State, p: nat, q: nat)
    requires Enabled(s, Dispatch(p)) && (s.pc[p].Is(Wait, 11) || s.pc[p].Is(Forkret, 0)) && Near(s, p, q)
    ensures ProcInv(Goto(SetLock(SetState(s, p, RUNNING), p, By(p)), p, s.pc[p].Go(s.pc[p].at + 1)), q)
  {
    if s.pc[p].op == Wait {
      HandedOver(s, p, s.pc[p].Go(12), q);
    } else {
      HandedOver(s, p, s.pc[p].Go(1), q);
    }
  }

  lemma HandedOver(s: State, p: nat, pc: Pc, q: nat)
    requires Bounds(s) && p < s.N() && q < s.N() && s.plock[p] == Free && s.state[p] == RUNNABLE
    requires ProcInv(s, p) && ProcInv(s, q) && (pc.Is(Wait, 12) || pc.Is(Forkret, 1)) && pc == s.pc[p].Go(pc.at)
    requires LockOf(s.pc[p], p) == -1 && !HoldsWait(s.pc[p])
    ensures ProcInv(Goto(SetLock(SetState(s, p, RUNNING), p, By(p)), p, pc), q)
  {
    var t := Goto(SetLock(SetState(s, p, RUNNING), p, By(p)), p, pc);
    assert SpinOk(t, q);
  }

  lemma ContinueProc(s: State, p: nat, q: nat)
    requires Enabled(s, Dispatch(p)) && !s.pc[p].Is(Wait, 11) && !s.pc[p].Is(Forkret, 0) && Near(s, p, q)
    ensures ProcInv(SetState(s, p, RUNNING), q)
  {
  }

  lemma DispatchProc(s: State, p: nat, q: nat)
    requires Enabled(s, Dispatch(p)) && Near(s, p, q)
    ensures ProcInv(Do(s, Dispatch(p)), q)
  {
    if s.pc[p].Is(Wait, 11) || s.pc[p].Is(Forkret, 0) { ResumeProc(s, p, q); } else { ContinueProc(s, p, q); }
  }

  lemma OtherChild(s: State, st: Step, x: nat, c: nat)
    requires Enabled(s, st) && !st.Move? && NearChild(s, st.p, x, c)
    ensures ChildInv(Do(s, st), x, c)
  {
    if st.Call? {
      PlainChild(s, Do(s, st), st.p, x, c);
    } else if st.AllocFails? {
      UnbuildChild(s, st.p, x, c);
    } else if st.Preempt? {
      PreemptChild(s, st.p, x, c);
    } else if st.Dispatch? {
      DispatchChild(s, st.p, x, c);
    } else if st.Nap? {
      NapChild(s, st.p, SLEEPING, x, c);
    } else if st.Rouse? {
      NapChild(s, st.p, RUNNABLE, x, c);
    } else {
      WaitLeaves(s, st, x, c);
    }
  }

  lemma NapChild(s: State, p: nat, y: ProcState, x: nat, c: nat)
    requires NearChild(s, p, x, c) && s.pc[p].op == User && (y == SLEEPING || y == RUNNABLE)
    ensures ChildInv(SetState(s, p, y), x, c)
  {
  }

  lemma WaitLeaves(s: State, st: Step, x: nat, c: nat)
    requires Enabled(s, st) && (st.CopyFails? || st.GiveUp?) && NearChild(s, st.p, x, c)
    ensures ChildInv(Do(s, st), x, c)
  {
  }

  lemma UnbuildChild(s: State, p: nat, x: nat, c: nat)
    requires Enabled(s, AllocFails(p)) && NearChild(s, p, x, c)
    ensures ChildInv(Do(s, AllocFails(p)), x, c)
  {
  }

  lemma PreemptChild(s: State, p: nat, x: nat, c: nat)
    requires Enabled(s, Preempt(p)) && x < s.N() && c < s.N() && ProcInv(s, p) && ChildInv(s, x, c)
    ensures ChildInv(Do(s, Preempt(p)), x, c)
  {
  }

  lemma DispatchChild(s: State, p: nat, x: nat, c: nat)
    requires Enabled(s, Dispatch(p)) && x < s.N() && c < s.N() && ProcInv(s, p) && ChildInv(s, x, c)
    ensures ChildInv(Do(s, Dispatch(p)), x, c)
  {
  }

  /** forkret drops the lock that the scheduler handed over. */
  lemma ForkretProc(s: State, p: nat, q: nat)
    requires Enabled(s, Move(p)) && s.pc[p].op == Forkret && Near(s, p, q)
    ensures ProcInv(Do(s, Move(p)), q)
  {
    Releases(s, p, p, Start(User, 0), q);
  }

  lemma MoveProc(s: State, p: nat, q: nat)
    requires Enabled(s, Move(p)) && Near(s, p, q)
    ensures ProcInv(Do(s, Move(p)), q)
  {
    var pc := s.pc[p];
    match pc.op
    case Fork =>
      if pc.at == 0 { ForkScanProc(s, p, q); } else if pc.at == 1 { ForkTestProc(s, p, q); }
      else if pc.at <= 4 { ForkBuildProc(s, p, q); } else { ForkRunProc(s, p, q); }
    case Exit =>
      if pc.at <= 1 { ReparentProc(s, p, q); } else if pc.at <= 4 { WakeInitProc(s, p, q); }
      else if pc.at <= 7 { WakeParentProc(s, p, q); } else { DieProc(s, p, q); }
    case Wait =>
      if pc.at == 1 { ScanProc(s, p, q); } else if pc.at <= 2 { EnterWaitProc(s, p, q); }
      else if pc.at == 3 { ReapProc(s, p, q); } else if pc.at <= 5 { LeaveWaitProc(s, p, q); }
        else { SleepProc(s, p, q); }
    case Kill => KillProc(s, p, q);
    case Forkret => ForkretProc(s, p, q);
  }

  lemma MoveChild(s: State, p: nat, x: nat, c: nat)
    requires Enabled(s, Move(p)) && NearChild(s, p, x, c)
    ensures ChildInv(Do(s, Move(p)), x, c)
  {
    var pc := s.pc[p];
    match pc.op
    case Fork => ForkChild(s, p, x, c);
    case Exit =>
      if pc.at == 0 { EnterExitChild(s, p, x, c); } else if pc.at == 1 { ReparentChild(s, p, x, c); }
      else if pc.at <= 4 { WakeInitChild(s, p, x, c); } else if pc.at <= 7 { WakeParentChild(s, p, x, c); }
      else if pc.at <= 9 { DieChild(s, p, x, c); } else { DeadChild(s, p, x, c); }
    case Wait =>
      if pc.at == 1 { ScanChild(s, p, x, c); } else if pc.at <= 2 { EnterWaitChild(s, p, x, c); }
      else if pc.at <= 5 { ReapChild(s, p, x, c); } else { SleepChild(s, p, x, c); }
    case Kill => KillChild(s, p, x, c);
    case Forkret => PlainChild(s, Do(s, Move(p)), p, x, c);
  }

  // ---- Whole runs ---------------------------------------------------------------------------------

  lemma StepBounds(s: State, st: Step)
    requires Enabled(s, st) && Inv(s)
    ensures Bounds(Do(s, st))
  {
    assert ProcInv(s, st.p);
  }

  /** Every step keeps the invariant. */
  lemma StepInv(s: State, st: Step)
    requires Enabled(s, st) && Inv(s)
    ensures Inv(Do(s, st))
  {
    var t, p := Do(s, st), st.p;
    StepBounds(s, st);
    assert ProcInv(s, p) && ProcInv(s, INIT);
    forall q | 0 <= q < s.N() ensures ProcInv(t, q) {
      assert ProcInv(s, q);
      assert Near(s, p, q);
      if st.Move? { MoveProc(s, p, q); } else if st.Dispatch? { DispatchProc(s, p, q); } else { OtherProc(s, st, q); }
    }
    forall x, c | 0 <= x < s.N() && 0 <= c < s.N() ensures ChildInv(t, x, c) {
      assert ProcInv(s, x) && ProcInv(s, c) && ChildInv(s, x, c);
      assert s.parent[c].Is? && s.parent[c].p < s.N() ==> ChildInv(s, s.parent[c].p, c);
      assert NearChild(s, p, x, c);
      if st.Move? { MoveChild(s, p, x, c); } else { OtherChild(s, st, x, c); }
    }
  }

  ghost predicate Run(ss: seq<State>, steps: seq<Step>) {
    && |ss| == |steps| + 1
    && Init(ss[0])
    && forall i {:trigger Goes(ss, steps, i)} :: 0 <= i < |steps| ==> Goes(ss, steps, i)
  }

  ghost predicate Goes(ss: seq<State>, steps: seq<Step>, i: nat)
    requires i < |steps| && |ss| == |steps| + 1
  {
    Enabled(ss[i], steps[i]) && ss[i + 1] == Do(ss[i], steps[i])
  }

  lemma {:induction false} RunInv(ss: seq<State>, steps: seq<Step>, i: nat)
    requires Run(ss, steps) && i < |ss|
    ensures Inv(ss[i])
  {
    if i == 0 {
      InitInv(ss[0]);
    } else {
      RunInv(ss, steps, i - 1);
      assert Goes(ss, steps, i - 1);
      StepInv(ss[i - 1], steps[i - 1]);
    }
  }

  /** At every point of every run, also while wait_lock is held: a parent is a live process,
      neither free nor under construction nor a zombie. */
  lemma ParentsAlive(ss: seq<State>, steps: seq<Step>, i: nat, c: nat)
    requires Run(ss, steps) && i < |ss| && ss[i].Sized() && c < ss[i].N() && ss[i].parent[c].Is?
    ensures var x := ss[i].parent[c].p;
            x < ss[i].N() && ss[i].state[x] != UNUSED && ss[i].state[x] != USED && ss[i].state[x] != ZOMBIE
  {
    RunInv(ss, steps, i);
    var s := ss[i];
    assert ProcInv(s, c);
    assert ProcInv(s, s.parent[c].p) && ChildInv(s, s.parent[c].p, c);
  }

  /** Every zombie has a parent, so it can be reaped. */
  lemma ZombiesHaveParents(ss: seq<State>, steps: seq<Step>, i: nat, c: nat)
    requires Run(ss, steps) && i < |ss| && ss[i].Sized() && c < ss[i].N() && ss[i].state[c] == ZOMBIE
    ensures c != INIT && ss[i].parent[c].Is?
  {
    RunInv(ss, steps, i);
    assert ProcInv(ss[i], c);
  }

  /** No lost exit: whenever wait_lock is free, no process asleep in wait, on its own channel, has a zombie child. */
  lemma NoSleeperHasZombie(ss: seq<State>, steps: seq<Step>, i: nat, x: nat, c: nat)
    requires Run(ss, steps) && i < |ss| && ss[i].Sized() && x < ss[i].N() && c < ss[i].N()
    requires ss[i].wl == Free && ss[i].state[x] == SLEEPING && ss[i].onChan[x] && ss[i].parent[c] == Parent.Is(x)
    ensures ss[i].state[c] != ZOMBIE
  {
    RunInv(ss, steps, i);
    assert ProcInv(ss[i], x) && ChildInv(ss[i], x, c);
  }

  /** A zombie stays one until its current parent reaps it in wait, and then its entry is free;
      at that moment no CPU executes the zombie any more. */
  lemma ReapedByParent(ss: seq<State>, steps: seq<Step>, i: nat, c: nat)
    requires Run(ss, steps) && i < |steps| && ss[i].Sized() && c < ss[i].N() && c < ss[i + 1].N() && ss[i + 1].Sized()
    requires ss[i].state[c] == ZOMBIE && ss[i + 1].state[c] != ZOMBIE
    ensures steps[i].p < ss[i].N() && ss[i].parent[c] == Parent.Is(steps[i].p) && ss[i].pc[steps[i].p].Is(Wait, 3)
    ensures ss[i + 1].state[c] == UNUSED && OffCpu(ss[i].pc[c])
  {
    RunInv(ss, steps, i);
    assert Goes(ss, steps, i);
    var s, p := ss[i], steps[i].p;
    assert ProcInv(s, c) && ProcInv(s, p);
    LeavesZombie(s, steps[i], c);
  }

  lemma LeavesZombie(s: State, st: Step, c: nat)
    requires Enabled(s, st) && c < s.N() && s.state[c] == ZOMBIE && Do(s, st).state[c] != ZOMBIE
    requires ProcInv(s, c) && ProcInv(s, st.p)
    ensures st.Move? && s.pc[st.p].Is(Wait, 3) && s.pc[st.p].i == c
    ensures Do(s, st).state[c] == UNUSED && s.parent[c] == Parent.Is(st.p) && OffCpu(s.pc[c])
  {
  }

  /** freeproc never runs on a process that a CPU is still executing. */
  lemma FreedOffCpu(ss: seq<State>, steps: seq<Step>, i: nat, c: nat)
    requires Run(ss, steps) && i < |steps| && ss[i].Sized() && c < ss[i].N() && c < ss[i + 1].N() && ss[i + 1].Sized()
    requires ss[i].state[c] != UNUSED && ss[i + 1].state[c] == UNUSED
    ensures OffCpu(ss[i].pc[c])
  {
    RunInv(ss, steps, i);
    assert Goes(ss, steps, i);
    assert ProcInv(ss[i], c) && ProcInv(ss[i], steps[i].p);
    if ss[i].state[c] == ZOMBIE {
      LeavesZombie(ss[i], steps[i], c);
    } else {
      BecomesUnused(ss[i], steps[i], c);
    }
  }

  lemma BecomesUnused(s: State, st: Step, c: nat)
    requires Enabled(s, st) && c < s.N() && s.state[c] != UNUSED && s.state[c] != ZOMBIE && Do(s, st).state[c] == UNUSED
    requires ProcInv(s, c) && ProcInv(s, st.p)
    ensures s.state[c] == USED && OffCpu(s.pc[c])
  {
    if st.Move? {
      NotFreed(s, st.p, c);
    }
  }

  /** A step by itself frees zombies only. */
  lemma NotFreed(s: State, p: nat, c: nat)
    requires Enabled(s, Move(p)) && c < s.N() && s.state[c] != UNUSED && s.state[c] != ZOMBIE
    ensures Do(s, Move(p)).state[c] != UNUSED
  {
    match s.pc[p].op
    case Fork => assert ForkStep(s, p).state[c] != UNUSED;
    case Exit => assert ReparentStep(s, p).state[c] != UNUSED && DieStep(s, p).state[c] != UNUSED;
    case Wait => assert WaitStep(s, p).state[c] != UNUSED && SleepStep(s, p).state[c] != UNUSED;
    case Kill => assert KillStep(s, p).state[c] != UNUSED;
    case _ =>
  }
}
