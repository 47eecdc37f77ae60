/** Every run of the log: begin_op, log_write and end_op by any number of concurrent
operations, commit and recovery as one step per disk write, and a crash after any step.
The machine refines a specification in which a commit is atomic and a crash falls back to
the last commit. */
module GroupCommit {
  import opened Blocks
  import opened LogSpec

  /** `used[i]` is the number of blocks that the i-th outstanding operation has appended, so
      log.outstanding is |used|.  While the kernel commits or recovers, `plan` is the list of
      disk writes it performs, `pos` of them are done, and `base` is the disk it started from. */
  datatype State = State(
    up: bool, disk: seq<Block>, view: seq<Block>, lh: seq<int>,
    used: seq<nat>, committing: bool,
    plan: seq<Write>, pos: nat, base: seq<Block>)

  datatype Step =
    | Begin
    | LogWrite(op: nat, at: nat, data: Block)
    | End(op: nat)
    | DiskWrite
    | CommitDone
    | Crash
    | Boot

  /** The guard of begin_op that lets a caller in. */
  predicate Admits(s: State) {
    !s.committing && |s.lh| + (|s.used| + 1) * MAXOPBLOCKS <= LOGSIZE
  }

  ghost predicate Enabled(L: Layout, s: State, st: Step) {
    match st
    case Begin => s.up && Admits(s)
    case LogWrite(op, at, _) => s.up && op < |s.used| && at < |s.disk| && L.Home(at) && !TooBig(L, s.lh)
    case End(op) => s.up && op < |s.used|
    case DiskWrite => s.pos < |s.plan|
    case CommitDone => s.up && s.committing && s.pos == |s.plan|
    case Crash => true
    case Boot => !s.up && s.pos == |s.plan|
  }

  /** What the step's effect needs in order to be defined; the invariant provides it. */
  ghost predicate Defined(L: Layout, s: State, st: Step) {
    match st
    case LogWrite(_, _, _) => |s.view| == |s.disk|
    case End(_) => |s.view| == |s.disk| && L.Ok(|s.view|) && ListOk(L, |s.view|, s.lh)
    case DiskWrite => s.pos < |s.plan| && s.plan[s.pos].at < |s.disk|
    case Crash => DiskOk(L, s.disk)
    case _ => true
  }

  ghost function Do(L: Layout, s: State, st: Step): State
    requires Enabled(L, s, st) && Defined(L, s, st)
  {
    match st
    case Begin => s.(used := s.used + [0])
    case LogWrite(op, at, data) =>
      s.(view := s.view[at := data], lh := Absorb(s.lh, at),
         used := if at in s.lh then s.used else s.used[op := s.used[op] + 1])
    case End(op) =>
      var rest := s.used[..op] + s.used[op + 1..];
      if rest != [] then s.(used := rest)
      else s.(used := rest, committing := true, pos := 0, base := s.disk,
              plan := CommitWrites(L, s.disk[L.start], s.lh, s.view))
    case DiskWrite => s.(disk := s.disk[s.plan[s.pos].at := s.plan[s.pos].data], pos := s.pos + 1)
    case CommitDone => s.(committing := false, lh := [], plan := [], pos := 0)
    case Crash => State(false, s.disk, s.disk, [], [], false, RecoverWrites(L, s.disk), 0, s.disk)
    case Boot => s.(up := true, view := s.disk, plan := [], pos := 0)
  }

  // ---- The invariant ----------------------------------------------------------------

  /** Home blocks outside the list are the same in the cache and on the disk `d`. */
  ghost predicate CleanOutside(L: Layout, lh: seq<int>, view: seq<Block>, d: seq<Block>) {
    |view| == |d| && forall a :: 0 <= a < |d| && L.Home(a) && a !in lh ==> view[a] == d[a]
  }

  ghost predicate Planned(s: State) {
    && s.pos <= |s.plan|
    && InRange(s.plan, |s.base|)
    && |s.base| == |s.disk|
    && s.disk == Apply(s.base, s.plan[..s.pos])
  }

  ghost predicate Running(L: Layout, s: State) {
    && DiskOk(L, s.disk) && LogEmpty(L, s.disk)
    && ListOk(L, |s.disk|, s.lh)
    && CleanOutside(L, s.lh, s.view, s.disk)
    && (s.used == [] ==> s.lh == [])
    && s.plan == []
  }

  ghost predicate Committing(L: Layout, s: State) {
    && s.used == []
    && DiskOk(L, s.base) && LogEmpty(L, s.base)
    && ListOk(L, |s.base|, s.lh)
    && CleanOutside(L, s.lh, s.view, s.base)
    && s.plan == CommitWrites(L, s.base[L.start], s.lh, s.view)
    && Planned(s)
  }

  ghost predicate Recovering(L: Layout, s: State) {
    && s.used == [] && s.lh == [] && !s.committing
    && DiskOk(L, s.base)
    && s.plan == RecoverWrites(L, s.base)
    && Planned(s)
  }

  ghost predicate Inv(L: Layout, s: State) {
    if !s.up then Recovering(L, s)
    else if s.committing then Committing(L, s)
    else Running(L, s)
  }

  /** A powered-off machine: the kernel is about to recover from whatever is on the disk. */
  ghost function PowerOn(L: Layout, d: seq<Block>): (s: State)
    requires DiskOk(L, d)
    ensures Inv(L, s)
  {
    assert RecoverWrites(L, d)[..0] == [];
    State(false, d, d, [], [], false, RecoverWrites(L, d), 0, d)
  }

  /** In every state of the invariant the disk is one that recovery understands. */
  lemma InvDisk(L: Layout, s: State)
    requires Inv(L, s)
    ensures DiskOk(L, s.disk)
    ensures !s.up ==> Durable(L, s.disk) == Durable(L, s.base)
    ensures s.up && !s.committing ==> Durable(L, s.disk) == HomeBlocks(L, s.disk)
    ensures s.up && s.committing ==>
              Durable(L, s.disk) == if s.pos <= |s.lh| then HomeBlocks(L, s.base) else HomeBlocks(L, s.view)
  {
    if !s.up {
      RecoveryCrash(L, s.base, s.pos);
    } else if s.committing {
      CommitCrash(L, s.base, s.lh, s.view, s.pos);
    } else {
      EmptyDurable(L, s.disk);
    }
  }

  // ---- The specification ------------------------------------------------------------

  /** What survives a crash, what file-system code reads now, and how many operations run. */
  datatype Spec = Spec(durable: map<nat, Block>, logical: map<nat, Block>, active: nat)

  datatype Event = Quiet | Start | Update(at: nat, data: Block) | Finish | Commit | Fail

  ghost predicate SpecNext(a: Spec, e: Event, b: Spec) {
    match e
    case Quiet => b == a
    case Start => b == a.(active := a.active + 1)
    case Update(at, data) => a.active > 0 && at in a.logical && b == a.(logical := a.logical[at := data])
    case Finish => a.active > 0 && b == a.(active := a.active - 1)
    case Commit => a.active == 0 && b == a.(durable := a.logical)
    case Fail => b == a.(logical := a.durable, active := 0)
  }

  ghost function Abstract(L: Layout, s: State): Spec
    requires Inv(L, s)
  {
    InvDisk(L, s);
    var durable := Durable(L, s.disk);
    Spec(durable, if s.up then HomeBlocks(L, s.view) else durable, |s.used|)
  }

  /** The disk write that fills the header is the commit point; every other disk write is
      invisible to the specification. */
  ghost function EventOf(s: State, st: Step): Event {
    match st
    case Begin => Start
    case LogWrite(_, at, data) => Update(at, data)
    case End(_) => Finish
    case DiskWrite => if s.up && s.pos == |s.lh| then Commit else Quiet
    case CommitDone => Quiet
    case Crash => Fail
    case Boot => Quiet
  }

  // ---- Refinement, step by step -------------------------------------------------------

  lemma InvDefined(L: Layout, s: State, st: Step)
    requires Inv(L, s) && Enabled(L, s, st)
    ensures Defined(L, s, st)
  {
    InvDisk(L, s);
  }

  lemma DiskWriteStep(L: Layout, s: State)
    requires Inv(L, s) && Enabled(L, s, DiskWrite) && Defined(L, s, DiskWrite)
    ensures Inv(L, Do(L, s, DiskWrite))
    ensures SpecNext(Abstract(L, s), EventOf(s, DiskWrite), Abstract(L, Do(L, s, DiskWrite)))
  {
    var t := Do(L, s, DiskWrite);
    assert s.plan[..s.pos + 1] == s.plan[..s.pos] + [s.plan[s.pos]];
    ApplySnoc(s.base, s.plan[..s.pos], s.plan[s.pos]);
    assert Planned(t);
    InvDisk(L, s);
    InvDisk(L, t);
  }

  lemma LogWriteStep(L: Layout, s: State, op: nat, at: nat, data: Block)
    requires Inv(L, s) && Enabled(L, s, LogWrite(op, at, data)) && Defined(L, s, LogWrite(op, at, data))
    ensures Inv(L, Do(L, s, LogWrite(op, at, data)))
    ensures SpecNext(Abstract(L, s), Update(at, data), Abstract(L, Do(L, s, LogWrite(op, at, data))))
  {
    var t := Do(L, s, LogWrite(op, at, data));
    assert forall a :: a in s.lh ==> a in t.lh;
    InvDisk(L, s);
    InvDisk(L, t);
    assert HomeBlocks(L, t.view) == HomeBlocks(L, s.view)[at := data];
  }

  lemma EndStep(L: Layout, s: State, op: nat)
    requires Inv(L, s) && Enabled(L, s, End(op)) && Defined(L, s, End(op))
    ensures Inv(L, Do(L, s, End(op)))
    ensures SpecNext(Abstract(L, s), Finish, Abstract(L, Do(L, s, End(op))))
  {
    var t := Do(L, s, End(op));
    assert t.plan[..0] == [];
    InvDisk(L, s);
    InvDisk(L, t);
  }

  lemma CommitDoneStep(L: Layout, s: State)
    requires Inv(L, s) && Enabled(L, s, CommitDone)
    ensures Inv(L, Do(L, s, CommitDone))
    ensures Abstract(L, Do(L, s, CommitDone)) == Abstract(L, s)
    ensures Abstract(L, s).durable == Abstract(L, s).logical
  {
    var t := Do(L, s, CommitDone);
    CommitCrash(L, s.base, s.lh, s.view, s.pos);
    assert HomeBlocks(L, s.disk) == HomeBlocks(L, s.view);
    forall a | 0 <= a < |s.disk| && L.Home(a) ensures t.view[a] == t.disk[a] {
      assert HomeBlocks(L, s.disk)[a] == HomeBlocks(L, s.view)[a];
    }
    InvDisk(L, s);
    InvDisk(L, t);
  }

  lemma BootStep(L: Layout, s: State)
    requires Inv(L, s) && Enabled(L, s, Boot)
    ensures Inv(L, Do(L, s, Boot))
    ensures Abstract(L, Do(L, s, Boot)) == Abstract(L, s)
  {
    assert s.plan[..s.pos] == s.plan;
    RecoveryIdempotent(L, s.base);
    RecoveredContents(L, s.base);
    InvDisk(L, s);
  }

  /** Each step keeps the invariant and is one step of the specification. */
  lemma StepRefines(L: Layout, s: State, st: Step)
    requires Inv(L, s) && Enabled(L, s, st)
    ensures Defined(L, s, st) && Inv(L, Do(L, s, st))
    ensures SpecNext(Abstract(L, s), EventOf(s, st), Abstract(L, Do(L, s, st)))
  {
    InvDefined(L, s, st);
    match st
    case Begin =>
    case LogWrite(op, at, data) => LogWriteStep(L, s, op, at, data);
    case End(op) => EndStep(L, s, op);
    case DiskWrite => DiskWriteStep(L, s);
    case CommitDone => CommitDoneStep(L, s);
    case Crash =>
      InvDisk(L, s);
      assert RecoverWrites(L, s.disk)[..0] == [];
    case Boot => BootStep(L, s);
  }

  // ---- Whole runs -------------------------------------------------------------------

  ghost predicate Run(L: Layout, ss: seq<State>, steps: seq<Step>) {
    && |ss| == |steps| + 1
    && Inv(L, ss[0])
    && forall i {:trigger Goes(L, ss, steps, i)} :: 0 <= i < |steps| ==> Goes(L, ss, steps, i)
  }

  /** The i-th step leads from the i-th state to the next. */
  ghost predicate Goes(L: Layout, ss: seq<State>, steps: seq<Step>, i: nat)
    requires i < |steps| && |ss| == |steps| + 1
  {
    Enabled(L, ss[i], steps[i]) && Defined(L, ss[i], steps[i]) && ss[i + 1] == Do(L, ss[i], steps[i])
  }

  lemma RunStep(L: Layout, ss: seq<State>, steps: seq<Step>, i: nat)
    requires Run(L, ss, steps) && i < |steps| && Inv(L, ss[i])
    ensures Inv(L, ss[i + 1])
    ensures SpecNext(Abstract(L, ss[i]), EventOf(ss[i], steps[i]), Abstract(L, ss[i + 1]))
  {
    assert Goes(L, ss, steps, i);
    StepRefines(L, ss[i], steps[i]);
  }

  lemma {:induction false} RunInv(L: Layout, ss: seq<State>, steps: seq<Step>, i: nat)
    requires Run(L, ss, steps) && i < |ss|
    ensures Inv(L, ss[i])
  {
    if i > 0 {
      RunInv(L, ss, steps, i - 1);
      RunStep(L, ss, steps, i - 1);
    }
  }

  ghost function SpecAt(L: Layout, ss: seq<State>, steps: seq<Step>, i: nat): Spec
    requires Run(L, ss, steps) && i < |ss|
  {
    RunInv(L, ss, steps, i);
    Abstract(L, ss[i])
  }

  /** At point i the disk recovers to what file-system code saw at the earlier point j, when no
      operation was in progress, and no commit falls between the two. */
  ghost predicate RecoversTo(L: Layout, ss: seq<State>, steps: seq<Step>, i: nat, j: nat)
    requires Run(L, ss, steps) && j <= i < |ss|
  {
    && SpecAt(L, ss, steps, j).active == 0
    && SpecAt(L, ss, steps, i).durable == SpecAt(L, ss, steps, j).logical
    && forall k :: j < k < i ==> !CommitsAt(ss, steps, k)
  }

  ghost predicate CommitsAt(ss: seq<State>, steps: seq<Step>, k: nat) {
    k < |ss| && k < |steps| && EventOf(ss[k], steps[k]) == Commit
  }

  /** Only the commit point changes what is durable, and it makes the current contents durable
      while no operation is in progress. */
  lemma DurableStep(L: Layout, ss: seq<State>, steps: seq<Step>, i: nat)
    requires Run(L, ss, steps) && i < |steps|
    ensures if CommitsAt(ss, steps, i)
            then SpecAt(L, ss, steps, i).active == 0
                 && SpecAt(L, ss, steps, i + 1).durable == SpecAt(L, ss, steps, i).logical
            else SpecAt(L, ss, steps, i + 1).durable == SpecAt(L, ss, steps, i).durable
  {
    RunInv(L, ss, steps, i);
    RunStep(L, ss, steps, i);
  }

  /** Crash atomicity over whole runs, with crashes anywhere, also inside commit and inside
      recovery: every point of every run recovers to the last commit. */
  lemma {:induction false} CrashAtomic(L: Layout, ss: seq<State>, steps: seq<Step>, i: nat) returns (j: nat)
    requires Run(L, ss, steps) && i < |ss|
    requires SpecAt(L, ss, steps, 0).active == 0
    requires SpecAt(L, ss, steps, 0).durable == SpecAt(L, ss, steps, 0).logical
    ensures j <= i && RecoversTo(L, ss, steps, i, j)
  {
    if i == 0 {
      j := 0;
      assert RecoversTo(L, ss, steps, 0, 0);
    } else {
      j := CrashAtomic(L, ss, steps, i - 1);
      StillRecovers(L, ss, steps, i - 1, j);
      if CommitsAt(ss, steps, i - 1) {
        j := i - 1;
      }
    }
  }

  /** One more step: a commit starts afresh, and nothing else changes what the disk recovers to. */
  lemma StillRecovers(L: Layout, ss: seq<State>, steps: seq<Step>, i: nat, j: nat)
    requires Run(L, ss, steps) && j <= i < |steps| && RecoversTo(L, ss, steps, i, j)
    ensures RecoversTo(L, ss, steps, i + 1, if CommitsAt(ss, steps, i) then i else j)
  {
    DurableStep(L, ss, steps, i);
  }

  /** So whatever holds of the home blocks when no operation is in progress holds of every disk that is recovered,
      such as an invariant that each operation as a whole keeps. */
  lemma CrashKeeps(L: Layout, ss: seq<State>, steps: seq<Step>, p: map<nat, Block> -> bool, i: nat)
    requires Run(L, ss, steps) && i < |ss|
    requires SpecAt(L, ss, steps, 0).active == 0
    requires SpecAt(L, ss, steps, 0).durable == SpecAt(L, ss, steps, 0).logical
    requires forall j :: 0 <= j < |ss| && SpecAt(L, ss, steps, j).active == 0 ==> p(SpecAt(L, ss, steps, j).logical)
    ensures p(SpecAt(L, ss, steps, i).durable)
  {
    var j := CrashAtomic(L, ss, steps, i);
    assert SpecAt(L, ss, steps, i).durable == SpecAt(L, ss, steps, j).logical;
  }

  /** In particular from a machine that is switched on with any disk: every later point recovers to what
      recovery first found on that disk, or to a later commit. */
  lemma CrashAtomicFromBoot(L: Layout, d: seq<Block>, ss: seq<State>, steps: seq<Step>, i: nat) returns (j: nat)
    requires DiskOk(L, d) && Run(L, ss, steps) && ss[0] == PowerOn(L, d) && i < |ss|
    ensures j <= i && RecoversTo(L, ss, steps, i, j)
    ensures SpecAt(L, ss, steps, 0).logical == Durable(L, d)
  {
    j := CrashAtomic(L, ss, steps, i);
  }

  /** When end_op returns from a commit, everything written so far has become durable. */
  lemma CommittedWhenDone(L: Layout, s: State)
    requires Inv(L, s) && Enabled(L, s, CommitDone)
    ensures Abstract(L, s).durable == Abstract(L, s).logical == HomeBlocks(L, s.view)
  {
    CommitDoneStep(L, s);
  }

  /** end_op's panic "log.committing" is unreachable: no operation is outstanding during a commit. */
  lemma NoOperationDuringCommit(L: Layout, s: State, st: Step)
    requires Inv(L, s) && s.up && s.committing
    ensures !Enabled(L, s, Begin)
    ensures st.LogWrite? || st.End? ==> !Enabled(L, s, st)
  {
  }

  // ---- Log space --------------------------------------------------------------------

  /** Blocks that outstanding operations may still append when each is allowed k. */
  ghost function Reserve(used: seq<nat>, k: nat): int {
    if used == [] then 0 else k - used[0] + Reserve(used[1..], k)
  }

  ghost predicate Each(used: seq<nat>, k: nat) {
    forall i :: 0 <= i < |used| ==> used[i] <= k
  }

  lemma {:induction false} ReserveConcat(a: seq<nat>, b: seq<nat>, k: nat)
    ensures Reserve(a + b, k) == Reserve(a, k) + Reserve(b, k)
  {
    if a == [] {
      assert a + b == b;
    } else {
      ReserveConcat(a[1..], b, k);
      assert (a + b)[1..] == a[1..] + b;
    }
  }

  lemma {:induction false} ReserveSplit(used: seq<nat>, op: nat, k: nat)
    requires op < |used|
    ensures Reserve(used, k) == Reserve(used[..op] + used[op + 1..], k) + k - used[op]
  {
    assert used == used[..op] + ([used[op]] + used[op + 1..]);
    ReserveConcat(used[..op], [used[op]] + used[op + 1..], k);
    ReserveConcat([used[op]], used[op + 1..], k);
    ReserveConcat(used[..op], used[op + 1..], k);
  }

  lemma {:induction false} ReserveBounds(used: seq<nat>, k: nat)
    requires Each(used, k)
    ensures 0 <= Reserve(used, k) <= k * |used|
  {
    if used != [] {
      ReserveBounds(used[1..], k);
    }
  }

  lemma {:induction false} ReserveGrow(used: seq<nat>, op: nat, k: nat)
    requires op < |used|
    ensures Reserve(used[op := used[op] + 1], k) == Reserve(used, k) - 1
  {
    var more := used[op := used[op] + 1];
    ReserveSplit(used, op, k);
    ReserveSplit(more, op, k);
    assert more[..op] == used[..op] && more[op + 1..] == used[op + 1..];
  }

  /** The operation appends a block only while it has used fewer than k. */
  ghost predicate Within(s: State, st: Step, k: nat) {
    st.LogWrite? && st.at !in s.lh ==> st.op < |s.used| && s.used[st.op] < k
  }

  /** Room left for the reservations: with k == MAXOPBLOCKS the room is the whole log; with one
      block less per operation two slots always stay free. */
  ghost predicate Room(s: State, k: nat, room: nat) {
    Each(s.used, k) && |s.lh| + Reserve(s.used, k) <= room
  }

  lemma {:induction false} RoomStep(L: Layout, s: State, st: Step, k: nat, room: nat)
    requires Inv(L, s) && Enabled(L, s, st) && Defined(L, s, st) && Within(s, st, k)
    requires (k == MAXOPBLOCKS && room == LOGSIZE) || (k == MAXOPBLOCKS - 1 && room == LOGSIZE - 2)
    requires Room(s, k, room)
    ensures Room(Do(L, s, st), k, room)
  {
    match st
    case Begin => RoomBegin(s, k, room);
    case LogWrite(op, at, data) => RoomLogWrite(s, op, at, k, room);
    case End(op) => RoomEnd(s, op, k, room);
    case _ => RoomOther(L, s, st, k, room);
  }

  lemma RoomOther(L: Layout, s: State, st: Step, k: nat, room: nat)
    requires Enabled(L, s, st) && Defined(L, s, st) && !st.Begin? && !st.LogWrite? && !st.End? && Room(s, k, room)
    ensures Room(Do(L, s, st), k, room)
  {
    ReserveBounds(s.used, k);
  }

  lemma {:induction false} RoomBegin(s: State, k: nat, room: nat)
    requires Room(s, k, room) && Admits(s) && (s.used == [] ==> s.lh == [])
    requires (k == MAXOPBLOCKS && room == LOGSIZE) || (k == MAXOPBLOCKS - 1 && room == LOGSIZE - 2)
    ensures Room(s.(used := s.used + [0]), k, room)
  {
    ReserveBounds(s.used, k);
    ReserveConcat(s.used, [0], k);
    assert Reserve([0], k) == k;
  }

  lemma {:induction false} RoomLogWrite(s: State, op: nat, at: nat, k: nat, room: nat)
    requires Room(s, k, room) && op < |s.used| && (at !in s.lh ==> s.used[op] < k)
    ensures var used := if at in s.lh then s.used else s.used[op := s.used[op] + 1];
            Each(used, k) && |Absorb(s.lh, at)| + Reserve(used, k) <= room
  {
    ReserveGrow(s.used, op, k);
  }

  lemma {:induction false} RoomEnd(s: State, op: nat, k: nat, room: nat)
    requires Room(s, k, room) && op < |s.used|
    ensures var rest := s.used[..op] + s.used[op + 1..]; Each(rest, k) && |s.lh| + Reserve(rest, k) <= room
  {
    ReserveSplit(s.used, op, k);
  }

  lemma {:induction false} RoomAlways(L: Layout, ss: seq<State>, steps: seq<Step>, k: nat, room: nat, i: nat)
    requires Run(L, ss, steps) && ss[0].used == [] && ss[0].lh == []
    requires forall j :: 0 <= j < |steps| ==> Within(ss[j], steps[j], k)
    requires (k == MAXOPBLOCKS && room == LOGSIZE) || (k == MAXOPBLOCKS - 1 && room == LOGSIZE - 2)
    requires i < |ss|
    ensures Room(ss[i], k, room)
  {
    if i > 0 {
      RoomAlways(L, ss, steps, k, room, i - 1);
      RoomNext(L, ss, steps, k, room, i - 1);
    }
  }

  lemma RoomNext(L: Layout, ss: seq<State>, steps: seq<Step>, k: nat, room: nat, i: nat)
    requires Run(L, ss, steps) && i < |steps| && Within(ss[i], steps[i], k) && Room(ss[i], k, room)
    requires (k == MAXOPBLOCKS && room == LOGSIZE) || (k == MAXOPBLOCKS - 1 && room == LOGSIZE - 2)
    ensures Room(ss[i + 1], k, room)
  {
    RunInv(L, ss, steps, i);
    assert Goes(L, ss, steps, i);
    RoomStep(L, ss[i], steps[i], k, room);
  }

  /** If no operation appends more than MAXOPBLOCKS - 1 blocks, log_write never panics for size,
      even with mkfs's log of LOGSIZE blocks, header included, and even on an absorbed write. */
  lemma NeverTooBig(L: Layout, ss: seq<State>, steps: seq<Step>, i: nat)
    requires L.size == LOGSIZE
    requires Run(L, ss, steps) && ss[0].used == [] && ss[0].lh == []
    requires forall j :: 0 <= j < |steps| ==> Within(ss[j], steps[j], MAXOPBLOCKS - 1)
    requires i < |ss|
    ensures !TooBig(L, ss[i].lh)
  {
    RoomAlways(L, ss, steps, MAXOPBLOCKS - 1, LOGSIZE - 2, i);
    ReserveBounds(ss[i].used, MAXOPBLOCKS - 1);
  }

  /** Three operations admitted together, then n blocks logged, ten by each in turn. */
  ghost function Filled(L: Layout, d: seq<Block>, n: nat): State {
    var first := L.start + L.size;
    State(true, d, d, seq(n, i => first + i),
          [Clamp(n), Clamp(n - 10), Clamp(n - 20)], false, [], 0, d)
  }

  function Clamp(n: int): nat {
    if n < 0 then 0 else if n > MAXOPBLOCKS then MAXOPBLOCKS else n
  }

  ghost function FillStep(L: Layout, d: seq<Block>, n: nat): Step
    requires L.start + L.size + n < |d|
  {
    LogWrite(n / 10, L.start + L.size + n, d[L.start + L.size + n])
  }

  lemma FillOne(L: Layout, d: seq<Block>, n: nat)
    requires DiskOk(L, d) && LogEmpty(L, d) && L.size == LOGSIZE && n < LOGSIZE - 1
    requires L.start + L.size + n < |d|
    ensures var s, st := Filled(L, d, n), FillStep(L, d, n);
            && Enabled(L, s, st) && Defined(L, s, st) && Within(s, st, MAXOPBLOCKS)
            && Do(L, s, st) == Filled(L, d, n + 1)
  {
    var s, st := Filled(L, d, n), FillStep(L, d, n);
    assert st.at !in s.lh;
    var t := Do(L, s, st);
    assert t.view == d;
    assert t.lh == Filled(L, d, n + 1).lh;
    assert t.used == Filled(L, d, n + 1).used;
  }

  /** One block more per operation is too many: on every disk with room for it, three operations
      that each keep to MAXOPBLOCKS reach a state where log_write's size test panics although an
      operation still has a block of its reservation left.  The bound of NeverTooBig is exact. */
  lemma TenIsTooMany(L: Layout, d: seq<Block>) returns (ss: seq<State>, steps: seq<Step>)
    requires DiskOk(L, d) && LogEmpty(L, d) && L.size == LOGSIZE && L.start + 2 * L.size <= |d|
    ensures Run(L, ss, steps) && ss[0].used == [] && ss[0].lh == []
    ensures forall j :: 0 <= j < |steps| ==> Within(ss[j], steps[j], MAXOPBLOCKS)
    ensures var s := ss[|ss| - 1]; TooBig(L, s.lh) && 2 < |s.used| && s.used[2] < MAXOPBLOCKS
  {
    ss, steps := FillStates(L, d), FillSteps(L, d);
    FillEnds(L, d);
    forall i | 0 <= i < |steps|
      ensures Goes(L, ss, steps, i) && Within(ss[i], steps[i], MAXOPBLOCKS)
    {
      FillGoes(L, d, i);
    }
  }

  /** `n` operations admitted and nothing logged. */
  ghost function Admitted(d: seq<Block>, n: nat): State {
    State(true, d, d, [], seq(n, i => 0), false, [], 0, d)
  }

  ghost function FillStates(L: Layout, d: seq<Block>): (ss: seq<State>)
    ensures |ss| == LOGSIZE + 3
  {
    seq(LOGSIZE + 3, i requires 0 <= i => if i < 3 then Admitted(d, i) else Filled(L, d, i - 3))
  }

  ghost function FillSteps(L: Layout, d: seq<Block>): (steps: seq<Step>)
    requires L.size == LOGSIZE && L.start + 2 * L.size <= |d| && 0 <= L.start
    ensures |steps| == LOGSIZE + 2
  {
    seq(LOGSIZE + 2, i requires 0 <= i < LOGSIZE + 2 => if i < 3 then Begin else FillStep(L, d, i - 3))
  }

  lemma FillEnds(L: Layout, d: seq<Block>)
    requires DiskOk(L, d) && LogEmpty(L, d) && L.size == LOGSIZE
    ensures var s := FillStates(L, d)[0]; Inv(L, s) && s.used == [] && s.lh == []
    ensures var s := FillStates(L, d)[LOGSIZE + 2]; TooBig(L, s.lh) && 2 < |s.used| && s.used[2] < MAXOPBLOCKS
  {
    assert Admitted(d, 0).used == [];
    assert FillStates(L, d)[LOGSIZE + 2] == Filled(L, d, LOGSIZE - 1);
  }

  lemma FillGoes(L: Layout, d: seq<Block>, i: nat)
    requires DiskOk(L, d) && LogEmpty(L, d) && L.size == LOGSIZE && L.start + 2 * L.size <= |d| && i < LOGSIZE + 2
    ensures Goes(L, FillStates(L, d), FillSteps(L, d), i)
    ensures Within(FillStates(L, d)[i], FillSteps(L, d)[i], MAXOPBLOCKS)
  {
    if i >= 3 {
      FillOne(L, d, i - 3);
    } else {
      FillBegin(L, d, i);
    }
  }

  lemma FillBegin(L: Layout, d: seq<Block>, n: nat)
    requires DiskOk(L, d) && LogEmpty(L, d) && L.size == LOGSIZE && n < 3
    ensures Enabled(L, Admitted(d, n), Begin) && Defined(L, Admitted(d, n), Begin)
    ensures Do(L, Admitted(d, n), Begin) == if n < 2 then Admitted(d, n + 1) else Filled(L, d, 0)
  {
    var t := Do(L, Admitted(d, n), Begin);
    assert t.used == Admitted(d, n + 1).used;
    if n == 2 {
      assert t.used == Filled(L, d, 0).used && t.lh == Filled(L, d, 0).lh;
    }
  }

  /** A run from a machine at rest in which no operation appends more than k blocks. */
  ghost predicate KeepsTo(L: Layout, ss: seq<State>, steps: seq<Step>, k: nat) {
    && Run(L, ss, steps) && ss[0].used == [] && ss[0].lh == []
    && forall j :: 0 <= j < |steps| ==> Within(ss[j], steps[j], k)
  }

  /** At no point would log_write panic for an operation that has not yet appended k blocks. */
  ghost predicate NoPanic(L: Layout, ss: seq<State>, k: nat) {
    forall i, op :: 0 <= i < |ss| && 0 <= op < |ss[i].used| && ss[i].used[op] < k ==> !TooBig(L, ss[i].lh)
  }

  /** The exact budget: all runs whose operations keep to k blocks are free of log_write's size panic if and only
      if k is at most MAXOPBLOCKS - 1. */
  lemma ExactBudget(L: Layout, d: seq<Block>, k: nat)
    requires DiskOk(L, d) && LogEmpty(L, d) && L.size == LOGSIZE && L.start + 2 * L.size <= |d|
    ensures (forall ss, steps {:trigger KeepsTo(L, ss, steps, k)} :: KeepsTo(L, ss, steps, k) ==> NoPanic(L, ss, k))
            <==> k <= MAXOPBLOCKS - 1
  {
    if k <= MAXOPBLOCKS - 1 {
      forall ss: seq<State>, steps: seq<Step> | KeepsTo(L, ss, steps, k) ensures NoPanic(L, ss, k) {
        forall i, op | 0 <= i < |ss| && 0 <= op < |ss[i].used| && ss[i].used[op] < k ensures !TooBig(L, ss[i].lh) {
          NeverTooBig(L, ss, steps, i);
        }
      }
    } else {
      var ss, steps := TenIsTooMany(L, d);
      assert KeepsTo(L, ss, steps, k) && !NoPanic(L, ss, k);
    }
  }
}
