/** Link counts (create, sys_link and sys_unlink in kernel/sysfile.c, iput in kernel/fs.c) as a step system:
a step is what a process does between giving up two inode locks.

The entries of all directories, "." and ".." aside, are one map.  sys_link raises a file's count before
it adds the name, and sys_unlink removes the name before it lowers the count; in between the process is
pending on that inode.  Counts are 16-bit, and nothing stops a process from creating a name in its
current directory after that directory has been removed; freeing that directory then takes the name away
without lowering a count.  RunExact says exactly when the counts are right. */
module Links {
  type Name = seq<int>

  const ROOT: nat := 1
  const MAXLINK: int := 32767

  /** The value of a C short. */
  function Short(x: int): int {
    if x > MAXLINK then x - 0x1_0000 else if x < -MAXLINK - 1 then x + 0x1_0000 else x
  }

  datatype Kind = Free | File | Dir

  datatype Entry = Entry(dir: nat, name: Name)

  /** What a process is in the middle of.  Unlinking holds the inode's lock. */
  datatype Work = Linking(inum: nat) | Unlinking(inum: nat)

  datatype State = State(kind: seq<Kind>, nlink: seq<int>, ents: map<Entry, nat>, work: map<nat, Work>)

  datatype Step =
    | Create(e: Entry, kind: Kind, inum: nat)   // create, with the inode that ialloc finds
    | CreateFail(kind: Kind, inum: nat)         // create's way out: ip->nlink = 0
    | LinkBegin(p: nat, inum: nat)              // ip->nlink++
    | LinkEnd(p: nat, e: Entry)                 // dirlink
    | LinkFail(p: nat)                          // bad: ip->nlink--
    | UnlinkEntry(p: nat, e: Entry)             // clear the entry; a directory's parent loses a link
    | UnlinkDrop(p: nat)                        // ip->nlink--
    | Put(inum: nat)                            // iput of the last reference frees the inode

  // ---- Counting -----------------------------------------------------------------------------------

  ghost function Names(ents: map<Entry, nat>, i: nat): set<Entry> {
    set e | e in ents && ents[e] == i
  }

  ghost function Children(kind: seq<Kind>, ents: map<Entry, nat>, d: nat): set<Entry> {
    set e | e in ents && e.dir == d && ents[e] < |kind| && kind[ents[e]] == Dir
  }

  ghost function Pending(work: map<nat, Work>, i: nat): set<nat> {
    set p | p in work && work[p].inum == i
  }

  /** The links that an inode ought to have. */
  ghost function Owed(kind: seq<Kind>, ents: map<Entry, nat>, work: map<nat, Work>, i: nat): nat {
    (if i == ROOT then 1 else 0) + |Names(ents, i)| + |Children(kind, ents, i)| + |Pending(work, i)|
  }

  lemma AddEntry(kind: seq<Kind>, ents: map<Entry, nat>, work: map<nat, Work>, e: Entry, i: nat, x: nat)
    requires e !in ents && i < |kind|
    ensures Owed(kind, ents[e := i], work, x) == Owed(kind, ents, work, x) + (if x == i then 1 else 0)
            + (if x == e.dir && kind[i] == Dir then 1 else 0)
  {
    NamesAdd(ents, e, i, x);
    ChildrenAdd(kind, ents, e, i, x);
  }

  lemma NamesAdd(ents: map<Entry, nat>, e: Entry, i: nat, x: nat)
    requires e !in ents
    ensures |Names(ents[e := i], x)| == |Names(ents, x)| + if x == i then 1 else 0
  {
    if x == i {
      assert Names(ents[e := i], x) == Names(ents, x) + {e};
    } else {
      assert Names(ents[e := i], x) == Names(ents, x);
    }
  }

  lemma ChildrenAdd(kind: seq<Kind>, ents: map<Entry, nat>, e: Entry, i: nat, x: nat)
    requires e !in ents && i < |kind|
    ensures |Children(kind, ents[e := i], x)| == |Children(kind, ents, x)| + if x == e.dir
            && kind[i] == Dir then 1 else 0
  {
    if x == e.dir && kind[i] == Dir {
      assert Children(kind, ents[e := i], x) == Children(kind, ents, x) + {e};
    } else {
      assert Children(kind, ents[e := i], x) == Children(kind, ents, x);
    }
  }

  lemma DropEntry(kind: seq<Kind>, ents: map<Entry, nat>, work: map<nat, Work>, e: Entry, x: nat)
    requires e in ents && ents[e] < |kind|
    ensures Owed(kind, ents, work, x)
         == Owed(kind, ents - {e}, work, x) + (if x == ents[e] then 1 else 0)
           + (if x == e.dir && kind[ents[e]] == Dir then 1 else 0)
  {
    AddEntry(kind, ents - {e}, work, e, ents[e], x);
    assert (ents - {e})[e := ents[e]] == ents;
  }

  lemma AddWork(kind: seq<Kind>, ents: map<Entry, nat>, work: map<nat, Work>, p: nat, w: Work, x: nat)
    requires p !in work
    ensures Owed(kind, ents, work[p := w], x) == Owed(kind, ents, work, x) + if x == w.inum then 1 else 0
  {
    if x == w.inum {
      assert Pending(work[p := w], x) == Pending(work, x) + {p};
    } else {
      assert Pending(work[p := w], x) == Pending(work, x);
    }
  }

  lemma DropWork(kind: seq<Kind>, ents: map<Entry, nat>, work: map<nat, Work>, p: nat, x: nat)
    requires p in work
    ensures Owed(kind, ents, work, x) == Owed(kind, ents, work - {p}, x) + if x == work[p].inum then 1 else 0
  {
    AddWork(kind, ents, work - {p}, p, work[p], x);
    assert (work - {p})[p := work[p]] == work;
  }

  /** Changing the kind of an inode that nothing names changes no count. */
  lemma Rekind(kind: seq<Kind>, ents: map<Entry, nat>, work: map<nat, Work>, i: nat, k: Kind, x: nat)
    requires i < |kind| && Names(ents, i) == {}
    ensures Owed(kind[i := k], ents, work, x) == Owed(kind, ents, work, x)
  {
    forall e | e in ents ensures ents[e] != i {
      assert e in Names(ents, i) <==> ents[e] == i;
    }
    assert Children(kind[i := k], ents, x) == Children(kind, ents, x);
  }

  // ---- The system ---------------------------------------------------------------------------------

  ghost predicate Locked(work: map<nat, Work>, i: nat) {
    exists p :: p in work && work[p] == Unlinking(i)
  }

  /** The directory can be locked and take a new name. */
  ghost predicate Usable(s: State, d: nat) {
    d < |s.kind| && d < |s.nlink| && s.kind[d] == Dir && !Locked(s.work, d)
  }

  /** isdirempty. */
  ghost predicate Empty(ents: map<Entry, nat>, d: nat) {
    forall e :: e in ents ==> e.dir != d
  }

  ghost predicate Enabled(s: State, step: Step) {
    match step
    case Create(e, kind, i) => Usable(s, e.dir) && e !in s.ents && kind != Free && i < |s.kind| && i < |s.nlink|
      && s.kind[i] == Free
    case CreateFail(kind, i) => kind != Free && i < |s.kind| && i < |s.nlink| && s.kind[i] == Free
    case LinkBegin(p, i) => p !in s.work && i < |s.kind| && i < |s.nlink| && s.kind[i] == File && !Locked(s.work, i)
    case LinkEnd(p, e) => p in s.work && s.work[p].Linking? && Usable(s, e.dir) && e !in s.ents
    case LinkFail(p) => p in s.work && s.work[p].Linking? && s.work[p].inum < |s.nlink|
      && !Locked(s.work, s.work[p].inum)
    case UnlinkEntry(p, e) =>
      && p !in s.work && e in s.ents && s.ents[e] < |s.kind| && !Locked(s.work, s.ents[e]) && !Locked(s.work, e.dir)
      && e.dir < |s.nlink| && (s.kind[s.ents[e]] == Dir ==> Empty(s.ents, s.ents[e]))
    case UnlinkDrop(p) => p in s.work && s.work[p].Unlinking? && s.work[p].inum < |s.nlink|
    case Put(i) => i < |s.kind| && i < |s.nlink| && s.kind[i] != Free && s.nlink[i] == 0
  }

  ghost function Do(s: State, step: Step): State
    requires Enabled(s, step)
  {
    match step
    case Create(e, kind, i) =>
      var nlink := s.nlink[i := 1];
      s.(kind := s.kind[i := kind], ents := s.ents[e := i],
         nlink := if kind == Dir then nlink[e.dir := Short(nlink[e.dir] + 1)] else nlink)
    case CreateFail(kind, i) => s.(kind := s.kind[i := kind], nlink := s.nlink[i := 0])
    case LinkBegin(p, i) => s.(nlink := s.nlink[i := Short(s.nlink[i] + 1)], work := s.work[p := Linking(i)])
    case LinkEnd(p, e) => s.(ents := s.ents[e := s.work[p].inum], work := s.work - {p})
    case LinkFail(p) => s.(nlink := s.nlink[s.work[p].inum := Short(s.nlink[s.work[p].inum] - 1)], work := s.work - {p})
    case UnlinkEntry(p, e) =>
      s.(ents := s.ents - {e}, work := s.work[p := Unlinking(s.ents[e])],
         nlink := if s.kind[s.ents[e]] == Dir then s.nlink[e.dir := Short(s.nlink[e.dir] - 1)] else s.nlink)
    case UnlinkDrop(p) => s.(nlink := s.nlink[s.work[p].inum := Short(s.nlink[s.work[p].inum] - 1)],
                             work := s.work - {p})
    case Put(i) => s.(kind := s.kind[i := Free], ents := map e | e in s.ents && e.dir != i :: s.ents[e])
  }

  /** The step overflows no count, and does not free a directory that has a name in it. */
  ghost predicate Harmless(s: State, step: Step)
    requires Enabled(s, step)
  {
    match step
    case Create(e, kind, _) => kind == Dir ==> s.nlink[e.dir] < MAXLINK
    case LinkBegin(_, i) => s.nlink[i] < MAXLINK
    case Put(i) => Empty(s.ents, i)
    case _ => true
  }

  /** What a caller can see to: the step adds no name to a directory that has been removed, and overflows no
      count. */
  ghost predicate Careful(s: State, step: Step)
    requires Enabled(s, step)
  {
    match step
    case Create(e, kind, _) => s.nlink[e.dir] > 0 && (kind == Dir ==> s.nlink[e.dir] < MAXLINK)
    case LinkBegin(_, i) => s.nlink[i] < MAXLINK
    case LinkEnd(_, e) => s.nlink[e.dir] > 0
    case _ => true
  }

  // ---- What every step keeps ------------------------------------------------------------------------

  /** Every count is the number of names, child directories and calls in progress. */
  ghost predicate CountsRight(s: State) {
    |s.kind| == |s.nlink| && forall i :: 0 <= i < |s.nlink| ==> s.nlink[i] == Owed(s.kind, s.ents, s.work, i) <= MAXLINK
  }

  /** A directory has one name at most, and the root none. */
  ghost predicate DirOk(s: State, d: nat) {
    |Names(s.ents, d)| <= 1 && (d == ROOT ==> Names(s.ents, d) == {})
  }

  ghost predicate InodeOk(s: State, i: nat)
    requires i < |s.kind| == |s.nlink|
  {
    && s.nlink[i] == Owed(s.kind, s.ents, s.work, i) <= MAXLINK
    && (s.kind[i] == Dir ==> DirOk(s, i))
    && (s.kind[i] == Free ==> s.nlink[i] == 0)
    && (s.kind[i] != Dir ==> Empty(s.ents, i))
  }

  ghost predicate Inv(s: State) {
    EntsOk(s) && WorkOk(s) && forall i {:trigger InodeOk(s, i)} :: 0 <= i < |s.kind| ==> InodeOk(s, i)
  }

  lemma InvCounts(s: State)
    requires Inv(s)
    ensures CountsRight(s)
  {
    forall i | 0 <= i < |s.nlink| ensures s.nlink[i] == Owed(s.kind, s.ents, s.work, i) <= MAXLINK {
      assert InodeOk(s, i);
    }
  }

  /** What the count of an inode says about its names. */
  lemma Unnamed(s: State, i: nat)
    requires Inv(s) && i < |s.kind| && s.nlink[i] == 0
    ensures Names(s.ents, i) == {} && Children(s.kind, s.ents, i) == {} && Pending(s.work, i) == {} && i != ROOT
  {
    assert InodeOk(s, i);
  }

  lemma InNames(ents: map<Entry, nat>, e: Entry)
    requires e in ents
    ensures e in Names(ents, ents[e])
  {
  }

  lemma NamesIs(ents: map<Entry, nat>, e: Entry, i: nat, x: nat)
    requires e !in ents
    ensures Names(ents[e := i], x) == if x == i then Names(ents, x) + {e} else Names(ents, x)
  {
  }

  lemma NamesWas(ents: map<Entry, nat>, e: Entry, x: nat)
    requires e in ents
    ensures Names(ents - {e}, x) == if x == ents[e] then Names(ents, x) - {e} else Names(ents, x)
  {
  }

  /** A directory in use has a name, or is the root. */
  lemma UsableNamed(s: State, d: nat)
    requires Inv(s) && Tidy(s) && Usable(s, d) && d != ROOT && s.nlink[d] > 0
    ensures Names(s.ents, d) != {}
  {
    assert InodeOk(s, d) && DirTidy(s, d);
    NothingPending(s, d);
  }

  lemma NothingPending(s: State, d: nat)
    requires WorkOk(s) && Usable(s, d)
    ensures Pending(s.work, d) == {}
  {
    forall p | p in s.work ensures s.work[p].inum != d {
      assert OneWorkOk(s, p) && s.work[p] != Unlinking(d);
    }
  }

  ghost predicate EntsOk(s: State) {
    && |s.kind| == |s.nlink| && ROOT < |s.kind| && s.kind[ROOT] == Dir
    && (forall e :: e in s.ents ==> e.dir < |s.kind| && s.ents[e] < |s.kind|)
  }

  ghost predicate WorkOk(s: State) {
    forall p :: p in s.work ==> OneWorkOk(s, p)
  }

  ghost predicate OneWorkOk(s: State, p: nat)
    requires p in s.work
  {
    var i := s.work[p].inum;
    && i < |s.kind|
    && (s.work[p].Linking? ==> s.kind[i] == File)
    && (s.work[p].Unlinking? && s.kind[i] == Dir ==> Names(s.ents, i) == {})
  }

  lemma CreateInv(s: State, e: Entry, kind: Kind, i: nat)
    requires Inv(s) && Enabled(s, Create(e, kind, i)) && Harmless(s, Create(e, kind, i))
    ensures Inv(Do(s, Create(e, kind, i)))
  {
    var s' := Do(s, Create(e, kind, i));
    assert InodeOk(s, i) && InodeOk(s, e.dir);
    Unnamed(s, i);
    forall x | 0 <= x < |s'.kind| ensures InodeOk(s', x) {
      assert InodeOk(s, x);
      Rekind(s.kind, s.ents, s.work, i, kind, x);
      AddEntry(s'.kind, s.ents, s.work, e, i, x);
      CreateDir(s, e, kind, i, x);
    }
    forall p | p in s'.work ensures OneWorkOk(s', p) {
      assert OneWorkOk(s, p);
      assert s.work[p].inum == i ==> p in Pending(s.work, i);
      NamesIs(s.ents, e, i, s.work[p].inum);
    }
  }

  lemma CreateDir(s: State, e: Entry, kind: Kind, i: nat, x: nat)
    requires Inv(s) && Enabled(s, Create(e, kind, i)) && x < |s.kind| && Names(s.ents, i) == {}
    ensures var s' := Do(s, Create(e, kind, i));
            (s'.kind[x] == Dir ==> DirOk(s', x)) && (s'.kind[x] != Dir ==> Empty(s'.ents, x))
  {
    assert InodeOk(s, x) && InodeOk(s, i) && InodeOk(s, e.dir);
    NamesIs(s.ents, e, i, x);
  }

  lemma LinkBeginInv(s: State, p: nat, i: nat)
    requires Inv(s) && Enabled(s, LinkBegin(p, i)) && Harmless(s, LinkBegin(p, i))
    ensures Inv(Do(s, LinkBegin(p, i)))
  {
    var s' := Do(s, LinkBegin(p, i));
    forall x | 0 <= x < |s'.kind| ensures InodeOk(s', x) {
      assert InodeOk(s, x);
      AddWork(s.kind, s.ents, s.work, p, Linking(i), x);
    }
    forall q | q in s'.work ensures OneWorkOk(s', q) {
      assert q != p ==> OneWorkOk(s, q);
    }
  }

  lemma LinkEndInv(s: State, p: nat, e: Entry)
    requires Inv(s) && Enabled(s, LinkEnd(p, e))
    ensures Inv(Do(s, LinkEnd(p, e)))
  {
    var s', i := Do(s, LinkEnd(p, e)), s.work[p].inum;
    assert OneWorkOk(s, p);
    forall x | 0 <= x < |s'.kind| ensures InodeOk(s', x) {
      assert InodeOk(s, x);
      DropWork(s.kind, s.ents, s.work, p, x);
      AddEntry(s.kind, s.ents, s'.work, e, i, x);
      NamesIs(s.ents, e, i, x);
    }
    forall q | q in s'.work ensures OneWorkOk(s', q) {
      assert OneWorkOk(s, q);
      NamesIs(s.ents, e, i, s.work[q].inum);
    }
  }

  lemma DropInv(s: State, s': State, p: nat)
    requires Inv(s) && p in s.work && s.work[p].inum < |s.nlink|
    requires s' == s.(nlink := s.nlink[s.work[p].inum := Short(s.nlink[s.work[p].inum] - 1)], work := s.work - {p})
    ensures Inv(s')
  {
    assert OneWorkOk(s, p);
    forall x | 0 <= x < |s'.kind| ensures InodeOk(s', x) {
      assert InodeOk(s, x);
      DropWork(s.kind, s.ents, s.work, p, x);
    }
    forall q | q in s'.work ensures OneWorkOk(s', q) {
      assert OneWorkOk(s, q);
    }
  }

  lemma UnlinkEntryInv(s: State, p: nat, e: Entry)
    requires Inv(s) && Enabled(s, UnlinkEntry(p, e))
    ensures Inv(Do(s, UnlinkEntry(p, e)))
  {
    var s', i := Do(s, UnlinkEntry(p, e)), s.ents[e];
    assert InodeOk(s, i);
    forall x | 0 <= x < |s'.kind| ensures InodeOk(s', x) {
      assert InodeOk(s, x);
      DropEntry(s.kind, s.ents, s.work, e, x);
      AddWork(s.kind, s'.ents, s.work, p, Unlinking(i), x);
      UnlinkDir(s, p, e, x);
    }
    forall q | q in s'.work ensures OneWorkOk(s', q) {
      if q == p {
        OnlyName(s, i, e);
      } else {
        assert OneWorkOk(s, q);
        NamesWas(s.ents, e, s.work[q].inum);
      }
    }
  }

  /** The only name of a directory. */
  lemma OnlyName(s: State, i: nat, e: Entry)
    requires Inv(s) && e in s.ents && s.ents[e] == i
    ensures s.kind[i] == Dir ==> Names(s.ents, i) == {e} && Names(s.ents - {e}, i) == {}
  {
    if s.kind[i] == Dir {
      assert InodeOk(s, i);
      assert e in Names(s.ents, i);
      assert |Names(s.ents, i) - {e}| == |Names(s.ents, i)| - 1;
      NamesWas(s.ents, e, i);
    }
  }

  lemma UnlinkDir(s: State, p: nat, e: Entry, x: nat)
    requires Inv(s) && Enabled(s, UnlinkEntry(p, e)) && x < |s.kind|
    ensures var s' := Do(s, UnlinkEntry(p, e)); (s'.kind[x] == Dir ==> DirOk(s', x))
                                                && (s'.kind[x] != Dir ==> Empty(s'.ents, x))
  {
    assert InodeOk(s, x);
    NamesWas(s.ents, e, x);
    if x == s.ents[e] {
      OnlyName(s, x, e);
    }
  }

  lemma PutInv(s: State, i: nat)
    requires Inv(s) && Enabled(s, Put(i)) && Empty(s.ents, i)
    ensures Inv(Do(s, Put(i)))
  {
    var s' := Do(s, Put(i));
    assert InodeOk(s, i);
    Unnamed(s, i);
    assert s'.ents == s.ents;
    forall x | 0 <= x < |s'.kind| ensures InodeOk(s', x) {
      assert InodeOk(s, x);
      Rekind(s.kind, s.ents, s.work, i, Free, x);
    }
    forall p | p in s'.work ensures OneWorkOk(s', p) {
      assert OneWorkOk(s, p);
      assert s.work[p].inum == i ==> p in Pending(s.work, i);
    }
  }

  lemma CreateFailInv(s: State, kind: Kind, i: nat)
    requires Inv(s) && Enabled(s, CreateFail(kind, i))
    ensures Inv(Do(s, CreateFail(kind, i)))
  {
    var s' := Do(s, CreateFail(kind, i));
    assert InodeOk(s, i);
    Unnamed(s, i);
    forall x | 0 <= x < |s'.kind| ensures InodeOk(s', x) {
      assert InodeOk(s, x);
      Rekind(s.kind, s.ents, s.work, i, kind, x);
    }
    forall p | p in s'.work ensures OneWorkOk(s', p) {
      assert OneWorkOk(s, p);
      assert s.work[p].inum == i ==> p in Pending(s.work, i);
    }
  }

  /** Every harmless step keeps the invariant. */
  lemma StepInv(s: State, step: Step)
    requires Inv(s) && Enabled(s, step) && Harmless(s, step)
    ensures Inv(Do(s, step))
  {
    match step
    case Create(e, kind, i) => CreateInv(s, e, kind, i);
    case CreateFail(kind, i) => CreateFailInv(s, kind, i);
    case LinkBegin(p, i) => LinkBeginInv(s, p, i);
    case LinkEnd(p, e) => LinkEndInv(s, p, e);
    case LinkFail(p) => DropInv(s, Do(s, step), p);
    case UnlinkEntry(p, e) => UnlinkEntryInv(s, p, e);
    case UnlinkDrop(p) => DropInv(s, Do(s, step), p);
    case Put(i) => PutInv(s, i);
  }

  /** Freeing a directory with a name in it leaves the inode of that name with a count too high. */
  lemma PutLoses(s: State, i: nat, e: Entry)
    requires Inv(s) && Enabled(s, Put(i)) && e in s.ents && e.dir == i
    ensures !CountsRight(Do(s, Put(i)))
  {
    var s', x := Do(s, Put(i)), s.ents[e];
    assert InodeOk(s, x);
    Fewer(Names(s'.ents, x) + {e}, Names(s.ents, x));
    assert |Names(s'.ents, x) + {e}| == |Names(s'.ents, x)| + 1;
    Fewer(Children(s'.kind, s'.ents, x), Children(s.kind, s.ents, x));
    assert s'.nlink[x] > Owed(s'.kind, s'.ents, s'.work, x);
  }

  lemma {:induction false} Fewer(a: set<Entry>, b: set<Entry>)
    requires a <= b
    ensures |a| <= |b|
  {
    if a != {} {
      var e :| e in a;
      Fewer(a - {e}, b - {e});
    }
  }

  /** From right counts a step leads to right counts if and only if it is harmless. */
  lemma StepExact(s: State, step: Step)
    requires Inv(s) && Enabled(s, step)
    ensures CountsRight(Do(s, step)) <==> Harmless(s, step)
  {
    var s' := Do(s, step);
    if Harmless(s, step) {
      StepInv(s, step);
      InvCounts(s');
    } else {
      match step
      case Create(e, kind, i) =>
        assert InodeOk(s, e.dir) && s'.nlink[e.dir] < 0;
      case LinkBegin(p, i) =>
        assert InodeOk(s, i) && s'.nlink[i] < 0;
      case Put(i) =>
        var e :| e in s.ents && e.dir == i;
        PutLoses(s, i, e);
    }
  }

  // ---- Names in removed directories -----------------------------------------------------------------

  /** A directory without a name is empty. */
  ghost predicate Tidy(s: State) {
    forall d {:trigger DirTidy(s, d)} :: 0 <= d < |s.kind| ==> DirTidy(s, d)
  }

  ghost predicate DirTidy(s: State, d: nat)
    requires d < |s.kind|
  {
    s.kind[d] == Dir && d != ROOT && Names(s.ents, d) == {} ==> Empty(s.ents, d)
  }

  /** A careful step is harmless where removed directories are empty, and leaves them empty. */
  lemma TidyStep(s: State, step: Step)
    requires Inv(s) && Tidy(s) && Enabled(s, step) && Careful(s, step)
    ensures Harmless(s, step) && Tidy(Do(s, step))
  {
    var s' := Do(s, step);
    forall d | 0 <= d < |s'.kind| ensures DirTidy(s', d) {
      assert DirTidy(s, d) && InodeOk(s, d);
      match step
      case Create(e, kind, i) => TidyCreate(s, e, kind, i, d);
      case LinkEnd(p, e) => TidyAdd(s, e, s.work[p].inum, d);
      case UnlinkEntry(p, e) => TidyUnlink(s, p, e, d);
      case CreateFail(kind, i) =>
      case Put(i) => TidyPut(s, i);
      case _ =>
    }
    if step.Put? {
      TidyPut(s, step.inum);
    }
  }

  lemma TidyPut(s: State, i: nat)
    requires Inv(s) && Tidy(s) && Enabled(s, Put(i))
    ensures Empty(s.ents, i) && Do(s, Put(i)).ents == s.ents
  {
    Unnamed(s, i);
    assert InodeOk(s, i) && DirTidy(s, i);
  }

  lemma TidyAdd(s: State, e: Entry, i: nat, d: nat)
    requires Inv(s) && Tidy(s) && Usable(s, e.dir) && s.nlink[e.dir] > 0 && e !in s.ents && d < |s.kind|
    ensures DirTidy(s.(ents := s.ents[e := i]), d)
  {
    assert DirTidy(s, d);
    NamesIs(s.ents, e, i, d);
    if d == e.dir && d != ROOT {
      UsableNamed(s, d);
    }
  }

  lemma TidyCreate(s: State, e: Entry, kind: Kind, i: nat, d: nat)
    requires Inv(s) && Tidy(s) && Enabled(s, Create(e, kind, i)) && s.nlink[e.dir] > 0 && d < |s.kind|
    ensures DirTidy(Do(s, Create(e, kind, i)), d)
  {
    TidyAdd(s, e, i, d);
    NamesIs(s.ents, e, i, i);
    assert e in Names(s.ents[e := i], i);
  }

  lemma TidyUnlink(s: State, p: nat, e: Entry, d: nat)
    requires Inv(s) && Tidy(s) && Enabled(s, UnlinkEntry(p, e)) && d < |s.kind|
    ensures DirTidy(Do(s, UnlinkEntry(p, e)), d)
  {
    assert DirTidy(s, d);
    NamesWas(s.ents, e, d);
  }

  // ---- Runs -----------------------------------------------------------------------------------------

  /** The image that mkfs makes: the root directory, and files in it with one name each. */
  ghost predicate Init(s: State) {
    && EntsOk(s) && s.work == map[]
    && (forall e :: e in s.ents ==> e.dir == ROOT)
    && (forall i :: 0 <= i < |s.kind| ==> OnImage(s, i))
  }

  ghost predicate OnImage(s: State, i: nat)
    requires i < |s.kind| == |s.nlink|
  {
    && (s.kind[i] == Dir ==> i == ROOT)
    && s.nlink[i] == (if s.kind[i] == Free then 0 else 1)
    && |Names(s.ents, i)| == (if s.kind[i] == File then 1 else 0)
  }

  lemma InitInv(s: State)
    requires Init(s)
    ensures Inv(s) && Tidy(s)
  {
    forall i | 0 <= i < |s.kind| ensures InodeOk(s, i) && DirTidy(s, i) {
      assert OnImage(s, i);
      forall e | e in s.ents ensures s.kind[s.ents[e]] != Dir {
        InNames(s.ents, e);
        assert OnImage(s, s.ents[e]);
      }
      assert Children(s.kind, s.ents, i) == {} && Pending(s.work, i) == {};
    }
  }

  /** The states of a run, each reached from the one before by a step. */
  ghost predicate Run(states: seq<State>, steps: seq<Step>) {
    && |states| == |steps| + 1
    && Init(states[0])
    && forall k {:trigger Goes(states, steps, k)} :: 0 <= k < |steps| ==> Goes(states, steps, k)
  }

  ghost predicate Goes(states: seq<State>, steps: seq<Step>, k: nat)
    requires k < |steps| && |states| == |steps| + 1
  {
    Enabled(states[k], steps[k]) && states[k + 1] == Do(states[k], steps[k])
  }

  /** The first n steps are harmless. */
  ghost predicate HarmlessFor(states: seq<State>, steps: seq<Step>, n: nat)
    requires Run(states, steps) && n <= |steps|
  {
    forall k {:trigger HarmlessAt(states, steps, k)} :: 0 <= k < n ==> HarmlessAt(states, steps, k)
  }

  ghost predicate HarmlessAt(states: seq<State>, steps: seq<Step>, k: nat)
    requires Run(states, steps) && k < |steps|
  {
    assert Goes(states, steps, k);
    Harmless(states[k], steps[k])
  }

  /** The first n steps are careful. */
  ghost predicate CarefulFor(states: seq<State>, steps: seq<Step>, n: nat)
    requires Run(states, steps) && n <= |steps|
  {
    forall k {:trigger CarefulAt(states, steps, k)} :: 0 <= k < n ==> CarefulAt(states, steps, k)
  }

  ghost predicate CarefulAt(states: seq<State>, steps: seq<Step>, k: nat)
    requires Run(states, steps) && k < |steps|
  {
    assert Goes(states, steps, k);
    Careful(states[k], steps[k])
  }

  /** At every point of every run: the counts have been right all along if and only if no step so far has
      overflowed a count or freed a directory that had a name in it. */
  lemma RunExact(states: seq<State>, steps: seq<Step>, n: nat)
    requires Run(states, steps) && n < |states|
    ensures (forall k :: 0 <= k <= n ==> CountsRight(states[k])) <==> HarmlessFor(states, steps, n)
  {
    if HarmlessFor(states, steps, n) {
      forall k | 0 <= k <= n ensures CountsRight(states[k]) {
        RunInv(states, steps, k);
        InvCounts(states[k]);
      }
    } else {
      var k := FirstHarm(states, steps, n);
      RunInv(states, steps, k);
      assert Goes(states, steps, k);
      StepExact(states[k], steps[k]);
    }
  }

  lemma {:induction false} RunInv(states: seq<State>, steps: seq<Step>, n: nat)
    requires Run(states, steps) && n < |states| && HarmlessFor(states, steps, n)
    ensures Inv(states[n])
  {
    if n == 0 {
      InitInv(states[0]);
    } else {
      RunInv(states, steps, n - 1);
      assert Goes(states, steps, n - 1) && HarmlessAt(states, steps, n - 1);
      StepInv(states[n - 1], steps[n - 1]);
    }
  }

  lemma {:induction false} FirstHarm(states: seq<State>, steps: seq<Step>, n: nat) returns (k: nat)
    requires Run(states, steps) && n <= |steps| && !HarmlessFor(states, steps, n)
    ensures k < n && HarmlessFor(states, steps, k) && !HarmlessAt(states, steps, k)
  {
    if HarmlessFor(states, steps, n - 1) {
      k := n - 1;
    } else {
      k := FirstHarm(states, steps, n - 1);
    }
  }

  /** A careful run is harmless: as long as no step adds a name to a removed directory or overflows a count,
      the counts are right, and a directory that is freed is empty. */
  lemma {:induction false} CarefulRun(states: seq<State>, steps: seq<Step>, n: nat)
    requires Run(states, steps) && n < |states| && CarefulFor(states, steps, n)
    ensures HarmlessFor(states, steps, n) && Inv(states[n]) && Tidy(states[n])
  {
    if n == 0 {
      InitInv(states[0]);
    } else {
      CarefulRun(states, steps, n - 1);
      assert Goes(states, steps, n - 1) && CarefulAt(states, steps, n - 1);
      TidyStep(states[n - 1], steps[n - 1]);
      StepInv(states[n - 1], steps[n - 1]);
      assert HarmlessAt(states, steps, n - 1);
    }
  }

  /** When no call is in progress, a file's count is the number of its names; a directory with a name has
      exactly one, and its count is one more than its child directories; so is the root's. */
  lemma AtRest(states: seq<State>, steps: seq<Step>, n: nat, i: nat)
    requires Run(states, steps) && n < |states| && CarefulFor(states, steps, n)
    requires states[n].work == map[] && i < |states[n].kind|
    ensures var s := states[n];
            && i < |s.nlink|
            && (s.kind[i] == File ==> s.nlink[i] == |Names(s.ents, i)|)
            && (s.kind[i] == Dir && i != ROOT && s.nlink[i] > 0 ==>
                  |Names(s.ents, i)| == 1 && s.nlink[i] == 1 + |Children(s.kind, s.ents, i)|)
            && (i == ROOT ==> s.nlink[i] == 1 + |Children(s.kind, s.ents, i)|)
  {
    CarefulRun(states, steps, n);
    CountsAtRest(states[n], i);
  }

  lemma CountsAtRest(s: State, i: nat)
    requires Inv(s) && Tidy(s) && s.work == map[] && i < |s.kind|
    ensures s.kind[i] == File ==> s.nlink[i] == |Names(s.ents, i)|
    ensures s.kind[i] == Dir && i != ROOT && s.nlink[i] > 0 ==>
              |Names(s.ents, i)| == 1 && s.nlink[i] == 1 + |Children(s.kind, s.ents, i)|
    ensures i == ROOT ==> s.nlink[i] == 1 + |Children(s.kind, s.ents, i)|
  {
    assert InodeOk(s, i) && InodeOk(s, ROOT) && DirTidy(s, i);
    assert Pending(s.work, i) == {};
    if s.kind[i] == Dir && i != ROOT && Names(s.ents, i) == {} {
      assert Children(s.kind, s.ents, i) == {};
    } else if s.kind[i] == File {
      assert Children(s.kind, s.ents, i) == {};
    }
  }

  /** iput frees an inode only when no directory names it, and sys_unlink's panic cannot happen. */
  lemma FreedUnnamed(states: seq<State>, steps: seq<Step>, n: nat)
    requires Run(states, steps) && n < |steps| && CarefulFor(states, steps, n)
    ensures var s := states[n];
            && (steps[n].Put? ==> Names(s.ents, steps[n].inum) == {} && Empty(s.ents, steps[n].inum))
            && (steps[n].UnlinkEntry? ==> steps[n].e in s.ents && s.ents[steps[n].e] < |s.nlink|
                                          && s.nlink[s.ents[steps[n].e]] >= 1)
  {
    CarefulRun(states, steps, n);
    assert Goes(states, steps, n);
    var s := states[n];
    match steps[n]
    case Put(i) =>
      Unnamed(s, i);
      TidyPut(s, i);
    case UnlinkEntry(_, e) =>
      assert InodeOk(s, s.ents[e]);
      InNames(s.ents, e);
    case _ =>
  }

  /** A run that goes wrong, on any image with two free inodes: a directory is made, removed, and while some
      process still has it open a file is created in it.  So far all counts are right.  When the directory is
      freed, the file is left with a count of one and no name. */
  lemma Orphan(s: State, d: nat, f: nat) returns (states: seq<State>, steps: seq<Step>)
    requires Init(s) && d < |s.kind| && f < |s.kind| && s.kind[d] == Free && s.kind[f] == Free && d != f
             && Entry(ROOT, [100]) !in s.ents
    ensures Run(states, steps) && states[0] == s
    ensures var z := states[|states| - 1];
            && f < |z.kind| == |z.nlink| && z.work == map[]
            && z.kind[f] == File && z.nlink[f] == 1 && Names(z.ents, f) == {}
    ensures !CountsRight(states[|states| - 1]) && forall k :: 0 <= k < |states| - 1 ==> CountsRight(states[k])
  {
    states := OrphanRun(s, d, f);
    steps := OrphanSteps(d, f);
    OnlyLastHarms(states, steps, Entry(d, [102]));
  }

  function OrphanSteps(d: nat, f: nat): seq<Step> {
    var e, x := Entry(ROOT, [100]), Entry(d, [102]);
    [Create(e, Dir, d), UnlinkEntry(0, e), UnlinkDrop(0), Create(x, File, f), Put(d)]
  }

  lemma OrphanRun(s: State, d: nat, f: nat) returns (states: seq<State>)
    requires Init(s) && d < |s.kind| && f < |s.kind| && s.kind[d] == Free && s.kind[f] == Free && d != f
             && Entry(ROOT, [100]) !in s.ents
    ensures Run(states, OrphanSteps(d, f)) && states[0] == s && Entry(d, [102]) in states[4].ents
    ensures var z := states[5];
            && f < |z.kind| == |z.nlink| && z.work == map[]
            && z.kind[f] == File && z.nlink[f] == 1 && Names(z.ents, f) == {}
  {
    var e, x, steps := Entry(ROOT, [100]), Entry(d, [102]), OrphanSteps(d, f);
    MakeAndRemove(s, d, e);
    var s1 := Do(s, steps[0]);
    var s2 := Do(s1, steps[1]);
    var s3 := Do(s2, steps[2]);
    FileInRemoved(s, s3, d, f, x);
    var s4 := Do(s3, steps[3]);
    states := [s, s1, s2, s3, s4, Do(s4, steps[4])];
    forall k | 0 <= k < |steps| ensures Goes(states, steps, k) {
      assert k == 0 || k == 1 || k == 2 || k == 3 || k == 4;
    }
  }

  lemma OnlyLastHarms(states: seq<State>, steps: seq<Step>, x: Entry)
    requires Run(states, steps) && |steps| == 5 && x in states[4].ents && steps[4] == Put(x.dir)
    requires steps[0].Create? && steps[0].e.dir == ROOT && steps[1].UnlinkEntry? && steps[2].UnlinkDrop?
    requires steps[3].Create? && steps[3].kind == File
    ensures !CountsRight(states[5]) && forall k :: 0 <= k < 5 ==> CountsRight(states[k])
  {
    assert OnImage(states[0], ROOT);
    forall k | 0 <= k < 4 ensures HarmlessAt(states, steps, k) {
      assert k == 0 || k == 1 || k == 2 || k == 3;
      assert Goes(states, steps, k);
    }
    RunExact(states, steps, 4);
    RunInv(states, steps, 4);
    assert Goes(states, steps, 4);
    PutLoses(states[4], x.dir, x);
  }

  lemma MakeAndRemove(s: State, d: nat, e: Entry)
    requires Init(s) && d < |s.kind| && s.kind[d] == Free && e !in s.ents && e.dir == ROOT
    ensures Enabled(s, Create(e, Dir, d))
    ensures var s1 := Do(s, Create(e, Dir, d));
            && Enabled(s1, UnlinkEntry(0, e))
            && var s2 := Do(s1, UnlinkEntry(0, e));
               Enabled(s2, UnlinkDrop(0)) && Do(s2, UnlinkDrop(0)) == s.(kind := s.kind[d := Dir])
  {
    assert OnImage(s, d) && OnImage(s, ROOT);
    var s1 := Do(s, Create(e, Dir, d));
    var s2 := Do(s1, UnlinkEntry(0, e));
    assert s2.ents == s.ents && s2.work[0] == Unlinking(d);
    var s3 := Do(s2, UnlinkDrop(0));
    assert s3.nlink == s.nlink && s3.work == map[];
  }

  lemma FileInRemoved(s: State, s3: State, d: nat, f: nat, x: Entry)
    requires Init(s) && d < |s.kind| && f < |s.kind| && s.kind[d] == Free && s.kind[f] == Free && d != f && x.dir == d
    requires s3 == s.(kind := s.kind[d := Dir])
    ensures Enabled(s3, Create(x, File, f)) && Enabled(Do(s3, Create(x, File, f)), Put(d))
    ensures var z := Do(Do(s3, Create(x, File, f)), Put(d));
            f < |z.kind| == |z.nlink| && z.work == map[] && z.kind[f] == File && z.nlink[f] == 1
              && Names(z.ents, f) == {}
  {
    assert OnImage(s, d) && OnImage(s, f) && d != ROOT;
    var z := Do(Do(s3, Create(x, File, f)), Put(d));
    forall y | y in z.ents ensures z.ents[y] != f {
      InNames(s.ents, y);
    }
  }
}
